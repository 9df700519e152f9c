/**
 * Seat allocation for one flight (flights/views_checkin.py, `flight_checkin`):
 * the fixed row-major list of seat labels 1A..30F, Python's `[:stop]` slice, and
 * the free seats, which are the labels of the capacity prefix that no boarding
 * pass of the flight names.
 */
module Seats {
  import opened Text
  import opened Sequences

  const Columns: seq<char> := ['A', 'B', 'C', 'D', 'E', 'F']
  const LastRow: nat := 30
  const SeatCount: nat := 180

  /** `f"{row}{seat}"`. */
  function SeatLabel(row: nat, column: char): string
  {
    DecimalString(row) + [column]
  }

  function RowSeats(row: nat): seq<string>
  {
    seq(|Columns|, j requires 0 <= j < |Columns| => SeatLabel(row, Columns[j]))
  }

  /** Rows `row`..30 in order, each row in column order. */
  function SeatsFrom(row: nat): seq<string>
    decreases LastRow + 1 - row
  {
    if row > LastRow then [] else RowSeats(row) + SeatsFrom(row + 1)
  }

  /** `[f"{row}{seat}" for row in range(1, 31) for seat in ['A', ..., 'F']]`. */
  function AllSeats(): seq<string>
  {
    SeatsFrom(1)
  }

  lemma {:induction false} SeatsFromAt(row: nat)
    requires 1 <= row <= LastRow + 1
    ensures |SeatsFrom(row)| == 6 * (LastRow + 1 - row)
    ensures forall i :: 0 <= i < |SeatsFrom(row)| ==>
      SeatsFrom(row)[i] == SeatLabel(row + i / 6, Columns[i % 6])
    decreases LastRow + 1 - row
  {
    if row <= LastRow {
      SeatsFromAt(row + 1);
      var s, first, rest := SeatsFrom(row), RowSeats(row), SeatsFrom(row + 1);
      assert s == first + rest;
      forall i | 0 <= i < |s|
        ensures s[i] == SeatLabel(row + i / 6, Columns[i % 6])
      {
        if i < 6 {
          FirstRowOffset(i);
          assert s[i] == first[i];
        } else {
          NextRowOffset(i);
          assert s[i] == rest[i - 6];
          assert rest[i - 6] == SeatLabel(row + 1 + (i - 6) / 6, Columns[(i - 6) % 6]);
        }
      }
    }
  }

  /** The first six positions are the first row, in column order. */
  lemma FirstRowOffset(i: nat)
    requires i < 6
    ensures i / 6 == 0 && i % 6 == i
  {
  }

  /** Position i of the following rows is position i - 6 of the rows after the first. */
  lemma NextRowOffset(i: nat)
    requires 6 <= i
    ensures (i - 6) / 6 == i / 6 - 1 && (i - 6) % 6 == i % 6
  {
  }

  /** The label at position i of the generated list: row i / 6 + 1, column i % 6. */
  function SeatAt(i: nat): string
  {
    SeatLabel(i / 6 + 1, Columns[i % 6])
  }

  lemma AllSeatsLength()
    ensures |AllSeats()| == SeatCount
  {
    SeatsFromAt(1);
  }

  /** 180 labels, row-major: position i holds `SeatAt(i)`. */
  lemma AllSeatsLayout()
    ensures |AllSeats()| == SeatCount
    ensures forall i :: 0 <= i < SeatCount ==> AllSeats()[i] == SeatAt(i)
  {
    SeatsFromAt(1);
  }

  /** Different (row, column) pairs give different labels. */
  lemma SeatLabelInjective(row1: nat, column1: char, row2: nat, column2: char)
    requires SeatLabel(row1, column1) == SeatLabel(row2, column2)
    ensures row1 == row2 && column1 == column2
  {
    var a, b := SeatLabel(row1, column1), SeatLabel(row2, column2);
    assert column1 == a[|a| - 1] && column2 == b[|b| - 1];
    assert DecimalString(row1) == a[..|a| - 1];
    assert DecimalString(row2) == b[..|b| - 1];
    DecimalStringInjective(row1, row2);
  }

  lemma SeatAtInjective(i: nat, j: nat)
    requires SeatAt(i) == SeatAt(j)
    ensures i == j
  {
    SeatLabelInjective(i / 6 + 1, Columns[i % 6], j / 6 + 1, Columns[j % 6]);
    var a, b := i % 6, j % 6;
    assert a == b by {
      assert Columns[a] == Columns[b];
      assert 0 <= a < 6 && 0 <= b < 6;
    }
    assert i == 6 * (i / 6) + a && j == 6 * (j / 6) + b;
  }

  /** The generated list has no duplicate label. */
  lemma AllSeatsDistinct()
    ensures Distinct(AllSeats())
  {
    AllSeatsLayout();
    var s := AllSeats();
    forall i, j | 0 <= i < j < |s|
      ensures s[i] != s[j]
    {
      if s[i] == s[j] {
        SeatAtInjective(i, j);
      }
    }
  }

  /** A seat belongs to the list exactly when it is some row 1..30 with some column A..F. */
  lemma AllSeatsMembers(seat: string)
    ensures seat in AllSeats() <==>
      exists row: nat, j :: 1 <= row <= LastRow && 0 <= j < |Columns| && seat == SeatLabel(row, Columns[j])
  {
    AllSeatsLayout();
    LayoutMembers(AllSeats(), seat);
  }

  /** Membership in any list laid out like the seat list, row by row. */
  lemma LayoutMembers(s: seq<string>, seat: string)
    requires |s| == SeatCount
    requires forall i :: 0 <= i < SeatCount ==> s[i] == SeatAt(i)
    ensures seat in s <==>
      exists row: nat, j :: 1 <= row <= LastRow && 0 <= j < |Columns| && seat == SeatLabel(row, Columns[j])
  {
    if seat in s {
      var i :| 0 <= i < |s| && s[i] == seat;
      SeatPosition(i);
      var row: nat, j := i / 6 + 1, i % 6;
      assert 1 <= row <= LastRow && 0 <= j < |Columns| && seat == SeatLabel(row, Columns[j]);
    }
    if exists row: nat, j :: 1 <= row <= LastRow && 0 <= j < |Columns| && seat == SeatLabel(row, Columns[j]) {
      var row: nat, j :| 1 <= row <= LastRow && 0 <= j < |Columns| && seat == SeatLabel(row, Columns[j]);
      var i := 6 * (row - 1) + j;
      PositionOfSeat(row, j);
      assert s[i] == SeatAt(i);
    }
  }

  /** Position i < 180 lies in row i / 6 + 1 of 1..30 and column i % 6 of 0..5. */
  lemma SeatPosition(i: nat)
    requires i < SeatCount
    ensures 1 <= i / 6 + 1 <= LastRow && 0 <= i % 6 < 6
  {
  }

  /** Row `row`, column j sits at position 6 * (row - 1) + j, below 180. */
  lemma PositionOfSeat(row: nat, j: nat)
    requires 1 <= row <= LastRow && j < 6
    ensures var i := 6 * (row - 1) + j; i < SeatCount && i / 6 + 1 == row && i % 6 == j
  {
  }

  /** Every generated seat is a non-empty string. */
  lemma AllSeatsNonEmpty()
    ensures forall i :: 0 <= i < |AllSeats()| ==> AllSeats()[i] != ""
  {
    AllSeatsLayout();
  }

  /**
   * `s[:stop]` with CPython's index adjustment: a negative stop counts from the
   * end, and the stop is then clamped to 0..len(s).
   */
  function SlicePrefix<T>(s: seq<T>, stop: int): (r: seq<T>)
    ensures r <= s
    ensures 0 <= stop ==> |r| == if stop <= |s| then stop else |s|
    ensures stop < 0 ==> |r| + (if -stop <= |s| then -stop else |s|) == |s|
  {
    var adjusted := if stop < 0 then stop + |s| else stop;
    var clamped := if adjusted < 0 then 0 else if adjusted > |s| then |s| else adjusted;
    s[..clamped]
  }

  /** The seats a flight of the given capacity sells: `all_seats[:capacity]`. */
  function SellableSeats(capacity: int): seq<string>
  {
    SlicePrefix(AllSeats(), capacity)
  }

  /**
   * `[seat for seat in all_seats[:capacity] if seat not in taken_seats]`:
   * the sellable seats that are not taken, in seat order, without repetitions.
   */
  function AvailableSeats(capacity: int, taken: seq<string>): (r: seq<string>)
    ensures forall i :: 0 <= i < |r| ==> r[i] in SellableSeats(capacity) && r[i] !in taken
    ensures forall seat :: seat in SellableSeats(capacity) && seat !in taken ==> seat in r
    ensures IsSubsequence(r, SellableSeats(capacity))
    ensures Distinct(r)
  {
    AllSeatsDistinct();
    var sellable := SellableSeats(capacity);
    FilterDistinct(sellable, seat => seat !in taken);
    FilterMembers(sellable, seat => seat !in taken);
    FilterSubsequence(sellable, seat => seat !in taken);
    Filter(sellable, seat => seat !in taken)
  }

  /**
   * The number of free seats is the number of sellable seats minus the number
   * of distinct taken seats that are sellable; a taken seat outside the prefix
   * (the POST accepts any seat string) frees nothing and costs nothing.
   */
  lemma AvailableSeatsCountAll(capacity: int, taken: seq<string>)
    ensures |AvailableSeats(capacity, taken)|
      == |SellableSeats(capacity)| - |Elements(taken) * Elements(SellableSeats(capacity))|
  {
    var sellable := SellableSeats(capacity);
    var t := Elements(taken) * Elements(sellable);
    AllSeatsDistinct();
    forall i | 0 <= i < |sellable|
      ensures (sellable[i] !in taken) == (sellable[i] !in t)
    {
      assert sellable[i] in Elements(sellable);
    }
    FilterCongruent(sellable, seat => seat !in taken, x => x !in t);
    FilterOutCard(sellable, t);
  }

  /**
   * When every taken seat is sellable, the number of free seats is the number
   * of sellable seats minus the number of distinct taken seats.
   */
  lemma AvailableSeatsCount(capacity: int, taken: seq<string>)
    requires forall seat :: seat in taken ==> seat in SellableSeats(capacity)
    ensures |AvailableSeats(capacity, taken)| == |SellableSeats(capacity)| - |Elements(taken)|
  {
    AvailableSeatsCountAll(capacity, taken);
    assert Elements(taken) * Elements(SellableSeats(capacity)) == Elements(taken);
  }

  /** A seat string outside the capacity prefix does not lower the free-seat count. */
  lemma OutsideSeatFreesNothing()
    ensures |AvailableSeats(3, ["2A"])| == 3
  {
    SellableThree();
    AvailableSeatsCountAll(3, ["2A"]);
    assert Elements(["2A"]) * Elements(SellableSeats(3)) == {};
  }

  /** A flight with the default capacity and no boarding pass offers all 180 seats. */
  lemma DefaultCapacityAllFree()
    ensures AvailableSeats(180, []) == AllSeats()
  {
    AllSeatsLength();
    assert SellableSeats(180) == AllSeats();
    var taken: seq<string> := [];
    FilterKeepsAll(AllSeats(), seat => seat !in taken);
  }

  lemma FirstRowLabels()
    ensures SeatAt(0) == "1A" && SeatAt(1) == "1B" && SeatAt(2) == "1C"
  {
    assert DecimalString(1) == "1";
  }

  lemma SellableThree()
    ensures SellableSeats(3) == ["1A", "1B", "1C"]
  {
    AllSeatsLayout();
    LayoutFirstThree(AllSeats());
  }

  /** Any list laid out like the seat list starts 1A, 1B, 1C. */
  lemma LayoutFirstThree(s: seq<string>)
    requires |s| == SeatCount
    requires forall i :: 0 <= i < SeatCount ==> s[i] == SeatAt(i)
    ensures s[..3] == ["1A", "1B", "1C"]
  {
    FirstRowLabels();
    assert s[0] == "1A" && s[1] == "1B" && s[2] == "1C";
    assert s[..3] == [s[0], s[1], s[2]];
  }

  /** Capacity 3 with 1A and 1C taken leaves only 1B. */
  lemma SmallCapacityExample()
    ensures AvailableSeats(3, ["1A", "1C"]) == ["1B"]
  {
    SellableThree();
    var taken: seq<string> := ["1A", "1C"];
    var s: seq<string> := ["1A", "1B", "1C"];
    assert s[1..] == ["1B", "1C"] && s[2..] == ["1C"] && s[3..] == [];
    assert Filter(s, seat => seat !in taken) == ["1B"];
  }
}
