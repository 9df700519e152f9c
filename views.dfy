/**
 * The public views of flights/views.py: the flight list with its number and
 * status filters, the city search, the flight detail page with one entry per
 * passenger, and the free-seat expression of its `flight_checkin` variant.
 * Each view reads a snapshot of the tables and writes nothing.
 */
module Views {
  import opened Wrappers
  import opened Text
  import opened Sequences
  import opened Models
  import opened Seats
  import opened CheckIn

  // ---------------------------------------------------------- flight_list

  /** A flight passes the list filters; an empty filter value filters nothing. */
  predicate ListMatches(f: Flight, search: string, status: string)
  {
    && (search == "" || IContains(f.number, search))
    && (status == "" || FlightStatusCode(f.status) == status)
  }

  /** `number__icontains=search`. */
  function NumberFilter(search: string): Flight -> bool
  {
    (f: Flight) => IContains(f.number, search)
  }

  /** `status=status`, compared with the stored status value. */
  function StatusFilter(status: string): Flight -> bool
  {
    (f: Flight) => FlightStatusCode(f.status) == status
  }

  /**
   * `flight_list`: a non-empty `search` narrows the flights to those whose
   * number contains it, ignoring case, then a non-empty `status` narrows them
   * to exactly that stored status value.
   */
  function FlightList(flights: seq<Flight>, search: string, status: string): seq<Flight>
  {
    var bySearch := if search != "" then Filter(flights, NumberFilter(search)) else flights;
    if status != "" then Filter(bySearch, StatusFilter(status)) else bySearch
  }

  /**
   * The two list filters compose as one filter on both conditions, so the list
   * keeps the order of the flight table and holds exactly the flights that
   * match both filters.
   */
  lemma FlightListIsOneFilter(flights: seq<Flight>, search: string, status: string)
    ensures FlightList(flights, search, status) == Filter(flights, (f: Flight) => ListMatches(f, search, status))
    ensures forall f :: f in FlightList(flights, search, status) <==> f in flights && ListMatches(f, search, status)
  {
    var both := (f: Flight) => ListMatches(f, search, status);
    var r := FlightList(flights, search, status);
    if search != "" && status != "" {
      FilterFilter(flights, NumberFilter(search), StatusFilter(status), both);
    } else if search != "" {
      FilterCongruent(flights, NumberFilter(search), both);
    } else if status != "" {
      FilterCongruent(flights, StatusFilter(status), both);
    } else {
      FilterKeepsAll(flights, both);
    }
    assert r == Filter(flights, both);
    FilterMembers(flights, both);
    forall f ensures f in r <==> f in flights && ListMatches(f, search, status) {
      if f in r {
        var i :| 0 <= i < |r| && r[i] == f;
      }
      if f in flights && ListMatches(f, search, status) {
        var i :| 0 <= i < |flights| && flights[i] == f;
      }
    }
  }

  // ------------------------------------------------------- search_flights

  /** `city_field__icontains=city`; a NULL city matches nothing. */
  predicate CityMatches(city: Option<string>, query: string)
  {
    city.Some? && IContains(city.value, query)
  }

  /**
   * `search_flights`: an empty `city` returns every flight; otherwise the
   * departure city is searched when `searchType` is "departure" and the
   * destination city for any other value ("destination" when absent).
   */
  function SearchFlights(flights: seq<Flight>, searchType: string, city: string): (r: seq<Flight>)
    ensures city == "" ==> r == flights
    ensures city != "" && searchType == "departure" ==>
      forall f :: f in r <==> f in flights && CityMatches(f.departureCity, city)
    ensures city != "" && searchType != "departure" ==>
      forall f :: f in r <==> f in flights && CityMatches(f.destinationCity, city)
    ensures IsSubsequence(r, flights)
  {
    if city == "" then SubsequenceRefl(flights); flights
    else if searchType == "departure" then
      var r := Filter(flights, (f: Flight) => CityMatches(f.departureCity, city));
      FilterMembers(flights, (f: Flight) => CityMatches(f.departureCity, city));
      FilterSubsequence(flights, (f: Flight) => CityMatches(f.departureCity, city));
      assert forall f :: f in r ==> CityMatches(f.departureCity, city) by {
        forall f | f in r ensures CityMatches(f.departureCity, city) {
          var i :| 0 <= i < |r| && r[i] == f;
        }
      }
      assert forall f :: f in flights && CityMatches(f.departureCity, city) ==> f in r by {
        forall f | f in flights && CityMatches(f.departureCity, city) ensures f in r {
          var i :| 0 <= i < |flights| && flights[i] == f;
        }
      }
      r
    else
      var r := Filter(flights, (f: Flight) => CityMatches(f.destinationCity, city));
      FilterMembers(flights, (f: Flight) => CityMatches(f.destinationCity, city));
      FilterSubsequence(flights, (f: Flight) => CityMatches(f.destinationCity, city));
      assert forall f :: f in r ==> CityMatches(f.destinationCity, city) by {
        forall f | f in r ensures CityMatches(f.destinationCity, city) {
          var i :| 0 <= i < |r| && r[i] == f;
        }
      }
      assert forall f :: f in flights && CityMatches(f.destinationCity, city) ==> f in r by {
        forall f | f in flights && CityMatches(f.destinationCity, city) ensures f in r {
          var i :| 0 <= i < |flights| && flights[i] == f;
        }
      }
      r
  }

  // -------------------------------------------------------- flight_detail

  /** `Passenger.objects.filter(flight=flight)`, in key order. */
  function FlightPassengers(passengers: seq<Passenger>, flightId: nat): seq<Passenger>
  {
    Filter(passengers, (p: Passenger) => p.flightId == flightId)
  }

  /** No pass before index `k` links the passenger to the flight. */
  predicate NoPassBefore(passes: seq<BoardingPass>, k: nat, passengerId: nat, flightId: nat)
    requires k <= |passes|
  {
    forall j :: 0 <= j < k ==> !(passes[j].passengerId == passengerId && passes[j].flightId == flightId)
  }

  /**
   * `BoardingPass.objects.filter(passenger=..., flight=...).first()`: the
   * earliest such pass in table order, or nothing (`FirstPassSmallestKey`: on a
   * table in key order, the one with the smallest key).
   */
  function FirstPass(passes: seq<BoardingPass>, passengerId: nat, flightId: nat): (r: Option<BoardingPass>)
    ensures r.None? <==> !HasPass(passes, passengerId, flightId)
    ensures r.Some? ==>
      && r.value.passengerId == passengerId && r.value.flightId == flightId
      && exists k :: 0 <= k < |passes| && passes[k] == r.value && NoPassBefore(passes, k, passengerId, flightId)
  {
    if passes == [] then None
    else if passes[0].passengerId == passengerId && passes[0].flightId == flightId then Some(passes[0])
    else
      var r := FirstPass(passes[1..], passengerId, flightId);
      if r.Some? then
        var k :| 0 <= k < |passes[1..]| && passes[1..][k] == r.value && NoPassBefore(passes[1..], k, passengerId, flightId);
        assert passes[k + 1] == r.value;
        assert NoPassBefore(passes, k + 1, passengerId, flightId) by {
          forall j | 0 <= j < k + 1 ensures !(passes[j].passengerId == passengerId && passes[j].flightId == flightId) {
            if j > 0 {
              assert passes[j] == passes[1..][j - 1];
            }
          }
        }
        r
      else
        assert !HasPass(passes, passengerId, flightId) by {
          forall bp | bp in passes ensures !(bp.passengerId == passengerId && bp.flightId == flightId) {
            if bp != passes[0] {
              assert bp in passes[1..];
            }
          }
        }
        r
  }

  /**
   * On a table kept in key order, the pass `FirstPass` picks has the smallest
   * key among the passes linking the passenger to the flight, which is the
   * pass `.first()` returns on an unordered queryset.
   */
  lemma FirstPassSmallestKey(passes: seq<BoardingPass>, next: nat, passengerId: nat, flightId: nat)
    requires PassKeys(passes, next)
    ensures FirstPass(passes, passengerId, flightId).Some? ==>
      forall j :: 0 <= j < |passes| && passes[j].passengerId == passengerId && passes[j].flightId == flightId ==>
        FirstPass(passes, passengerId, flightId).value.id <= passes[j].id
  {
    var r := FirstPass(passes, passengerId, flightId);
    if r.Some? {
      var k :| 0 <= k < |passes| && passes[k] == r.value && NoPassBefore(passes, k, passengerId, flightId);
      forall j | 0 <= j < |passes| && passes[j].passengerId == passengerId && passes[j].flightId == flightId
        ensures r.value.id <= passes[j].id
      {
        if j != k {
          assert k < j;
        }
      }
    }
  }

  /** One `passenger_data` entry. */
  datatype PassengerEntry = PassengerEntry(
    passenger: Passenger,
    pass: Option<BoardingPass>,
    isRegistered: bool)

  /** The figures `flight_detail` renders. */
  datatype FlightDetailPage = FlightDetailPage(
    flight: Flight,
    passengerData: seq<PassengerEntry>,
    registeredCount: nat,
    freeSeats: int,
    totalPassengers: nat)

  /** `free_seats = flight.capacity - registered_count`, not clamped at zero. */
  function FreeSeats(flight: Flight, passes: seq<BoardingPass>): int
  {
    flight.capacity - |FlightPasses(passes, flight.id)|
  }

  /** The entry the detail page shows for one passenger. */
  function Entry(passes: seq<BoardingPass>, p: Passenger, flightId: nat): PassengerEntry
  {
    var bp := FirstPass(passes, p.id, flightId);
    PassengerEntry(p, bp, bp.Some?)
  }

  /**
   * `flight_detail`: one entry per passenger of the flight, in order, whose flag
   * says whether any boarding pass links that passenger to the flight.
   */
  method FlightDetail(db: Db, flightId: nat) returns (page: Option<FlightDetailPage>)
    ensures page.None? <==> FindFlight(db.flights, flightId).None?
    ensures page.Some? ==>
      var fp := FlightPassengers(db.passengers, flightId);
      var data := page.value.passengerData;
      && page.value.flight == FindFlight(db.flights, flightId).value
      && |data| == |fp|
      && (forall i :: 0 <= i < |fp| ==>
            && data[i].passenger == fp[i]
            && data[i].pass == FirstPass(db.passes, fp[i].id, flightId)
            && (data[i].isRegistered <==> HasPass(db.passes, fp[i].id, flightId)))
      && page.value.registeredCount == |FlightPasses(db.passes, flightId)|
      && page.value.freeSeats == page.value.flight.capacity - page.value.registeredCount
      && page.value.totalPassengers == |fp|
  {
    var found := FindFlight(db.flights, flightId);
    if found.None? {
      return None;
    }
    var flight := found.value;
    var passengers := FlightPassengers(db.passengers, flightId);
    var data: seq<PassengerEntry> := [];
    var i := 0;
    while i < |passengers|
      invariant 0 <= i <= |passengers|
      invariant |data| == i
      invariant forall k :: 0 <= k < i ==> data[k] == Entry(db.passes, passengers[k], flightId)
    {
      var bp := FirstPass(db.passes, passengers[i].id, flightId);
      data := data + [PassengerEntry(passengers[i], bp, bp.Some?)];
      i := i + 1;
    }
    var registered := |FlightPasses(db.passes, flightId)|;
    page := Some(FlightDetailPage(flight, data, registered, flight.capacity - registered, |passengers|));
  }

  /**
   * When every boarding pass of the flight names one of its sellable seats and
   * the capacity is between 0 and 180, the detail page's free-seat figure
   * equals the length of the check-in page's free-seat list.
   */
  lemma FreeSeatsMatchesList(db: Db, flight: Flight)
    requires SeatsUnique(db.passes)
    requires 0 <= flight.capacity <= SeatCount
    requires forall bp :: bp in db.passes && bp.flightId == flight.id ==> bp.seatNumber in SellableSeats(flight.capacity)
    ensures FreeSeats(flight, db.passes) == |FlightSeats(db, flight)|
  {
    var fp := FlightPasses(db.passes, flight.id);
    var taken := TakenSeats(db.passes, flight.id);
    AllSeatsLength();
    assert |SellableSeats(flight.capacity)| == flight.capacity;
    forall seat | seat in taken ensures seat in SellableSeats(flight.capacity) {
      var bp :| bp in db.passes && bp.flightId == flight.id && bp.seatNumber == seat;
    }
    AvailableSeatsCount(flight.capacity, taken);
    var sameFlightDistinctSeat := (a: BoardingPass, b: BoardingPass) =>
      a.flightId == b.flightId ==> a.seatNumber != b.seatNumber;
    assert Pairwise(db.passes, sameFlightDistinctSeat);
    FilterPairwise(db.passes, (bp: BoardingPass) => bp.flightId == flight.id, sameFlightDistinctSeat);
    FilterMembers(db.passes, (bp: BoardingPass) => bp.flightId == flight.id);
    assert Distinct(taken) by {
      forall i, j | 0 <= i < j < |taken| ensures taken[i] != taken[j] {
        assert taken[i] == fp[i].seatNumber && taken[j] == fp[j].seatNumber;
        assert fp[i] in db.passes && fp[i].flightId == flight.id;
        assert fp[j] in db.passes && fp[j].flightId == flight.id;
      }
    }
    DistinctCard(taken);
  }

  /** Capacity is not a bound: a flight with more passes than seats shows a negative count. */
  lemma FreeSeatsCanBeNegative(flight: Flight, bp: BoardingPass)
    requires flight.capacity == 0 && bp.flightId == flight.id
    ensures FreeSeats(flight, [bp]) == -1
  {
    assert FlightPasses([bp], flight.id) == [bp];
  }

  // -------------------------------------- flight_checkin (views.py variant)

  /** `flight.available_seats or 180`: a missing or zero total falls back to 180. */
  function SeatTotal(given: Option<int>): (r: int)
    ensures r != 0
    ensures given.Some? && given.value != 0 ==> r == given.value
    ensures given.None? || given.value == 0 ==> r == SeatCount
  {
    match given
    case None => 180
    case Some(n) => if n == 0 then 180 else n
  }

  /** `[bp.seat_number for bp in boarded_passengers if bp.seat_number]`. */
  function NamedTakenSeats(passes: seq<BoardingPass>, flightId: nat): seq<string>
  {
    Filter(TakenSeats(passes, flightId), (seat: string) => seat != "")
  }

  /** `[seat for seat in all_seats[:total_seats] if seat not in taken_seats]`. */
  function FallbackSeats(given: Option<int>, passes: seq<BoardingPass>, flightId: nat): seq<string>
  {
    Filter(SlicePrefix(AllSeats(), SeatTotal(given)), (seat: string) => seat !in NamedTakenSeats(passes, flightId))
  }

  /**
   * Dropping empty seat numbers from the taken list changes nothing, since no
   * generated label is empty: the variant computes the same free seats as the
   * check-in page would for a capacity equal to the fallback total.
   */
  lemma FallbackSeatsAgree(given: Option<int>, passes: seq<BoardingPass>, flightId: nat)
    ensures FallbackSeats(given, passes, flightId) == AvailableSeats(SeatTotal(given), TakenSeats(passes, flightId))
  {
    var sellable := SellableSeats(SeatTotal(given));
    var taken := TakenSeats(passes, flightId);
    var named := NamedTakenSeats(passes, flightId);
    AllSeatsNonEmpty();
    FilterMembers(taken, (seat: string) => seat != "");
    forall i | 0 <= i < |sellable|
      ensures (sellable[i] !in named) == (sellable[i] !in taken)
    {
      assert sellable[i] == AllSeats()[i];
      if sellable[i] in taken {
        var k :| 0 <= k < |taken| && taken[k] == sellable[i];
        assert sellable[i] in named;
      }
    }
    FilterCongruent(sellable, (seat: string) => seat !in named, (seat: string) => seat !in taken);
  }
}
