/**
 * Check-in for one flight (flights/views_checkin.py): the free-seat and
 * free-passenger queries, the two POST branches of `flight_checkin`, and
 * `cancel_registration`, run against an in-memory copy of the database tables.
 *
 * The workflows are first defined as functions from one table state to the next
 * (`CheckInStep`, `CancelStep`); the `Store` class holds the tables as fields
 * and its methods change them in place, each proved to agree with its function.
 */
module CheckIn {
  import opened Wrappers
  import opened Text
  import opened Sequences
  import opened Models
  import opened Seats

  /** The tables the check-in views read and write, each in primary-key order. */
  datatype Db = Db(
    flights: seq<Flight>,
    passengers: seq<Passenger>,
    passes: seq<BoardingPass>,
    nextPassengerId: nat,
    nextPassId: nat)

  // ------------------------------------------------------------- lookups

  /** `Flight.objects.get(id=id)`, or nothing. */
  function FindFlight(flights: seq<Flight>, id: nat): (r: Option<Flight>)
    ensures r.Some? ==> r.value in flights && r.value.id == id
    ensures r.None? ==> forall f :: f in flights ==> f.id != id
  {
    if flights == [] then None
    else if flights[0].id == id then Some(flights[0])
    else FindFlight(flights[1..], id)
  }

  /** `Passenger.objects.get(id=id)`, or nothing. */
  function FindPassenger(passengers: seq<Passenger>, id: nat): (r: Option<Passenger>)
    ensures r.Some? ==> r.value in passengers && r.value.id == id
    ensures r.None? ==> forall p :: p in passengers ==> p.id != id
  {
    if passengers == [] then None
    else if passengers[0].id == id then Some(passengers[0])
    else FindPassenger(passengers[1..], id)
  }

  /** Position of the boarding pass with the given id, or nothing. */
  function FindPassIndex(passes: seq<BoardingPass>, id: nat): (r: Option<nat>)
    ensures r.Some? ==> r.value < |passes| && passes[r.value].id == id
    ensures r.None? ==> forall i :: 0 <= i < |passes| ==> passes[i].id != id
  {
    if passes == [] then None
    else if passes[0].id == id then Some(0)
    else match FindPassIndex(passes[1..], id)
      case None => None
      case Some(i) => Some(i + 1)
  }

  /** `BoardingPass.objects.filter(flight=flight, seat_number=seat).exists()`. */
  predicate SeatHeld(passes: seq<BoardingPass>, flightId: nat, seat: string)
  {
    exists bp :: bp in passes && bp.flightId == flightId && bp.seatNumber == seat
  }

  /** Some boarding pass already carries this `boarding_pass_number`. */
  predicate NumberInUse(passes: seq<BoardingPass>, number: string)
  {
    exists bp :: bp in passes && bp.number == number
  }

  /** Some boarding pass links this passenger to this flight. */
  predicate HasPass(passes: seq<BoardingPass>, passengerId: nat, flightId: nat)
  {
    exists bp :: bp in passes && bp.passengerId == passengerId && bp.flightId == flightId
  }

  // ----------------------------------------------------------- invariant

  ghost predicate FlightIdsDistinct(flights: seq<Flight>)
  {
    forall i, j :: 0 <= i < j < |flights| ==> flights[i].id != flights[j].id
  }

  /** Primary keys increase along the table and stay below the next key to hand out. */
  ghost predicate PassengerKeys(passengers: seq<Passenger>, next: nat)
  {
    && (forall i, j :: 0 <= i < j < |passengers| ==> passengers[i].id < passengers[j].id)
    && (forall i :: 0 <= i < |passengers| ==> passengers[i].id < next)
  }

  ghost predicate PassKeys(passes: seq<BoardingPass>, next: nat)
  {
    && (forall i, j :: 0 <= i < j < |passes| ==> passes[i].id < passes[j].id)
    && (forall i :: 0 <= i < |passes| ==> passes[i].id < next)
  }

  /** The `unique=True` constraint on `boarding_pass_number`. */
  ghost predicate NumbersUnique(passes: seq<BoardingPass>)
  {
    forall i, j :: 0 <= i < j < |passes| ==> passes[i].number != passes[j].number
  }

  /** At most one boarding pass per (flight, seat), whatever its status. */
  ghost predicate SeatsUnique(passes: seq<BoardingPass>)
  {
    forall i, j :: 0 <= i < j < |passes| && passes[i].flightId == passes[j].flightId ==>
      passes[i].seatNumber != passes[j].seatNumber
  }

  /** Every foreign key names an existing row. */
  ghost predicate References(db: Db)
  {
    && (forall p :: p in db.passengers ==> FindFlight(db.flights, p.flightId).Some?)
    && (forall bp :: bp in db.passes ==>
          FindFlight(db.flights, bp.flightId).Some? && FindPassenger(db.passengers, bp.passengerId).Some?)
  }

  /** The database constraints together with the seat-uniqueness invariant of check-in. */
  ghost predicate Consistent(db: Db)
  {
    && FlightIdsDistinct(db.flights)
    && PassengerKeys(db.passengers, db.nextPassengerId)
    && PassKeys(db.passes, db.nextPassId)
    && References(db)
    && NumbersUnique(db.passes)
    && SeatsUnique(db.passes)
  }

  // ------------------------------------------------------ page queries

  /** The flight's boarding passes, in key order (`boarded_passengers`). */
  function FlightPasses(passes: seq<BoardingPass>, flightId: nat): seq<BoardingPass>
  {
    Filter(passes, (bp: BoardingPass) => bp.flightId == flightId)
  }

  /**
   * `taken_seats`: the seat of every boarding pass of the flight. The pass
   * status is not looked at, so a cancelled-status pass still takes its seat.
   */
  function TakenSeats(passes: seq<BoardingPass>, flightId: nat): (r: seq<string>)
    ensures forall seat :: seat in r <==> SeatHeld(passes, flightId, seat)
    ensures forall bp :: bp in passes && bp.flightId == flightId ==> bp.seatNumber in r
  {
    var fp := FlightPasses(passes, flightId);
    FilterMembers(passes, (bp: BoardingPass) => bp.flightId == flightId);
    var r := seq(|fp|, i requires 0 <= i < |fp| => fp[i].seatNumber);
    assert forall bp :: bp in passes && bp.flightId == flightId ==> bp.seatNumber in r by {
      forall bp | bp in passes && bp.flightId == flightId
        ensures bp.seatNumber in r
      {
        var k :| 0 <= k < |passes| && passes[k] == bp;
        var i :| 0 <= i < |fp| && fp[i] == bp;
        assert r[i] == bp.seatNumber;
      }
    }
    r
  }

  /** `available_seats` of the check-in page for this flight. */
  function FlightSeats(db: Db, flight: Flight): (r: seq<string>)
    ensures forall seat :: seat in r <==> seat in SellableSeats(flight.capacity) && !SeatHeld(db.passes, flight.id, seat)
  {
    var r := AvailableSeats(flight.capacity, TakenSeats(db.passes, flight.id));
    assert forall seat :: seat in r ==> seat in SellableSeats(flight.capacity) && seat !in TakenSeats(db.passes, flight.id) by {
      forall seat | seat in r
        ensures seat in SellableSeats(flight.capacity) && seat !in TakenSeats(db.passes, flight.id)
      {
        var i :| 0 <= i < |r| && r[i] == seat;
      }
    }
    r
  }

  /**
   * A flight created with the default capacity offers every one of the 180
   * seats, in seat order, until a boarding pass names one of them.
   */
  lemma NewFlightAllSeatsFree(db: Db, id: nat, number: string, departureCity: Option<string>, destinationCity: Option<string>)
    requires forall bp :: bp in db.passes ==> bp.flightId != id
    ensures FlightSeats(db, NewFlight(id, number, departureCity, destinationCity)) == AllSeats()
  {
    forall i | 0 <= i < |db.passes| ensures db.passes[i].flightId != id {
      assert db.passes[i] in db.passes;
    }
    FilterNone(db.passes, (bp: BoardingPass) => bp.flightId == id);
    assert TakenSeats(db.passes, id) == [];
    DefaultCapacityAllFree();
  }

  /**
   * `available_passengers`: the flight's passengers that no boarding pass of the
   * flight names, in key order.
   */
  function AvailablePassengers(db: Db, flightId: nat): (r: seq<Passenger>)
    ensures forall p :: p in r <==>
      p in db.passengers && p.flightId == flightId && !HasPass(db.passes, p.id, flightId)
    ensures IsSubsequence(r, db.passengers)
  {
    var r := Filter(db.passengers, (p: Passenger) => p.flightId == flightId && !HasPass(db.passes, p.id, flightId));
    FilterMembers(db.passengers, (p: Passenger) => p.flightId == flightId && !HasPass(db.passes, p.id, flightId));
    FilterSubsequence(db.passengers, (p: Passenger) => p.flightId == flightId && !HasPass(db.passes, p.id, flightId));
    assert forall p :: p in r ==> p in db.passengers && p.flightId == flightId && !HasPass(db.passes, p.id, flightId) by {
      forall p | p in r
        ensures p in db.passengers && p.flightId == flightId && !HasPass(db.passes, p.id, flightId)
      {
        var i :| 0 <= i < |r| && r[i] == p;
      }
    }
    assert forall p :: p in db.passengers && p.flightId == flightId && !HasPass(db.passes, p.id, flightId) ==> p in r by {
      forall p | p in db.passengers && p.flightId == flightId && !HasPass(db.passes, p.id, flightId)
        ensures p in r
      {
        var i :| 0 <= i < |db.passengers| && db.passengers[i] == p;
      }
    }
    r
  }

  /** One passenger matches the lookup text in a name, the passport or the flight number. */
  predicate LookupMatches(flights: seq<Flight>, p: Passenger, query: string)
  {
    || IContains(p.firstName, query)
    || IContains(p.lastName, query)
    || IContains(p.passportNumber, query)
    || (match FindFlight(flights, p.flightId)
        case Some(f) => IContains(f.number, query)
        case None => false)
  }

  /** `passenger_lookup`: all passengers for an empty query, else the matching ones. */
  function PassengerLookup(db: Db, query: string): (r: seq<Passenger>)
    ensures query == "" ==> r == db.passengers
    ensures query != "" ==> forall p :: p in r <==> p in db.passengers && LookupMatches(db.flights, p, query)
    ensures IsSubsequence(r, db.passengers)
  {
    if query == "" then
      assert IsSubsequence(db.passengers, db.passengers) by {
        FilterKeepsAll(db.passengers, (p: Passenger) => true);
        FilterSubsequence(db.passengers, (p: Passenger) => true);
      }
      db.passengers
    else
      var r := Filter(db.passengers, (p: Passenger) => LookupMatches(db.flights, p, query));
      FilterMembers(db.passengers, (p: Passenger) => LookupMatches(db.flights, p, query));
      FilterSubsequence(db.passengers, (p: Passenger) => LookupMatches(db.flights, p, query));
      assert forall p :: p in r ==> LookupMatches(db.flights, p, query) by {
        forall p | p in r
          ensures LookupMatches(db.flights, p, query)
        {
          var i :| 0 <= i < |r| && r[i] == p;
        }
      }
      assert forall p :: p in db.passengers && LookupMatches(db.flights, p, query) ==> p in r by {
        forall p | p in db.passengers && LookupMatches(db.flights, p, query)
          ensures p in r
        {
          var i :| 0 <= i < |db.passengers| && db.passengers[i] == p;
        }
      }
      r
  }

  /**
   * Skipping the filter for an empty query loses nothing: filtering with the
   * empty text keeps every passenger, since every first name contains it.
   */
  lemma EmptyLookupFiltersNothing(db: Db)
    ensures Filter(db.passengers, (p: Passenger) => LookupMatches(db.flights, p, "")) == db.passengers
  {
    forall i | 0 <= i < |db.passengers|
      ensures LookupMatches(db.flights, db.passengers[i], "")
    {
      EmptyNeedle(db.passengers[i].firstName);
    }
    FilterKeepsAll(db.passengers, (p: Passenger) => LookupMatches(db.flights, p, ""));
  }

  // --------------------------------------------------------- check-in

  /**
   * The POST fields of the check-in form. `passengerId` is `None` when the field
   * is missing or empty; an empty string stands for a missing text field.
   */
  datatype CheckInForm = CheckInForm(
    passengerId: Option<nat>,
    seatNumber: string,
    newFirstName: string,
    newLastName: string,
    newPassport: string,
    newSeatNumber: string)

  /** `if passenger_id and seat_number`. */
  predicate ExistingRequested(form: CheckInForm)
  {
    form.passengerId.Some? && form.seatNumber != ""
  }

  /** `elif new_first_name and new_last_name and new_passport and new_seat_number`. */
  predicate NewRequested(form: CheckInForm)
  {
    form.newFirstName != "" && form.newLastName != "" && form.newPassport != "" && form.newSeatNumber != ""
  }

  datatype CheckInOutcome =
    | FlightNotFound               // 404 on the flight
    | PageShown                    // a GET: nothing submitted
    | PassengerNotFound            // 404 on `passenger_id`
    | SeatTaken(seat: string)      // "seat already taken" message, page shown again
    | NumberCollision(number: string)  // the unique constraint on the pass number fails
    | Registered(pass: BoardingPass)   // success message and redirect
    | NothingSubmitted             // a POST matching neither branch: page shown again

  datatype Step = Step(db: Db, outcome: CheckInOutcome)

  /** `f"BP{flight.number}{random.randint(1000, 9999)}"`, the random part given as `suffix`. */
  function PassNumber(flightNumber: string, suffix: nat): string
  {
    "BP" + flightNumber + DecimalString(suffix)
  }

  /**
   * A generated number is six characters longer than the flight number, so it
   * fits the 15-character column only for flight numbers of at most 9
   * characters, while the flight number column admits 10.
   */
  lemma PassNumberLength(flightNumber: string, suffix: nat)
    requires 1000 <= suffix <= 9999
    ensures |PassNumber(flightNumber, suffix)| == |flightNumber| + 6
    ensures |PassNumber(flightNumber, suffix)| <= PassNumberMaxLength <==> |flightNumber| <= 9
    ensures |flightNumber| == FlightNumberMaxLength ==> |PassNumber(flightNumber, suffix)| == PassNumberMaxLength + 1
  {
    DecimalLength(suffix);
  }

  /**
   * The generated number starts with "BP" and the flight number, and its suffix
   * reads back; a suffix drawn from 1000..9999 takes exactly four digits.
   */
  lemma PassNumberParts(flightNumber: string, suffix: nat)
    ensures var n := PassNumber(flightNumber, suffix);
      && "BP" + flightNumber <= n
      && ParseDecimal(n[|flightNumber| + 2..]) == suffix
      && (1000 <= suffix <= 9999 ==> |n| == |flightNumber| + 6)
  {
    var n := PassNumber(flightNumber, suffix);
    assert n[|flightNumber| + 2..] == DecimalString(suffix);
    ParseDecimalString(suffix);
    if 1000 <= suffix <= 9999 {
      DecimalLength(suffix);
    }
  }

  /** The pass `BoardingPass.objects.create` writes for a check-in. */
  function NewPass(db: Db, flight: Flight, passengerId: nat, seat: string, agent: nat, suffix: nat): BoardingPass
  {
    BoardingPass(db.nextPassId, passengerId, flight.id, PassNumber(flight.number, suffix),
                 seat, flight.gate, None, agent, DefaultPassStatus)
  }

  /** Creating the boarding pass: fails on the unique pass number, else appends it. */
  function Issue(db: Db, flight: Flight, passengerId: nat, seat: string, agent: nat, suffix: nat): Step
  {
    var bp := NewPass(db, flight, passengerId, seat, agent, suffix);
    if NumberInUse(db.passes, bp.number) then Step(db, NumberCollision(bp.number))
    else Step(db.(passes := db.passes + [bp], nextPassId := db.nextPassId + 1), Registered(bp))
  }

  /** The passenger row the new-passenger branch creates. */
  function NewPassenger(db: Db, flight: Flight, form: CheckInForm): Passenger
  {
    Passenger(db.nextPassengerId, flight.id, form.newFirstName, form.newLastName,
              form.newPassport, form.newSeatNumber)
  }

  /**
   * One request to `flight_checkin` by the agent whose row id is `agent`.
   * Only a successful registration or a pass-number collision writes anything;
   * the flight table is never written.
   */
  function CheckInStep(db: Db, flightId: nat, agent: nat, isPost: bool, form: CheckInForm, suffix: nat): (r: Step)
    requires 1000 <= suffix <= 9999
    ensures r.db.flights == db.flights
    ensures !(r.outcome.Registered? || r.outcome.NumberCollision?) ==> r.db == db
    ensures r.outcome.Registered? ==>
      && r.db.passes == db.passes + [r.outcome.pass]
      && r.outcome.pass.id == db.nextPassId
      && FindFlight(db.flights, flightId).Some?
      && !SeatHeld(db.passes, flightId, r.outcome.pass.seatNumber)
      && r.outcome.pass.flightId == flightId
      && r.outcome.pass.status == CheckedIn
      && r.outcome.pass.seatNumber == (if ExistingRequested(form) then form.seatNumber else form.newSeatNumber)
    ensures r.outcome.NumberCollision? ==> r.db.passes == db.passes
    ensures r.db.passengers == db.passengers ||
      (!ExistingRequested(form) && |r.db.passengers| == |db.passengers| + 1 && r.db.passengers[..|db.passengers|] == db.passengers)
  {
    match FindFlight(db.flights, flightId)
    case None => Step(db, FlightNotFound)
    case Some(flight) =>
      if !isPost then Step(db, PageShown)
      else if ExistingRequested(form) then
        match FindPassenger(db.passengers, form.passengerId.value)
        case None => Step(db, PassengerNotFound)
        case Some(p) =>
          if SeatHeld(db.passes, flightId, form.seatNumber) then Step(db, SeatTaken(form.seatNumber))
          else Issue(db, flight, p.id, form.seatNumber, agent, suffix)
      else if NewRequested(form) then
        if SeatHeld(db.passes, flightId, form.newSeatNumber) then Step(db, SeatTaken(form.newSeatNumber))
        else
          var p := NewPassenger(db, flight, form);
          var db' := db.(passengers := db.passengers + [p], nextPassengerId := db.nextPassengerId + 1);
          Issue(db', flight, p.id, form.newSeatNumber, agent, suffix)
      else Step(db, NothingSubmitted)
  }

  /**
   * The request paths of `flight_checkin` that write nothing: a missing flight,
   * a GET, and an unknown passenger id each leave the store as it was and give
   * their own outcome. A registration happens only on a POST, and in the
   * existing-passenger branch it is for the passenger the form names.
   */
  lemma CheckInNoWritePaths(db: Db, flightId: nat, agent: nat, isPost: bool, form: CheckInForm, suffix: nat)
    requires 1000 <= suffix <= 9999
    ensures var r := CheckInStep(db, flightId, agent, isPost, form, suffix);
      && (FindFlight(db.flights, flightId).None? ==> r == Step(db, FlightNotFound))
      && (FindFlight(db.flights, flightId).Some? && !isPost ==> r == Step(db, PageShown))
      && ((FindFlight(db.flights, flightId).Some? && isPost && ExistingRequested(form)
           && FindPassenger(db.passengers, form.passengerId.value).None?)
          ==> r == Step(db, PassengerNotFound))
      && (r.outcome.Registered? ==> isPost)
      && (r.outcome.Registered? && ExistingRequested(form) ==> r.outcome.pass.passengerId == form.passengerId.value)
  {
  }

  /** Registering an existing passenger on a free seat adds exactly one boarding pass. */
  lemma ExistingPassengerRegistered(db: Db, flightId: nat, agent: nat, form: CheckInForm, suffix: nat)
    requires 1000 <= suffix <= 9999
    requires ExistingRequested(form)
    requires FindFlight(db.flights, flightId).Some?
    requires FindPassenger(db.passengers, form.passengerId.value).Some?
    requires !SeatHeld(db.passes, flightId, form.seatNumber)
    requires !NumberInUse(db.passes, PassNumber(FindFlight(db.flights, flightId).value.number, suffix))
    ensures var f := FindFlight(db.flights, flightId).value;
      var bp := BoardingPass(db.nextPassId, form.passengerId.value, flightId, PassNumber(f.number, suffix),
                             form.seatNumber, f.gate, None, agent, CheckedIn);
      CheckInStep(db, flightId, agent, true, form, suffix) ==
        Step(db.(passes := db.passes + [bp], nextPassId := db.nextPassId + 1), Registered(bp))
  {
  }

  /**
   * Registering a new passenger on a free seat adds exactly one passenger, who
   * keeps the seat in the passenger row too, and then one boarding pass for them.
   */
  lemma NewPassengerRegistered(db: Db, flightId: nat, agent: nat, form: CheckInForm, suffix: nat)
    requires 1000 <= suffix <= 9999
    requires !ExistingRequested(form) && NewRequested(form)
    requires FindFlight(db.flights, flightId).Some?
    requires !SeatHeld(db.passes, flightId, form.newSeatNumber)
    requires !NumberInUse(db.passes, PassNumber(FindFlight(db.flights, flightId).value.number, suffix))
    ensures var f := FindFlight(db.flights, flightId).value;
      var p := Passenger(db.nextPassengerId, flightId, form.newFirstName, form.newLastName,
                         form.newPassport, form.newSeatNumber);
      var bp := BoardingPass(db.nextPassId, p.id, flightId, PassNumber(f.number, suffix),
                             form.newSeatNumber, f.gate, None, agent, CheckedIn);
      CheckInStep(db, flightId, agent, true, form, suffix) ==
        Step(Db(db.flights, db.passengers + [p], db.passes + [bp], db.nextPassengerId + 1, db.nextPassId + 1),
             Registered(bp))
  {
  }

  /**
   * The seat check comes before any write: when the chosen seat already has a
   * boarding pass on the flight, neither a passenger nor a pass is created.
   */
  lemma HeldSeatRefused(db: Db, flightId: nat, agent: nat, form: CheckInForm, suffix: nat)
    requires 1000 <= suffix <= 9999
    requires FindFlight(db.flights, flightId).Some?
    requires ExistingRequested(form) ==>
      FindPassenger(db.passengers, form.passengerId.value).Some? && SeatHeld(db.passes, flightId, form.seatNumber)
    requires !ExistingRequested(form) ==> NewRequested(form) && SeatHeld(db.passes, flightId, form.newSeatNumber)
    ensures CheckInStep(db, flightId, agent, true, form, suffix) ==
      Step(db, SeatTaken(if ExistingRequested(form) then form.seatNumber else form.newSeatNumber))
  {
  }

  /**
   * With both `passenger_id` and `seat_number` present the existing-passenger
   * branch runs, whatever the new-passenger fields hold.
   */
  lemma ExistingBranchFirst(db: Db, flightId: nat, agent: nat, isPost: bool, form: CheckInForm, other: CheckInForm, suffix: nat)
    requires 1000 <= suffix <= 9999
    requires ExistingRequested(form)
    requires other.passengerId == form.passengerId && other.seatNumber == form.seatNumber
    ensures CheckInStep(db, flightId, agent, isPost, form, suffix) == CheckInStep(db, flightId, agent, isPost, other, suffix)
  {
  }

  /** A POST that completes neither form leaves the tables as they were. */
  lemma IncompleteFormNoWrite(db: Db, flightId: nat, agent: nat, form: CheckInForm, suffix: nat)
    requires 1000 <= suffix <= 9999
    requires !ExistingRequested(form) && !NewRequested(form)
    ensures CheckInStep(db, flightId, agent, true, form, suffix).db == db
    ensures FindFlight(db.flights, flightId).Some? ==>
      CheckInStep(db, flightId, agent, true, form, suffix).outcome == NothingSubmitted
  {
  }

  /**
   * When the generated number collides in the new-passenger branch, the new
   * passenger row is already written and stays without a boarding pass.
   */
  lemma CollisionLeavesPassenger(db: Db, flightId: nat, agent: nat, form: CheckInForm, suffix: nat)
    requires 1000 <= suffix <= 9999
    requires PassengerKeys(db.passengers, db.nextPassengerId) && References(db)
    requires !ExistingRequested(form) && NewRequested(form)
    requires FindFlight(db.flights, flightId).Some?
    requires !SeatHeld(db.passes, flightId, form.newSeatNumber)
    requires NumberInUse(db.passes, PassNumber(FindFlight(db.flights, flightId).value.number, suffix))
    ensures var r := CheckInStep(db, flightId, agent, true, form, suffix);
      && r.outcome.NumberCollision?
      && r.db.passes == db.passes && r.db.nextPassId == db.nextPassId
      && |r.db.passengers| == |db.passengers| + 1
      && r.db.passengers[..|db.passengers|] == db.passengers
      && r.db.passengers[|db.passengers|] == NewPassenger(db, FindFlight(db.flights, flightId).value, form)
      && !HasPass(r.db.passes, r.db.passengers[|db.passengers|].id, flightId)
  {
    var r := CheckInStep(db, flightId, agent, true, form, suffix);
    var p := r.db.passengers[|db.passengers|];
    assert p.id == db.nextPassengerId;
  }

  /** After a registration its seat is no longer offered, and before it was offered if sellable. */
  lemma RegisteredSeatNoLongerFree(db: Db, flightId: nat, agent: nat, isPost: bool, form: CheckInForm, suffix: nat)
    requires 1000 <= suffix <= 9999
    requires CheckInStep(db, flightId, agent, isPost, form, suffix).outcome.Registered?
    ensures var r := CheckInStep(db, flightId, agent, isPost, form, suffix);
      var f := FindFlight(db.flights, flightId).value;
      && f.id == flightId
      && r.outcome.pass.seatNumber !in FlightSeats(r.db, f)
      && (r.outcome.pass.seatNumber in SellableSeats(f.capacity) ==> r.outcome.pass.seatNumber in FlightSeats(db, f))
  {
    var r := CheckInStep(db, flightId, agent, isPost, form, suffix);
    var f := FindFlight(db.flights, flightId).value;
    var bp := r.outcome.pass;
    assert bp in r.db.passes;
    assert SeatHeld(r.db.passes, flightId, bp.seatNumber);
  }

  /** A registered existing passenger of the flight leaves the list of passengers to check in. */
  lemma RegisteredPassengerLeavesList(db: Db, flightId: nat, agent: nat, isPost: bool, form: CheckInForm, suffix: nat)
    requires 1000 <= suffix <= 9999
    requires CheckInStep(db, flightId, agent, isPost, form, suffix).outcome.Registered?
    ensures var r := CheckInStep(db, flightId, agent, isPost, form, suffix);
      forall p: Passenger :: p.id == r.outcome.pass.passengerId ==> p !in AvailablePassengers(r.db, flightId)
  {
    var r := CheckInStep(db, flightId, agent, isPost, form, suffix);
    assert r.outcome.pass in r.db.passes;
  }

  lemma AddPassKeepsConsistent(db: Db, bp: BoardingPass)
    requires Consistent(db)
    requires bp.id == db.nextPassId
    requires FindFlight(db.flights, bp.flightId).Some?
    requires FindPassenger(db.passengers, bp.passengerId).Some?
    requires !SeatHeld(db.passes, bp.flightId, bp.seatNumber)
    requires !NumberInUse(db.passes, bp.number)
    ensures Consistent(db.(passes := db.passes + [bp], nextPassId := db.nextPassId + 1))
  {
    AppendPassKeys(db.passes, bp, db.nextPassId);
    AppendNumbersUnique(db.passes, bp);
    AppendSeatsUnique(db.passes, bp);
    var db' := db.(passes := db.passes + [bp], nextPassId := db.nextPassId + 1);
    assert References(db');
  }

  lemma AppendPassKeys(ps: seq<BoardingPass>, bp: BoardingPass, next: nat)
    requires PassKeys(ps, next) && bp.id == next
    ensures PassKeys(ps + [bp], next + 1)
  {
  }

  lemma AppendNumbersUnique(ps: seq<BoardingPass>, bp: BoardingPass)
    requires NumbersUnique(ps) && !NumberInUse(ps, bp.number)
    ensures NumbersUnique(ps + [bp])
  {
    var qs := ps + [bp];
    forall i, j | 0 <= i < j < |qs|
      ensures qs[i].number != qs[j].number
    {
      if j == |ps| {
        assert qs[i] in ps;
      } else {
        assert qs[i] == ps[i] && qs[j] == ps[j];
      }
    }
  }

  lemma AppendSeatsUnique(ps: seq<BoardingPass>, bp: BoardingPass)
    requires SeatsUnique(ps) && !SeatHeld(ps, bp.flightId, bp.seatNumber)
    ensures SeatsUnique(ps + [bp])
  {
    var qs := ps + [bp];
    forall i, j | 0 <= i < j < |qs| && qs[i].flightId == qs[j].flightId
      ensures qs[i].seatNumber != qs[j].seatNumber
    {
      if j == |ps| {
        assert qs[i] in ps;
      } else {
        assert qs[i] == ps[i] && qs[j] == ps[j];
      }
    }
  }

  lemma AddPassengerKeepsConsistent(db: Db, p: Passenger)
    requires Consistent(db)
    requires p.id == db.nextPassengerId
    requires FindFlight(db.flights, p.flightId).Some?
    ensures Consistent(db.(passengers := db.passengers + [p], nextPassengerId := db.nextPassengerId + 1))
    ensures FindPassenger(db.passengers + [p], p.id).Some?
  {
    var db' := db.(passengers := db.passengers + [p], nextPassengerId := db.nextPassengerId + 1);
    forall bp | bp in db'.passes
      ensures FindPassenger(db'.passengers, bp.passengerId).Some?
    {
      var q := FindPassenger(db.passengers, bp.passengerId).value;
      assert q in db'.passengers;
    }
    assert p in db'.passengers;
  }

  /** Every check-in request keeps the tables consistent, in particular one pass per seat. */
  lemma CheckInKeepsConsistent(db: Db, flightId: nat, agent: nat, isPost: bool, form: CheckInForm, suffix: nat)
    requires 1000 <= suffix <= 9999
    requires Consistent(db)
    ensures Consistent(CheckInStep(db, flightId, agent, isPost, form, suffix).db)
  {
    match FindFlight(db.flights, flightId)
    case None =>
    case Some(flight) =>
      if isPost && ExistingRequested(form) {
        match FindPassenger(db.passengers, form.passengerId.value)
        case None =>
        case Some(p) =>
          if !SeatHeld(db.passes, flightId, form.seatNumber) {
            var bp := NewPass(db, flight, p.id, form.seatNumber, agent, suffix);
            if !NumberInUse(db.passes, bp.number) {
              AddPassKeepsConsistent(db, bp);
              assert CheckInStep(db, flightId, agent, isPost, form, suffix).db ==
                db.(passes := db.passes + [bp], nextPassId := db.nextPassId + 1);
            }
          }
      } else if isPost && NewRequested(form) && !SeatHeld(db.passes, flightId, form.newSeatNumber) {
        var p := NewPassenger(db, flight, form);
        AddPassengerKeepsConsistent(db, p);
        var db' := db.(passengers := db.passengers + [p], nextPassengerId := db.nextPassengerId + 1);
        var bp := NewPass(db', flight, p.id, form.newSeatNumber, agent, suffix);
        if !NumberInUse(db'.passes, bp.number) {
          AddPassKeepsConsistent(db', bp);
          assert CheckInStep(db, flightId, agent, isPost, form, suffix).db ==
            db'.(passes := db'.passes + [bp], nextPassId := db'.nextPassId + 1);
        } else {
          assert CheckInStep(db, flightId, agent, isPost, form, suffix).db == db';
        }
      }
  }

  // ------------------------------------------------------- cancellation

  datatype CancelOutcome =
    | PassNotFound                  // 404 on the boarding pass
    | Removed(pass: BoardingPass)   // a POST: the pass is deleted
    | Kept(pass: BoardingPass)      // any other method: redirect only

  datatype CancelResult = CancelResult(db: Db, outcome: CancelOutcome)

  /**
   * `cancel_registration`: a POST deletes the boarding pass with the given id;
   * no other row changes, and anything else changes nothing.
   */
  function CancelStep(db: Db, passId: nat, isPost: bool): (r: CancelResult)
    ensures r.db.flights == db.flights && r.db.passengers == db.passengers
    ensures r.db.nextPassengerId == db.nextPassengerId && r.db.nextPassId == db.nextPassId
    ensures !r.outcome.Removed? ==> r.db == db
    ensures r.outcome.PassNotFound? <==> forall bp :: bp in db.passes ==> bp.id != passId
    ensures r.outcome.Kept? <==> !isPost && exists bp :: bp in db.passes && bp.id == passId
    ensures r.outcome.Removed? <==> isPost && exists bp :: bp in db.passes && bp.id == passId
    ensures r.outcome.Removed? ==>
      && r.outcome.pass in db.passes && r.outcome.pass.id == passId
      && |r.db.passes| == |db.passes| - 1
      && IsSubsequence(r.db.passes, db.passes)
      && forall bp :: bp in db.passes && bp.id != passId ==> bp in r.db.passes
  {
    match FindPassIndex(db.passes, passId)
    case None => CancelResult(db, PassNotFound)
    case Some(k) =>
      var bp := db.passes[k];
      if isPost then
        var rest := db.passes[..k] + db.passes[k + 1..];
        DeleteSubsequence(db.passes, k);
        assert forall bp' :: bp' in db.passes && bp'.id != passId ==> bp' in rest by {
          forall bp' | bp' in db.passes && bp'.id != passId
            ensures bp' in rest
          {
            var i :| 0 <= i < |db.passes| && db.passes[i] == bp';
            if i < k {
              assert rest[i] == bp';
            } else {
              assert rest[i - 1] == bp';
            }
          }
        }
        CancelResult(db.(passes := rest), Removed(bp))
      else CancelResult(db, Kept(bp))
  }

  /**
   * On consistent tables the deletion removes exactly the identified pass: the
   * table afterwards is the old one with that id filtered out.
   */
  lemma CancelRemovesExactly(db: Db, passId: nat)
    requires PassKeys(db.passes, db.nextPassId)
    ensures CancelStep(db, passId, true).db.passes == Filter(db.passes, (bp: BoardingPass) => bp.id != passId)
  {
    var ps := db.passes;
    match FindPassIndex(ps, passId)
    case None =>
      assert CancelStep(db, passId, true).db.passes == ps;
      FilterKeepsAll(ps, (bp: BoardingPass) => bp.id != passId);
    case Some(k) =>
      assert CancelStep(db, passId, true).db.passes == ps[..k] + ps[k + 1..];
      forall i | 0 <= i < |ps| && i != k
        ensures ps[i].id != passId
      {
        if i < k {
          assert ps[i].id < ps[k].id;
        } else {
          assert ps[k].id < ps[i].id;
        }
      }
      FilterRemovesOne(ps, k, (bp: BoardingPass) => bp.id != passId);
  }

  /** Position i of a table with position k deleted held position i or i + 1 before. */
  lemma DeletedAt<T>(s: seq<T>, k: nat, i: nat)
    requires k < |s| && i < |s| - 1
    ensures (s[..k] + s[k + 1..])[i] == s[if i < k then i else i + 1]
  {
  }

  lemma DeletePassKeys(ps: seq<BoardingPass>, k: nat, next: nat)
    requires PassKeys(ps, next) && k < |ps|
    ensures PassKeys(ps[..k] + ps[k + 1..], next)
  {
    var rest := ps[..k] + ps[k + 1..];
    forall i | 0 <= i < |rest| ensures rest[i].id < next {
      DeletedAt(ps, k, i);
    }
    forall i, j | 0 <= i < j < |rest| ensures rest[i].id < rest[j].id {
      DeletedAt(ps, k, i);
      DeletedAt(ps, k, j);
    }
  }

  lemma DeleteNumbersUnique(ps: seq<BoardingPass>, k: nat)
    requires NumbersUnique(ps) && k < |ps|
    ensures NumbersUnique(ps[..k] + ps[k + 1..])
  {
    var rest := ps[..k] + ps[k + 1..];
    forall i, j | 0 <= i < j < |rest| ensures rest[i].number != rest[j].number {
      DeletedAt(ps, k, i);
      DeletedAt(ps, k, j);
    }
  }

  lemma DeleteSeatsUnique(ps: seq<BoardingPass>, k: nat)
    requires SeatsUnique(ps) && k < |ps|
    ensures SeatsUnique(ps[..k] + ps[k + 1..])
  {
    var rest := ps[..k] + ps[k + 1..];
    forall i, j | 0 <= i < j < |rest| && rest[i].flightId == rest[j].flightId
      ensures rest[i].seatNumber != rest[j].seatNumber
    {
      DeletedAt(ps, k, i);
      DeletedAt(ps, k, j);
    }
  }

  /** Deleting the boarding pass at position k keeps every constraint. */
  lemma DeletePassKeepsConsistent(db: Db, k: nat)
    requires Consistent(db) && k < |db.passes|
    ensures Consistent(db.(passes := db.passes[..k] + db.passes[k + 1..]))
  {
    var ps := db.passes;
    DeletePassKeys(ps, k, db.nextPassId);
    DeleteNumbersUnique(ps, k);
    DeleteSeatsUnique(ps, k);
    assert forall bp :: bp in ps[..k] + ps[k + 1..] ==> bp in ps;
  }

  lemma CancelKeepsConsistent(db: Db, passId: nat, isPost: bool)
    requires Consistent(db)
    ensures Consistent(CancelStep(db, passId, isPost).db)
  {
    match FindPassIndex(db.passes, passId) {
      case None =>
        assert CancelStep(db, passId, isPost).db == db;
      case Some(k) =>
        if isPost {
          assert CancelStep(db, passId, isPost).db == db.(passes := db.passes[..k] + db.passes[k + 1..]);
          DeletePassKeepsConsistent(db, k);
        } else {
          assert CancelStep(db, passId, isPost).db == db;
        }
    }
  }

  /**
   * After cancelling a pass of a flight, its seat is offered again exactly when
   * it belongs to the flight's sellable seats: no other pass can hold it.
   */
  lemma CancelFreesSeat(db: Db, passId: nat, flight: Flight)
    requires Consistent(db)
    requires CancelStep(db, passId, true).outcome.Removed?
    requires CancelStep(db, passId, true).outcome.pass.flightId == flight.id
    ensures var seat := CancelStep(db, passId, true).outcome.pass.seatNumber;
      seat in FlightSeats(CancelStep(db, passId, true).db, flight) <==> seat in SellableSeats(flight.capacity)
  {
    var r := CancelStep(db, passId, true);
    var k := FindPassIndex(db.passes, passId).value;
    var ps, rest := db.passes, r.db.passes;
    assert rest == ps[..k] + ps[k + 1..] && r.outcome.pass == ps[k];
    DeleteFreesSeat(ps, k);
  }

  /** With one pass per (flight, seat), deleting a pass leaves its seat unheld on its flight. */
  lemma DeleteFreesSeat(ps: seq<BoardingPass>, k: nat)
    requires SeatsUnique(ps) && k < |ps|
    ensures !SeatHeld(ps[..k] + ps[k + 1..], ps[k].flightId, ps[k].seatNumber)
  {
    var rest := ps[..k] + ps[k + 1..];
    forall bp | bp in rest && bp.flightId == ps[k].flightId
      ensures bp.seatNumber != ps[k].seatNumber
    {
      var i :| 0 <= i < |rest| && rest[i] == bp;
      DeletedAt(ps, k, i);
      var j := if i < k then i else i + 1;
      assert ps[j] == bp && j != k;
    }
  }

  /**
   * Checking a passenger in and then cancelling the pass just issued gives back
   * the boarding pass table and the free seats of every flight.
   */
  lemma CheckInThenCancel(db: Db, flightId: nat, agent: nat, form: CheckInForm, suffix: nat, flight: Flight)
    requires 1000 <= suffix <= 9999
    requires PassKeys(db.passes, db.nextPassId)
    requires CheckInStep(db, flightId, agent, true, form, suffix).outcome.Registered?
    ensures var r := CheckInStep(db, flightId, agent, true, form, suffix);
      var c := CancelStep(r.db, r.outcome.pass.id, true);
      && c.outcome == Removed(r.outcome.pass)
      && c.db.passes == db.passes
      && FlightSeats(c.db, flight) == FlightSeats(db, flight)
  {
    var r := CheckInStep(db, flightId, agent, true, form, suffix);
    var bp := r.outcome.pass;
    var k := |db.passes|;
    LastPassFound(db.passes, bp);
    var c := CancelStep(r.db, bp.id, true);
    assert c.db.passes == r.db.passes[..k] + r.db.passes[k + 1..];
    assert r.db.passes[..k] == db.passes;
    assert c.db.passes == db.passes;
  }

  /** The pass just appended with the next key is the one its key finds. */
  lemma LastPassFound(ps: seq<BoardingPass>, bp: BoardingPass)
    requires forall i :: 0 <= i < |ps| ==> ps[i].id < bp.id
    ensures FindPassIndex(ps + [bp], bp.id) == Some(|ps|)
  {
    var qs := ps + [bp];
    assert qs[|ps|].id == bp.id;
    assert forall j :: 0 <= j < |ps| ==> qs[j].id != bp.id by {
      forall j | 0 <= j < |ps| ensures qs[j].id != bp.id {
        assert qs[j] == ps[j];
      }
    }
  }

  // ------------------------------------------------------------- runs

  /** A request to one of the two state-changing views. */
  datatype Request =
    | CheckInRequest(flightId: nat, agent: nat, isPost: bool, form: CheckInForm, suffix: nat)
    | CancelRequest(passId: nat, isPost: bool)

  predicate WellFormed(req: Request)
  {
    req.CheckInRequest? ==> 1000 <= req.suffix <= 9999
  }

  function Apply(db: Db, req: Request): Db
    requires WellFormed(req)
  {
    match req
    case CheckInRequest(flightId, agent, isPost, form, suffix) => CheckInStep(db, flightId, agent, isPost, form, suffix).db
    case CancelRequest(passId, isPost) => CancelStep(db, passId, isPost).db
  }

  /** The tables after serving the requests one after another. */
  function Run(db: Db, reqs: seq<Request>): Db
    requires forall i :: 0 <= i < |reqs| ==> WellFormed(reqs[i])
    decreases |reqs|
  {
    if reqs == [] then db else Run(Apply(db, reqs[0]), reqs[1..])
  }

  /**
   * Requests served one after another never give two boarding passes the same
   * (flight, seat), nor break any other table constraint.
   */
  lemma {:induction false} RunKeepsConsistent(db: Db, reqs: seq<Request>)
    requires forall i :: 0 <= i < |reqs| ==> WellFormed(reqs[i])
    requires Consistent(db)
    ensures Consistent(Run(db, reqs))
    ensures SeatsUnique(Run(db, reqs).passes)
    decreases |reqs|
  {
    if reqs != [] {
      match reqs[0] {
        case CheckInRequest(flightId, agent, isPost, form, suffix) =>
          CheckInKeepsConsistent(db, flightId, agent, isPost, form, suffix);
        case CancelRequest(passId, isPost) =>
          CancelKeepsConsistent(db, passId, isPost);
      }
      RunKeepsConsistent(Apply(db, reqs[0]), reqs[1..]);
    }
  }

  // ------------------------------------------------------------ the store

  /** The database, updated in place by the two POST handlers. */
  class Store {
    var flights: seq<Flight>
    var passengers: seq<Passenger>
    var passes: seq<BoardingPass>
    var nextPassengerId: nat
    var nextPassId: nat

    function Snapshot(): Db
      reads this
    {
      Db(flights, passengers, passes, nextPassengerId, nextPassId)
    }

    ghost predicate Valid()
      reads this
    {
      Consistent(Snapshot())
    }

    /** A database holding the given flights and no passenger or boarding pass. */
    constructor (flights: seq<Flight>)
      requires FlightIdsDistinct(flights)
      ensures Valid()
      ensures Snapshot() == Db(flights, [], [], 0, 0)
    {
      this.flights := flights;
      passengers := [];
      passes := [];
      nextPassengerId := 0;
      nextPassId := 0;
    }

    /** `BoardingPass.objects.create(...)`; the unique pass number may reject it. */
    method CreatePass(flight: Flight, passengerId: nat, seat: string, agent: nat, suffix: nat)
      returns (outcome: CheckInOutcome)
      modifies this
      ensures var s := Issue(old(Snapshot()), flight, passengerId, seat, agent, suffix);
        Snapshot() == s.db && outcome == s.outcome
    {
      var number := PassNumber(flight.number, suffix);
      if NumberInUse(passes, number) {
        return NumberCollision(number);
      }
      var bp := BoardingPass(nextPassId, passengerId, flight.id, number, seat, flight.gate, None, agent, DefaultPassStatus);
      passes := passes + [bp];
      nextPassId := nextPassId + 1;
      outcome := Registered(bp);
    }

    /** The POST handling of `flight_checkin` (a GET only shows the page). */
    method CheckIn(flightId: nat, agent: nat, isPost: bool, form: CheckInForm, suffix: nat)
      returns (outcome: CheckInOutcome)
      requires 1000 <= suffix <= 9999
      modifies this
      ensures old(Valid()) ==> Valid()
      ensures var s := CheckInStep(old(Snapshot()), flightId, agent, isPost, form, suffix);
        Snapshot() == s.db && outcome == s.outcome
    {
      ghost var db := Snapshot();
      if Valid() {
        CheckInKeepsConsistent(db, flightId, agent, isPost, form, suffix);
      }
      var found := FindFlight(flights, flightId);
      if found.None? {
        assert CheckInStep(db, flightId, agent, isPost, form, suffix) == Step(db, FlightNotFound);
        return FlightNotFound;
      }
      var flight := found.value;
      if !isPost {
        assert CheckInStep(db, flightId, agent, isPost, form, suffix) == Step(db, PageShown);
        return PageShown;
      }
      if ExistingRequested(form) {
        var passenger := FindPassenger(passengers, form.passengerId.value);
        if passenger.None? {
          assert CheckInStep(db, flightId, agent, isPost, form, suffix) == Step(db, PassengerNotFound);
          return PassengerNotFound;
        }
        if SeatHeld(passes, flightId, form.seatNumber) {
          assert CheckInStep(db, flightId, agent, isPost, form, suffix) == Step(db, SeatTaken(form.seatNumber));
          return SeatTaken(form.seatNumber);
        }
        assert CheckInStep(db, flightId, agent, isPost, form, suffix)
          == Issue(db, flight, passenger.value.id, form.seatNumber, agent, suffix);
        outcome := CreatePass(flight, passenger.value.id, form.seatNumber, agent, suffix);
      } else if NewRequested(form) {
        if SeatHeld(passes, flightId, form.newSeatNumber) {
          assert CheckInStep(db, flightId, agent, isPost, form, suffix) == Step(db, SeatTaken(form.newSeatNumber));
          return SeatTaken(form.newSeatNumber);
        }
        var p := Passenger(nextPassengerId, flight.id, form.newFirstName, form.newLastName,
                           form.newPassport, form.newSeatNumber);
        passengers := passengers + [p];
        nextPassengerId := nextPassengerId + 1;
        assert p == NewPassenger(db, flight, form);
        assert CheckInStep(db, flightId, agent, isPost, form, suffix)
          == Issue(Snapshot(), flight, p.id, form.newSeatNumber, agent, suffix);
        outcome := CreatePass(flight, p.id, form.newSeatNumber, agent, suffix);
      } else {
        assert CheckInStep(db, flightId, agent, isPost, form, suffix) == Step(db, NothingSubmitted);
        outcome := NothingSubmitted;
      }
    }

    /** `cancel_registration`: a POST deletes the boarding pass. */
    method CancelRegistration(passId: nat, isPost: bool) returns (outcome: CancelOutcome)
      modifies this
      ensures old(Valid()) ==> Valid()
      ensures var c := CancelStep(old(Snapshot()), passId, isPost);
        Snapshot() == c.db && outcome == c.outcome
    {
      ghost var db := Snapshot();
      if Valid() {
        CancelKeepsConsistent(db, passId, isPost);
      }
      var k := FindPassIndex(passes, passId);
      if k.None? {
        assert CancelStep(db, passId, isPost) == CancelResult(db, PassNotFound);
        return PassNotFound;
      }
      var bp := passes[k.value];
      if isPost {
        assert CancelStep(db, passId, isPost)
          == CancelResult(db.(passes := passes[..k.value] + passes[k.value + 1..]), Removed(bp));
        passes := passes[..k.value] + passes[k.value + 1..];
        outcome := Removed(bp);
      } else {
        assert CancelStep(db, passId, isPost) == CancelResult(db, Kept(bp));
        outcome := Kept(bp);
      }
    }
  }
}
