/**
 * The records of the flights application (flights/models.py): flights, passengers,
 * check-in agents and boarding passes, their choice values, defaults and the
 * strings their `__str__` methods build. Row identities are the `id` fields.
 */
module Models {
  import opened Wrappers

  // ---------------------------------------------------------------- Flight

  datatype FlightStatus = Scheduled | Boarding | Departed | Landed | Cancelled

  /** The value stored in the `status` column for each choice. */
  function FlightStatusCode(s: FlightStatus): string
  {
    match s
    case Scheduled => "scheduled"
    case Boarding => "boarding"
    case Departed => "departed"
    case Landed => "landed"
    case Cancelled => "cancelled"
  }

  /** The choice a stored `status` value stands for, if it is one of the five. */
  function ParseFlightStatus(code: string): (r: Option<FlightStatus>)
    ensures r.Some? ==> FlightStatusCode(r.value) == code
    ensures (exists s :: FlightStatusCode(s) == code) ==> r.Some?
  {
    if code == "scheduled" then Some(Scheduled)
    else if code == "boarding" then Some(Boarding)
    else if code == "departed" then Some(Departed)
    else if code == "landed" then Some(Landed)
    else if code == "cancelled" then Some(Cancelled)
    else None
  }

  const FlightNumberMaxLength: nat := 10
  const DefaultGate: string := "A1"
  const DefaultFlightStatus: FlightStatus := Scheduled
  const DefaultCapacity: int := 180

  /**
   * A flight row. The cities are nullable columns; departure and arrival times
   * are not part of this model. `capacity` is an unconstrained integer column.
   */
  datatype Flight = Flight(
    id: nat,
    number: string,
    departureCity: Option<string>,
    destinationCity: Option<string>,
    gate: string,
    status: FlightStatus,
    capacity: int)

  /** A flight created with only the required fields: every default applies. */
  function NewFlight(id: nat, number: string, departureCity: Option<string>,
                     destinationCity: Option<string>): Flight
  {
    Flight(id, number, departureCity, destinationCity, DefaultGate, DefaultFlightStatus, DefaultCapacity)
  }

  /** Python's f-string rendering of a nullable text column. */
  function CityText(city: Option<string>): string
  {
    match city
    case None => "None"
    case Some(c) => c
  }

  /** `Flight.__str__`: "<number>: <departure> → <destination>". */
  function FlightLabel(f: Flight): (r: string)
    ensures |r| == |f.number| + 5 + |CityText(f.departureCity)| + |CityText(f.destinationCity)|
    ensures r[..|f.number|] == f.number && r[|f.number|..|f.number| + 2] == ": "
    ensures var d := |f.number| + 2 + |CityText(f.departureCity)|;
      && r[|f.number| + 2..d] == CityText(f.departureCity)
      && r[d..d + 3] == " → "
      && r[d + 3..] == CityText(f.destinationCity)
    ensures f.departureCity.None? ==> f.number + ": None → " <= r
  {
    f.number + ": " + CityText(f.departureCity) + " → " + CityText(f.destinationCity)
  }

  // ------------------------------------------------------------- Passenger

  /** A passenger row; `seatNumber` is the seat typed at creation, never updated. */
  datatype Passenger = Passenger(
    id: nat,
    flightId: nat,
    firstName: string,
    lastName: string,
    passportNumber: string,
    seatNumber: string)

  /** `Passenger.__str__` and `Passenger.get_full_name`: both give "<first> <last>". */
  function FullName(p: Passenger): (r: string)
    ensures |r| == |p.firstName| + 1 + |p.lastName|
    ensures r[..|p.firstName|] == p.firstName && r[|p.firstName|] == ' '
    ensures r[|p.firstName| + 1..] == p.lastName
  {
    p.firstName + " " + p.lastName
  }

  /** Index of the first space in `s`, if any. */
  function FirstSpace(s: string): (r: Option<nat>)
    ensures r.Some? ==> r.value < |s| && s[r.value] == ' ' && ' ' !in s[..r.value]
    ensures r.None? ==> ' ' !in s
  {
    if s == [] then None
    else if s[0] == ' ' then Some(0)
    else match FirstSpace(s[1..])
      case None => None
      case Some(i) => Some(i + 1)
  }

  /** Splits a display name at its first space. */
  function SplitName(s: string): (string, string)
  {
    match FirstSpace(s)
    case None => (s, "")
    case Some(i) => (s[..i], s[i + 1..])
  }

  /**
   * The display name keeps both name parts recoverable whenever the first name
   * has no space of its own.
   */
  lemma FullNameSplits(p: Passenger)
    requires ' ' !in p.firstName
    ensures SplitName(FullName(p)) == (p.firstName, p.lastName)
  {
    var s := FullName(p);
    var i := |p.firstName|;
    assert s[..i] == p.firstName;
    assert FirstSpace(s) == Some(i);
  }

  // ---------------------------------------------------------- CheckInAgent

  /** A check-in agent row; `userName` is the linked account's user name. */
  datatype CheckInAgent = CheckInAgent(
    id: nat,
    userName: string,
    agentId: string,
    workstation: string,
    isActive: bool)

  const DefaultAgentActive: bool := true

  /** `CheckInAgent.__str__`: "Агент <user name> (<workstation>)". */
  function AgentLabel(a: CheckInAgent): (r: string)
    ensures |r| == 6 + |a.userName| + 2 + |a.workstation| + 1
    ensures r[..6 + |a.userName|] == "Агент " + a.userName
    ensures r[6 + |a.userName|..|r| - 1] == " (" + a.workstation
    ensures r[|r| - 1] == ')'
  {
    "Агент " + a.userName + " (" + a.workstation + ")"
  }

  // --------------------------------------------------------- BoardingPass

  datatype PassStatus = CheckedIn | Boarded | PassCancelled

  /** The value stored in the boarding pass `status` column for each choice. */
  function PassStatusCode(s: PassStatus): string
  {
    match s
    case CheckedIn => "checked_in"
    case Boarded => "boarded"
    case PassCancelled => "cancelled"
  }

  /** The choice a stored boarding-pass `status` value stands for, if any. */
  function ParsePassStatus(code: string): (r: Option<PassStatus>)
    ensures r.Some? ==> PassStatusCode(r.value) == code
    ensures (exists s :: PassStatusCode(s) == code) ==> r.Some?
  {
    if code == "checked_in" then Some(CheckedIn)
    else if code == "boarded" then Some(Boarded)
    else if code == "cancelled" then Some(PassCancelled)
    else None
  }

  const DefaultPassStatus: PassStatus := CheckedIn
  const PassNumberMaxLength: nat := 15

  /**
   * A boarding pass row. `number` is the unique `boarding_pass_number`;
   * `agentId` is the issuing agent's row id. The check-in time is not modelled.
   */
  datatype BoardingPass = BoardingPass(
    id: nat,
    passengerId: nat,
    flightId: nat,
    number: string,
    seatNumber: string,
    gate: string,
    boardingTime: Option<int>,
    agentId: nat,
    status: PassStatus)

  /** `BoardingPass.__str__`: "<number> - <passenger's full name>". */
  function BoardingPassLabel(bp: BoardingPass, p: Passenger): (r: string)
    ensures bp.number + " - " <= r
    ensures |r| == |bp.number| + 3 + |FullName(p)| && r[|bp.number| + 3..] == FullName(p)
  {
    bp.number + " - " + FullName(p)
  }
}
