/** The records a route element of the taxi network is made of: its
    connections to other elements, the breakpoints those connections leave
    on it, the directed segments it is sliced into, its hold points, the
    aircraft currently on it, and (for runways and gates) their extra data.
    Elements refer to each other and to aircraft by index into the airport's
    arenas, which stand for the object references of the simulator. */
module RouteBase {
  import opened Wrappers
  import Utils

  /** Index of a route element in the airport's arena. */
  type RouteId = nat
  /** Index of an aircraft in the simulation's fleet. */
  type AircraftId = nat

  datatype RouteType = Runway | Taxiway | Arcway | Gate

  /** NotSet is the "no hold ahead" value every aircraft starts with. */
  datatype HoldPointType = NotSet | TakeOff | Traffic | LineUp

  /** A place where taxiing aircraft may have to stop; `direction` is the
      direction of travel on the element the hold applies to. */
  datatype HoldPoint = HoldPoint(
    route: Option<RouteId>,
    distanceOnRoute: real,
    holdType: HoldPointType,
    direction: bool,
    holdForTakeOffRunway: string)

  /** The value-initialised hold point returned when a lookup finds nothing. */
  const EmptyHoldPoint := HoldPoint(None, 0.0, NotSet, false, "")

  /** How to leave this element for a neighbour: the direction on this
      element that may enter it, where to break out here, where to break in
      there, and the direction of travel there. */
  datatype ConnectionInfo = ConnectionInfo(
    directionAllowedToEnterNextRoute: bool,
    distanceToBreakOut: real,
    nextPiece: Option<RouteId>,
    distanceToBreakIn: real,
    positiveEnteringNextPiece: bool)

  /** The value-initialised connection record: no next piece, distances 0,
      both flags false. */
  const ZeroConnection := ConnectionInfo(false, 0.0, None, 0.0, false)

  datatype BreakpointType = In | Out

  /** A point on an element where traffic leaves for (Out) or arrives from
      (In) the element `peer`. */
  datatype BreakpointInfo = BreakpointInfo(
    bpType: BreakpointType,
    peer: RouteId,
    distanceOnCurrentRoute: real)

  /** A directed slice of an element between two consecutive breakpoints.
      A positive segment runs from the smaller distance to the larger one, a
      negative segment the other way round. */
  datatype SegmentInfo = SegmentInfo(
    route: RouteId,
    name: string,
    length: real,
    direction: bool,
    startDistance: real,
    endDistance: real,
    inSegment: seq<string>,
    outSegment: seq<string>)

  /** One landing/take-off direction of a runway. */
  datatype RunwayInfo = RunwayInfo(
    route: RouteId,
    direction: bool,
    callingName: string,
    internalName: string,
    airportLetter: string,
    degree: real,
    runwayNumber: int,
    touchDownDistanceRange: seq<real>)

  /** What a gate holds besides the common element data. */
  datatype GateInfo = GateInfo(
    size: int,
    pushBackRoute: map<string, RouteId>,
    taxiToRunwayRoute: map<string, seq<string>>,
    assignedAircraft: seq<AircraftId>)

  /** 0: both ways, 1: only the positive direction, -1: only the negative one. */
  type OneWayIndicator = i: int | -1 <= i <= 1

  /** A route element: runway, straight taxiway, arc or gate. */
  datatype Route = Route(
    name: string,
    routeType: RouteType,
    length: real,
    width: real,
    taxiSpeedLimit: real,
    connections: map<string, ConnectionInfo>,
    holdsPositive: seq<HoldPoint>,
    holdsNegative: seq<HoldPoint>,
    aircraftOnRoute: seq<AircraftId>,
    oneWayIndicator: OneWayIndicator,
    breakpoints: seq<BreakpointInfo>,
    segments: seq<SegmentInfo>,
    runwayInfo: seq<RunwayInfo>,
    gate: Option<GateInfo>)

  /** A freshly built element: no connections, breakpoints, segments, hold
      points or aircraft, and open to both directions. */
  function NewRoute(name: string, routeType: RouteType, length: real, width: real,
                    taxiSpeedLimit: real): (r: Route)
    ensures r.name == name && r.routeType == routeType && r.length == length
    ensures r.taxiSpeedLimit == taxiSpeedLimit
    ensures forall d: bool :: AllowTravelInDirection(r, d)
    ensures r.connections == map[] && r.breakpoints == [] && r.segments == []
    ensures r.aircraftOnRoute == [] && r.holdsPositive == [] && r.holdsNegative == []
  {
    Route(name, routeType, length, width, taxiSpeedLimit, map[], [], [], [], 0, [], [], [],
          None)
  }

  /** Whether the element may be travelled in `direction`. */
  function AllowTravelInDirection(r: Route, direction: bool): bool
  {
    if r.oneWayIndicator == 0 then true
    else if r.oneWayIndicator == -1 then !direction
    else direction
  }

  /** Every element can be travelled at least one way, and a one-way
      element exactly one way. */
  lemma AllowTravelSomeDirection(r: Route)
    ensures AllowTravelInDirection(r, true) || AllowTravelInDirection(r, false)
    ensures r.oneWayIndicator != 0 ==>
              AllowTravelInDirection(r, true) != AllowTravelInDirection(r, false)
    ensures r.oneWayIndicator == 0 <==>
              AllowTravelInDirection(r, true) && AllowTravelInDirection(r, false)
  {
  }

  /** The element made one-way in `direction`. */
  function SetOneWayDirection(r: Route, direction: bool): (r': Route)
    ensures forall d: bool :: AllowTravelInDirection(r', d) <==> d == direction
    ensures r' == r.(oneWayIndicator := r'.oneWayIndicator)
  {
    r.(oneWayIndicator := if direction then 1 else -1)
  }

  /** `connections_[name]`: the record under `name`; when there is none, a
      zero record is returned and inserted under `name`. */
  function GetConnectionInfo(connections: map<string, ConnectionInfo>, name: string)
    : (res: (ConnectionInfo, map<string, ConnectionInfo>))
    ensures name in res.1 && res.1[name] == res.0
    ensures res.1.Keys == connections.Keys + {name}
    ensures forall k :: k in connections ==> res.1[k] == connections[k]
    ensures name !in connections ==> res.0 == ZeroConnection
  {
    if name in connections then (connections[name], connections)
    else (ZeroConnection, connections[name := ZeroConnection])
  }

  /** Hold points kept for travel in `direction`. */
  function GetHoldPoints(r: Route, direction: bool): seq<HoldPoint>
  {
    if direction then r.holdsPositive else r.holdsNegative
  }

  /** Next pieces of the connections that break out at `distance`, in no
      particular order. */
  function GetConnectedRouteBreakOutAt(r: Route, distance: real): (res: set<Option<RouteId>>)
    ensures forall p :: p in res <==>
              exists k :: k in r.connections && r.connections[k].distanceToBreakOut == distance
                          && r.connections[k].nextPiece == p
  {
    set k | k in r.connections && r.connections[k].distanceToBreakOut == distance
      :: r.connections[k].nextPiece
  }

  /** The aircraft on an element, each at most once. */
  predicate NoDuplicates<T(==)>(s: seq<T>)
  {
    forall i, j :: 0 <= i < j < |s| ==> s[i] != s[j]
  }

  /** `aircraft_on_route_.insert`: a set insertion. */
  function InsertAircraft(r: Route, a: AircraftId): (r': Route)
    ensures a in r'.aircraftOnRoute
    ensures forall b :: b in r'.aircraftOnRoute <==> b == a || b in r.aircraftOnRoute
    ensures NoDuplicates(r.aircraftOnRoute) ==> NoDuplicates(r'.aircraftOnRoute)
    ensures r' == r.(aircraftOnRoute := r'.aircraftOnRoute)
  {
    if a in r.aircraftOnRoute then r else r.(aircraftOnRoute := r.aircraftOnRoute + [a])
  }

  /** Occupancy without `a`. */
  function Remove(s: seq<AircraftId>, a: AircraftId): (res: seq<AircraftId>)
    ensures forall b :: b in res <==> b != a && b in s
    ensures NoDuplicates(s) ==> NoDuplicates(res)
  {
    if s == [] then []
    else if s[0] == a then Remove(s[1..], a)
    else
      var rest := Remove(s[1..], a);
      assert NoDuplicates(s) ==> s[0] !in s[1..];
      [s[0]] + rest
  }

  /** `aircraft_on_route_.erase` when present. */
  function ClearAircraft(r: Route, a: AircraftId): (r': Route)
    ensures a !in r'.aircraftOnRoute
    ensures forall b :: b in r'.aircraftOnRoute <==> b != a && b in r.aircraftOnRoute
    ensures NoDuplicates(r.aircraftOnRoute) ==> NoDuplicates(r'.aircraftOnRoute)
    ensures r' == r.(aircraftOnRoute := r'.aircraftOnRoute)
  {
    if a in r.aircraftOnRoute then r.(aircraftOnRoute := Remove(r.aircraftOnRoute, a)) else r
  }

  // ---------------------------------------------------------------------
  // Runway numbering
  // ---------------------------------------------------------------------

  /** C++ `%` on int: the remainder takes the sign of the dividend. */
  function CRem(a: int, b: int): int
    requires b > 0
  {
    if a >= 0 then a % b else -((-a) % b)
  }

  /** C++ `/` on int: the quotient is truncated toward zero. */
  function CQuot(a: int, b: int): int
    requires b > 0
  {
    if a >= 0 then a / b else -((-a) / b)
  }

  /** The runway number of the positive direction of a runway whose
      centre line starts with world heading `startDirection` (degrees,
      counter-clockwise from east): the truncated heading is turned into a
      compass bearing folded into [0, 180) and divided by ten. */
  function RunwayNumber(startDirection: real): (n: int)
    ensures 0 <= n <= 17
  {
    var degree := CRem(Utils.Trunc(startDirection), 360);
    var degree := if degree < 0 then degree + 360 else degree;
    var degree := 360 - (degree - 90);
    var degree := CRem(degree, 180);
    CQuot(degree, 10)
  }

  /** The letter the opposite direction of a runway carries. */
  function OppositeLetter(letter: string): string
  {
    if letter == "L" then "R" else if letter == "C" then "C" else "L"
  }

  /** The two directions of a runway: the positive one with number n and
      the given letter, the negative one with number n + 18 and the
      opposite letter; touch-down distances are mirrored for the negative
      direction. */
  function RunwayInfos(id: RouteId, name: string, startDirection: real, length: real,
                       letter: string, touchDown: seq<real>): (infos: seq<RunwayInfo>)
    requires |touchDown| == 3
    ensures |infos| == 2
    ensures infos[0].direction && !infos[1].direction
    ensures infos[1].runwayNumber == infos[0].runwayNumber + 18
    ensures 0 <= infos[0].runwayNumber <= 17
    ensures |infos[0].touchDownDistanceRange| == |infos[1].touchDownDistanceRange| == 3
    ensures infos[0].internalName == "+" + name && infos[1].internalName == "-" + name
    ensures forall k :: 0 <= k < 3 ==>
              infos[0].touchDownDistanceRange[k] + infos[1].touchDownDistanceRange[k] == length
  {
    var n := RunwayNumber(startDirection);
    var opposite := OppositeLetter(letter);
    [ RunwayInfo(id, true, Utils.IntToString(n) + letter, "+" + name, letter, startDirection, n,
                 touchDown),
      RunwayInfo(id, false, Utils.IntToString(n + 18) + opposite, "-" + name, opposite,
                 startDirection + 180.0, n + 18,
                 [length - touchDown[0], length - touchDown[1], length - touchDown[2]]) ]
  }

  /** The runway laid out with heading -30 degrees is runway 12/30, the
      names the airport gives its two directions. */
  lemma RunwayR1Numbers()
    ensures RunwayNumber(-30.0) == 12
    ensures var infos := RunwayInfos(0, "R1", -30.0, 2700.0, "R", [1.0, 2.0, 3.0]);
            infos[0].callingName == "12R" && infos[1].callingName == "30L"
  {
    assert Utils.Trunc(-30.0) == -30;
    assert Utils.NatToString(12) == Utils.NatToString(1) + ['2'];
    assert Utils.NatToString(30) == Utils.NatToString(3) + ['0'];
  }
}
