/** The ground states of an aircraft: what each state does when it is
    entered, on every update of the simulation and when it is left. Every
    `Entry` and `Update` returns the name of the state to be in next.

    Each of them also returns `defined`: false where the simulator would
    dereference a missing element, read a list past its end, throw, or
    search an itinerary it cannot reconstruct. Nothing is promised about
    what happens after that. Banner texts, panel requests and sprites are
    left out. Other aircraft are an input: the distance and speed of every
    aircraft the scan of the way ahead may meet. */
module States {
  import opened Wrappers
  import opened RouteBase
  import opened Utils
  import opened Segments
  import opened SegmentQueries
  import opened Topology
  import opened Pathfinder
  import Motion
  import Gates
  import opened Airports
  import opened Aircrafts

  /** Speed set on touch-down: 160 knots. */
  const TouchDownSpeed: real := KnotsToMetersPerSecond(160.0)
  /** Speed at which the aircraft lifts off: 170 knots. */
  const TakeOffSpeed: real := KnotsToMetersPerSecond(170.0)
  /** Seconds between the gate request and the touch-down. */
  const BeforeLandingInterval: real := 120.0
  /** `INT_MAX`, the start value of the gate count loop of TouchDown. */
  const IntMax: int := 0x7fff_ffff

  /** The airport is consistent and built, and the aircraft refers to
      elements of its arena. */
  ghost predicate World(aircraft: Aircraft, airport: Airport)
    reads aircraft`route, aircraft`gate, airport`routes, airport`routeIds, airport`runways,
          airport`taxiways, airport`arcways, airport`gates, airport`segments, airport`matrix,
          airport`idToName
  {
    airport.Valid() && airport.Built() && aircraft.Within(|airport.routes|)
  }

  // ---------------------------------------------------------------------
  // Steps shared by several states
  // ---------------------------------------------------------------------

  /** `speed'` lies between `speed` and `target`. */
  predicate Toward(speed: real, target: real, speed': real)
  {
    (speed <= target ==> speed <= speed' <= target)
    && (target <= speed ==> target <= speed' <= speed)
  }

  /** One step at constant acceleration `a`: the acceleration is stored,
      the speed changes by `a * dt`, and the distance covered is returned. */
  method Accelerate(aircraft: Aircraft, a: real, dt: real) returns (dist: real)
    modifies aircraft`acceleration, aircraft`speed
    ensures aircraft.acceleration == a && aircraft.speed == old(aircraft.speed) + a * dt
    ensures dist == Travelled(old(aircraft.speed), a, dt)
  {
    aircraft.acceleration := a;
    var dv := a * dt;
    dist := (aircraft.speed + dv / 2.0) * dt;
    aircraft.speed := aircraft.speed + dv;
  }

  /** `ComputePosition` on the element the aircraft is on, storing the new
      element, distance, direction and itinerary in the aircraft; the
      aircraft must be on an element and every leg must find its next
      piece. */
  method Move(aircraft: Aircraft, airport: Airport, delta: real) returns (defined: bool)
    requires airport.Valid() && aircraft.Within(|airport.routes|)
    modifies airport`routes, aircraft`route, aircraft`distanceOnRoute, aircraft`directionOnRoute,
             aircraft`taxiRoutes
    ensures airport.Valid() && aircraft.Within(|airport.routes|)
    ensures |airport.routes| == old(|airport.routes|)
    ensures defined <==> old(aircraft.route).Some?
                         && Motion.Advance(old(airport.routes), aircraft.id, old(aircraft.Pos()),
                                           delta).Some?
    ensures defined ==> aircraft.route.Some?
                        && Motion.Advance(old(airport.routes), aircraft.id, old(aircraft.Pos()),
                                          delta)
                           == Some(Motion.Moved(airport.routes, aircraft.Pos()))
  {
    if aircraft.route.None? {
      return false;
    }
    var pos0 := aircraft.Pos();
    var m := Motion.Advance(airport.routes, aircraft.id, pos0, delta);
    if m.None? {
      return false;
    }
    var pos := airport.ComputePosition(aircraft.id, pos0, delta);
    SetPosition(aircraft, pos);
    defined := true;
  }

  /** Stores a position in the aircraft. */
  method SetPosition(aircraft: Aircraft, pos: Motion.Position)
    modifies aircraft`route, aircraft`distanceOnRoute, aircraft`directionOnRoute,
             aircraft`taxiRoutes
    ensures aircraft.route == Some(pos.current) && aircraft.Pos() == pos
  {
    aircraft.route, aircraft.distanceOnRoute := Some(pos.current), pos.dist;
    aircraft.directionOnRoute, aircraft.taxiRoutes := pos.direction, pos.taxiRoutes;
  }

  /** `GetDistanceToNextHold` from where the aircraft is, storing the
      distance to the next hold and its type. */
  method Rescan(aircraft: Aircraft, airport: Airport) returns (defined: bool)
    requires airport.Valid() && aircraft.route.Some? && aircraft.route.value < |airport.routes|
    modifies airport`routes, aircraft`distanceToNextHold, aircraft`nextHoldType
    ensures airport.Valid() && Motion.ConnectionsGrow(old(airport.routes), airport.routes)
    ensures var h := Motion.GetDistanceToNextHold(old(airport.routes), aircraft.route.value,
                                                  aircraft.taxiRoutes, aircraft.distanceOnRoute,
                                                  aircraft.directionOnRoute,
                                                  old(aircraft.nextHoldType));
            (defined <==> h.Some?)
            && (defined ==> h.value == Motion.HoldScan(airport.routes, aircraft.distanceToNextHold,
                                                       aircraft.nextHoldType))
  {
    if Motion.GetDistanceToNextHold(airport.routes, aircraft.route.value, aircraft.taxiRoutes,
                                    aircraft.distanceOnRoute, aircraft.directionOnRoute,
                                    aircraft.nextHoldType).None? {
      assert Motion.ConnectionsGrow(airport.routes, airport.routes);
      return false;
    }
    Motion.HoldFromGrows(airport.routes, aircraft.taxiRoutes, 0, aircraft.route.value,
                         aircraft.directionOnRoute, aircraft.distanceOnRoute, 0.0,
                         aircraft.nextHoldType);
    var d, t := airport.GetDistanceToNextHold(aircraft.route.value, aircraft.taxiRoutes,
                                              aircraft.distanceOnRoute, aircraft.directionOnRoute,
                                              aircraft.nextHoldType);
    aircraft.distanceToNextHold, aircraft.nextHoldType := d, t;
    defined := true;
  }

  /** `Rescan` once the aircraft is at or past its next hold. */
  method Reached(aircraft: Aircraft, airport: Airport) returns (defined: bool)
    requires airport.Valid() && aircraft.route.Some? && aircraft.route.value < |airport.routes|
    modifies airport`routes, aircraft`distanceToNextHold, aircraft`nextHoldType
    ensures airport.Valid() && Motion.ConnectionsGrow(old(airport.routes), airport.routes)
    ensures old(aircraft.distanceToNextHold) > 0.0 ==>
              defined && aircraft.distanceToNextHold == old(aircraft.distanceToNextHold)
              && aircraft.nextHoldType == old(aircraft.nextHoldType)
    ensures var h := Motion.GetDistanceToNextHold(old(airport.routes), aircraft.route.value,
                                                  aircraft.taxiRoutes, aircraft.distanceOnRoute,
                                                  aircraft.directionOnRoute,
                                                  old(aircraft.nextHoldType));
            old(aircraft.distanceToNextHold) <= 0.0 ==>
              (defined <==> h.Some?)
              && (defined ==> h.value == Motion.HoldScan(airport.routes, aircraft.distanceToNextHold,
                                                         aircraft.nextHoldType))
  {
    if aircraft.distanceToNextHold <= 0.0 {
      defined := Rescan(aircraft, airport);
    } else {
      defined := true;
      assert Motion.ConnectionsGrow(airport.routes, airport.routes);
    }
  }

  /** The id `GetRoute` looks up for a position: that of the name of the
      segment there (0 for a name without an id). */
  function SegmentIdAt(routes: seq<Route>, nameToId: map<string, nat>, r: RouteId,
                       direction: bool, dist: real): nat
    requires r < |routes|
  {
    IdOf(nameToId, GetSegmentName(routes[r].segments, direction, dist))
  }

  /** `GetRoute` from the start position to the end position can rebuild
      an itinerary: the end element exists, both segment ids are numbered,
      they differ, and the end is reachable. */
  ghost predicate Searchable(routes: seq<Route>, nameToId: map<string, nat>,
                             matrix: seq<seq<Weight>>, start: RouteId, startDirection: bool,
                             startDist: real, end: Option<RouteId>, endDirection: bool,
                             endDist: real)
    requires start < |routes|
  {
    end.Some? && end.value < |routes|
    && var id1 := SegmentIdAt(routes, nameToId, start, startDirection, startDist);
       var id2 := SegmentIdAt(routes, nameToId, end.value, endDirection, endDist);
       id1 < |matrix| && id2 < |matrix| && id1 != id2 && Reachable(matrix, id1, id2)
  }

  /** `Airport::GetRoute` toward a possibly missing end element: the
      itinerary between the two positions when it can be rebuilt. */
  method RouteTo(airport: Airport, start: RouteId, startDirection: bool, startDist: real,
                 end: Option<RouteId>, endDirection: bool, endDist: real)
    returns (taxi: seq<string>, defined: bool)
    requires airport.Valid() && airport.Built() && start < |airport.routes|
    modifies airport`nameToId
    ensures defined <==> Searchable(airport.routes, old(airport.nameToId), airport.matrix, start,
                                    startDirection, startDist, end, endDirection, endDist)
    ensures defined ==>
              Joins(airport.routes, airport.segments, airport.idToName,
                    SegmentIdAt(airport.routes, old(airport.nameToId), start, startDirection,
                                startDist),
                    SegmentIdAt(airport.routes, old(airport.nameToId), end.value, endDirection,
                                endDist),
                    taxi)
  {
    if end.None? || end.value >= |airport.routes| {
      return [], false;
    }
    var id1 := SegmentIdAt(airport.routes, airport.nameToId, start, startDirection, startDist);
    var id2 := SegmentIdAt(airport.routes, airport.nameToId, end.value, endDirection, endDist);
    if id1 >= |airport.matrix| || id2 >= |airport.matrix| || id1 == id2 {
      return [], false;
    }
    var reachable := Reaches(airport.matrix, id1, id2);
    if !reachable {
      return [], false;
    }
    taxi := airport.GetRoute(start, startDirection, startDist, end.value, endDirection, endDist);
    RoutedJoins(airport.routes, airport.segments, airport.idToName, airport.matrix, id1, id2, taxi);
    defined := true;
  }

  // ---------------------------------------------------------------------
  // Initial
  // ---------------------------------------------------------------------

  /** One update of the landing countdown: the timer grows by `dt` while
      it is below the interval; once it is not, the aircraft touches
      down. */
  function CountdownStep(timer: real, dt: real): (string, real)
  {
    if timer < BeforeLandingInterval then ("Initial", timer + dt) else ("TouchDown", timer)
  }

  /** The countdown timer after `n` updates. */
  function TimerAfter(timer: real, dt: real, n: nat): real
    decreases n
  {
    if n == 0 then timer else TimerAfter(CountdownStep(timer, dt).1, dt, n - 1)
  }

  /** With a positive step, the countdown ends: once `n` steps of `dt`
      cover the interval, the update after `n` updates touches down. */
  lemma {:induction false} TouchesDownAfter(timer: real, dt: real, n: nat)
    requires dt > 0.0 && timer + n as real * dt >= BeforeLandingInterval
    ensures CountdownStep(TimerAfter(timer, dt, n), dt).0 == "TouchDown"
    decreases n
  {
    if n > 0 {
      var t := CountdownStep(timer, dt).1;
      assert t + (n - 1) as real * dt >= BeforeLandingInterval;
      TouchesDownAfter(t, dt, n - 1);
    }
  }

  class InitialState {
    var timer: real

    constructor ()
      ensures timer == 0.0
    {
      timer := 0.0;
    }

    /** The gate is requested. */
    method Entry(aircraft: Aircraft) returns (next: string)
      modifies aircraft`requestOfGateSent
      ensures aircraft.requestOfGateSent && next == "Initial"
    {
      aircraft.requestOfGateSent := true;
      next := "Initial";
    }

    /** One step of the countdown to touch-down. */
    method Update(dt: real) returns (next: string)
      modifies this`timer
      ensures (next, timer) == CountdownStep(old(timer), dt)
    {
      if timer < BeforeLandingInterval {
        timer := timer + dt;
        next := "Initial";
      } else {
        next := "TouchDown";
      }
    }
  }

  // ---------------------------------------------------------------------
  // TouchDown
  // ---------------------------------------------------------------------

  /** The lowest index of a minimal count. */
  predicate FewestAt(counts: seq<int>, i: int)
  {
    0 <= i < |counts| && (forall j :: 0 <= j < |counts| ==> counts[i] <= counts[j])
    && forall j :: 0 <= j < i ==> counts[i] < counts[j]
  }

  /** What the gate loop of TouchDown picks: the lowest index of a minimal
      count, or index 0 when no count is below `INT_MAX`. */
  predicate Picked(counts: seq<int>, i: int)
  {
    if exists j :: 0 <= j < |counts| && counts[j] < IntMax then FewestAt(counts, i) else i == 0
  }

  /** The gate loop of `TouchDownState::Entry`: a running minimum that
      starts at `INT_MAX` and moves only on a strictly smaller count. */
  method FewestAssigned(counts: seq<int>) returns (index: nat)
    ensures Picked(counts, index)
  {
    var fewest := IntMax;
    index := 0;
    var i := 0;
    while i < |counts|
      invariant 0 <= i <= |counts| && fewest <= IntMax
      invariant forall j :: 0 <= j < i ==> fewest <= counts[j]
      invariant fewest < IntMax ==> index < i && counts[index] == fewest
      invariant fewest == IntMax ==> index == 0
      invariant forall j :: 0 <= j < index ==> fewest < counts[j]
    {
      if counts[i] < fewest {
        index := i;
        fewest := counts[i];
      }
      i := i + 1;
    }
  }

  /** The number of aircraft assigned to each of the gates `gs`. */
  function GateCounts(routes: seq<Route>, gs: seq<RouteId>): (counts: seq<int>)
    requires forall k :: 0 <= k < |gs| ==> gs[k] < |routes| && routes[gs[k]].gate.Some?
    ensures |counts| == |gs|
    ensures forall k :: 0 <= k < |gs| ==> counts[k] == |routes[gs[k]].gate.value.assignedAircraft|
  {
    seq(|gs|, k requires 0 <= k < |gs| => |routes[gs[k]].gate.value.assignedAircraft|)
  }

  /** `after` is `before` with aircraft `a` added to the assignees of gate
      `g`. */
  predicate AssignedTo(before: seq<Route>, after: seq<Route>, g: RouteId, a: AircraftId)
  {
    g < |before| && before[g].gate.Some?
    && after == before[g := before[g].(gate := Some(Gates.AssignAircraft(before[g].gate.value, a)))]
  }

  /** The gate choice of TouchDown, from the arena `before` to the arena
      `after`: among the gates of `gates` of size `size`, the first with
      the fewest assignees has aircraft `a` added to its assignees, which
      is all that changes, and `name` is its name. */
  ghost predicate GateChosen(before: seq<Route>, after: seq<Route>, gates: seq<RouteId>,
                             size: int, a: AircraftId, name: string)
    requires forall k :: 0 <= k < |gates| ==> gates[k] < |before| && before[gates[k]].gate.Some?
  {
    var gs := FilterGates(before, gates, ExactSize(size));
    exists i :: 0 <= i < |gs| && Picked(GateCounts(before, gs), i)
                && name == before[gs[i]].name && AssignedTo(before, after, gs[i], a)
  }

  /** The automatic gate assignment of TouchDown (see `GateChosen`); with
      no gate of the aircraft's size the simulator reads past the end, and
      the model changes nothing. */
  method ChooseGate(aircraft: Aircraft, airport: Airport) returns (defined: bool)
    requires airport.Valid()
    modifies aircraft`gateAssigned, airport`routes
    ensures airport.Valid() && |airport.routes| == old(|airport.routes|)
    ensures defined <==> |old(airport.GetGatesWithExactSize(aircraft.size))| > 0
    ensures defined ==> GateChosen(old(airport.routes), airport.routes, airport.gates, aircraft.size,
                                   aircraft.id, aircraft.gateAssigned)
    ensures !defined ==> airport.routes == old(airport.routes)
                         && aircraft.gateAssigned == old(aircraft.gateAssigned)
    ensures unchanged(aircraft`route, aircraft`directionOnRoute, aircraft`distanceOnRoute,
                      aircraft`active, aircraft`speed, aircraft`landingRunwayInfo, aircraft`gate)
  {
    var gs := airport.GetGatesWithExactSize(aircraft.size);
    if |gs| == 0 {
      return false;
    }
    var index := FewestAssigned(GateCounts(airport.routes, gs));
    var g := gs[index];
    aircraft.gateAssigned := airport.routes[g].name;
    ghost var routes0 := airport.routes;
    airport.AssignAircraft(g, aircraft.id);
    assert AssignedTo(routes0, airport.routes, g, aircraft.id);
    defined := true;
  }

  /** Whether the landing data can be used: they exist, name an element of
      the arena and hold at least two touch-down distances. */
  predicate LandingUsable(info: Option<RunwayInfo>, n: nat)
  {
    info.Some? && info.value.route < n && |info.value.touchDownDistanceRange| >= 2
  }

  /** The itinerary from the aircraft's position to its gate (entered at
      distance 1, facing its positive direction) can be rebuilt, with the
      segment ids of `nameToId`. */
  ghost predicate GateSearchable(aircraft: Aircraft, airport: Airport, nameToId: map<string, nat>)
    reads aircraft`route, aircraft`directionOnRoute, aircraft`distanceOnRoute,
          aircraft`gateAssigned, airport`routes, airport`routeIds, airport`matrix
    requires aircraft.route.Some? && aircraft.route.value < |airport.routes|
  {
    Searchable(airport.routes, nameToId, airport.matrix, aircraft.route.value,
               aircraft.directionOnRoute, aircraft.distanceOnRoute,
               airport.GetRoutePtr(aircraft.gateAssigned), true, 1.0)
  }

  /** The aircraft's itinerary joins its position to its gate. */
  ghost predicate GateItinerary(aircraft: Aircraft, airport: Airport, nameToId: map<string, nat>)
    reads aircraft`route, aircraft`directionOnRoute, aircraft`distanceOnRoute,
          aircraft`gateAssigned, aircraft`taxiRoutes, airport`routes, airport`routeIds,
          airport`matrix, airport`segments, airport`idToName
    requires aircraft.route.Some? && aircraft.route.value < |airport.routes|
  {
    var end := airport.GetRoutePtr(aircraft.gateAssigned);
    end.Some? && end.value < |airport.routes|
    && Joins(airport.routes, airport.segments, airport.idToName,
             SegmentIdAt(airport.routes, nameToId, aircraft.route.value,
                         aircraft.directionOnRoute, aircraft.distanceOnRoute),
             SegmentIdAt(airport.routes, nameToId, end.value, true, 1.0),
             aircraft.taxiRoutes)
  }

  /** The itinerary from where the aircraft is to its gate (at distance 1,
      facing its positive direction), stored in the aircraft. */
  method TaxiToGate(aircraft: Aircraft, airport: Airport) returns (defined: bool)
    requires World(aircraft, airport) && aircraft.route.Some?
    modifies aircraft`taxiRoutes, airport`nameToId
    ensures World(aircraft, airport)
    ensures defined <==> GateSearchable(aircraft, airport, old(airport.nameToId))
    ensures defined ==> GateItinerary(aircraft, airport, old(airport.nameToId))
    ensures !defined ==> aircraft.taxiRoutes == old(aircraft.taxiRoutes)
    ensures unchanged(aircraft`route, aircraft`directionOnRoute, aircraft`distanceOnRoute,
                      aircraft`active, aircraft`speed, aircraft`landingRunwayInfo,
                      aircraft`gateAssigned, airport`routes)
  {
    var taxi;
    taxi, defined := RouteTo(airport, aircraft.route.value, aircraft.directionOnRoute,
                             aircraft.distanceOnRoute, airport.GetRoutePtr(aircraft.gateAssigned),
                             true, 1.0);
    if defined {
      aircraft.SetTaxiRoutes(taxi);
    }
  }

  /** The aircraft is put on its landing runway at the second touch-down
      distance, activated and given the touch-down speed. */
  method Land(aircraft: Aircraft, airport: Airport)
    requires World(aircraft, airport)
    requires LandingUsable(aircraft.landingRunwayInfo, |airport.routes|)
    modifies aircraft`route, aircraft`targetSpeed, aircraft`directionOnRoute,
             aircraft`distanceOnRoute, aircraft`nameToRouteMap, aircraft`active, aircraft`speed,
             airport`routes
    ensures World(aircraft, airport)
    ensures airport.routes == Relocated(old(airport.routes), old(aircraft.route),
                                        aircraft.landingRunwayInfo.value.route, aircraft.id)
    ensures var info := aircraft.landingRunwayInfo.value;
            aircraft.route == Some(info.route) && aircraft.directionOnRoute == info.direction
            && aircraft.distanceOnRoute == info.touchDownDistanceRange[1]
            && aircraft.active && aircraft.speed == TouchDownSpeed
  {
    var info := aircraft.landingRunwayInfo.value;
    aircraft.SetGroundRoute(airport, info.route, info.direction, info.touchDownDistanceRange[1]);
    aircraft.Activate();
    aircraft.SetSpeed(TouchDownSpeed);
  }

  /** The first part of `TouchDownState::Entry`: the aircraft lands (see
      `Land`) and, without a gate, is assigned one (see `ChooseGate`) in
      the arena it landed in. */
  method LandAtGate(aircraft: Aircraft, airport: Airport) returns (defined: bool)
    requires World(aircraft, airport)
    requires LandingUsable(aircraft.landingRunwayInfo, |airport.routes|)
    modifies aircraft`route, aircraft`targetSpeed, aircraft`directionOnRoute,
             aircraft`distanceOnRoute, aircraft`nameToRouteMap, aircraft`active, aircraft`speed,
             aircraft`gateAssigned, airport`routes
    ensures World(aircraft, airport) && |airport.routes| == old(|airport.routes|)
    ensures var info := aircraft.landingRunwayInfo.value;
            aircraft.route == Some(info.route) && aircraft.directionOnRoute == info.direction
            && aircraft.distanceOnRoute == info.touchDownDistanceRange[1]
            && aircraft.active && aircraft.speed == TouchDownSpeed
    ensures old(aircraft.gateAssigned) == "" ==>
              (defined <==> |old(airport.GetGatesWithExactSize(aircraft.size))| > 0)
    ensures var landed := Relocated(old(airport.routes), old(aircraft.route),
                                    aircraft.landingRunwayInfo.value.route, aircraft.id);
            if defined && old(aircraft.gateAssigned) == "" then
              GateChosen(landed, airport.routes, airport.gates, aircraft.size, aircraft.id,
                         aircraft.gateAssigned)
            else
              airport.routes == landed
    ensures old(aircraft.gateAssigned) != "" ==> defined && aircraft.gateAssigned == old(aircraft.gateAssigned)
  {
    ghost var routes0 := airport.routes;
    Land(aircraft, airport);
    FilterGatesFrame(routes0, airport.routes, airport.gates, ExactSize(aircraft.size));
    defined := GateUnlessAssigned(aircraft, airport);
  }

  /** The second part of `TouchDownState::Entry`'s landing: an aircraft
      without a gate is given one (see `ChooseGate`); otherwise nothing
      changes. */
  method GateUnlessAssigned(aircraft: Aircraft, airport: Airport) returns (defined: bool)
    requires airport.Valid()
    modifies aircraft`gateAssigned, airport`routes
    ensures airport.Valid() && |airport.routes| == old(|airport.routes|)
    ensures old(aircraft.gateAssigned) == "" ==>
              (defined <==> |old(FilterGates(airport.routes, airport.gates,
                                             ExactSize(aircraft.size)))| > 0)
    ensures if defined && old(aircraft.gateAssigned) == "" then
              GateChosen(old(airport.routes), airport.routes, airport.gates, aircraft.size,
                         aircraft.id, aircraft.gateAssigned)
            else
              airport.routes == old(airport.routes)
    ensures old(aircraft.gateAssigned) != "" ==>
              defined && aircraft.gateAssigned == old(aircraft.gateAssigned)
    ensures unchanged(aircraft`route, aircraft`directionOnRoute, aircraft`distanceOnRoute,
                      aircraft`active, aircraft`speed, aircraft`landingRunwayInfo, aircraft`gate)
  {
    defined := true;
    if aircraft.gateAssigned == "" {
      defined := ChooseGate(aircraft, airport);
    }
  }

  /** `TouchDownState::Entry`: the aircraft lands and is given a gate (see
      `LandAtGate`), and the itinerary to its gate is searched. The next
      state is always MaintainSpeed. Without usable landing data nothing
      changes in the arena. */
  method TouchDownEntry(aircraft: Aircraft, airport: Airport) returns (next: string, defined: bool)
    requires World(aircraft, airport)
    modifies aircraft`route, aircraft`targetSpeed, aircraft`directionOnRoute,
             aircraft`distanceOnRoute, aircraft`nameToRouteMap, aircraft`active, aircraft`speed,
             aircraft`gateAssigned, aircraft`taxiRoutes, airport`routes, airport`nameToId
    ensures World(aircraft, airport) && |airport.routes| == old(|airport.routes|)
    ensures next == "MaintainSpeed"
    ensures !LandingUsable(aircraft.landingRunwayInfo, old(|airport.routes|)) ==>
              !defined && airport.routes == old(airport.routes)
    ensures defined ==>
              var info := aircraft.landingRunwayInfo.value;
              aircraft.route == Some(info.route) && aircraft.directionOnRoute == info.direction
              && aircraft.distanceOnRoute == info.touchDownDistanceRange[1]
              && aircraft.active && aircraft.speed == TouchDownSpeed
    ensures LandingUsable(aircraft.landingRunwayInfo, old(|airport.routes|)) ==>
              var landed := Relocated(old(airport.routes), old(aircraft.route),
                                      aircraft.landingRunwayInfo.value.route, aircraft.id);
              if old(aircraft.gateAssigned) == ""
                 && |old(airport.GetGatesWithExactSize(aircraft.size))| > 0 then
                GateChosen(landed, airport.routes, airport.gates, aircraft.size, aircraft.id,
                           aircraft.gateAssigned)
              else
                airport.routes == landed
    ensures defined && aircraft.gateAssigned != "" ==>
              GateSearchable(aircraft, airport, old(airport.nameToId))
              && GateItinerary(aircraft, airport, old(airport.nameToId))
    ensures defined && aircraft.gateAssigned == "" ==> aircraft.taxiRoutes == old(aircraft.taxiRoutes)
  {
    next := "MaintainSpeed";
    if !LandingUsable(aircraft.landingRunwayInfo, |airport.routes|) {
      return next, false;
    }
    defined := LandAtGate(aircraft, airport);
    if defined && aircraft.gateAssigned != "" {
      defined := TaxiToGate(aircraft, airport);
    }
  }

  // ---------------------------------------------------------------------
  // Other aircraft
  // ---------------------------------------------------------------------

  /** Where another aircraft is on its element and how fast it goes. */
  datatype Neighbour = Neighbour(distance: real, speed: real)

  /** Every occupant of an element, other than `me`, is known. */
  ghost predicate TrafficKnown(routes: seq<Route>, me: AircraftId,
                               traffic: map<AircraftId, Neighbour>)
  {
    forall r, a :: 0 <= r < |routes| && a in routes[r].aircraftOnRoute && a != me ==> a in traffic
  }

  /** The distances on their elements that the scan of the way ahead reads:
      those of the other aircraft, and `dist` for `me`. */
  function Positions(traffic: map<AircraftId, Neighbour>, me: AircraftId, dist: real)
    : (p: map<AircraftId, real>)
    ensures me in p && p[me] == dist
    ensures forall a :: a in traffic && a != me ==> a in p && p[a] == traffic[a].distance
  {
    (map a | a in traffic :: traffic[a].distance)[me := dist]
  }

  lemma PositionsPlaced(routes: seq<Route>, traffic: map<AircraftId, Neighbour>, me: AircraftId,
                        dist: real)
    requires TrafficKnown(routes, me, traffic)
    ensures Motion.Placed(routes, Positions(traffic, me, dist))
  {
  }

  /** What the scan of the way ahead tells the aircraft `me` at `pos`:
      nothing when the scan dereferences a missing element; otherwise the
      speed of the closest aircraft in the way within `searchDist`, if
      there is one. That aircraft is another occupant of the arena. */
  ghost function Leading(routes: seq<Route>, me: AircraftId, traffic: map<AircraftId, Neighbour>,
                         pos: Motion.Position, searchDist: real): (res: Option<Option<real>>)
    requires pos.current < |routes| && TrafficKnown(routes, me, traffic)
    ensures res.Some? && res.value.Some? ==>
              exists a, r :: a != me && a in traffic && res.value.value == traffic[a].speed
                             && 0 <= r < |routes| && a in routes[r].aircraftOnRoute
  {
    PositionsPlaced(routes, traffic, me, pos.dist);
    var positions := Positions(traffic, me, pos.dist);
    var w := Motion.ClosestAircraftInWay(routes, positions, me, pos.taxiRoutes, pos.current,
                                         searchDist, pos.direction, pos.dist);
    if w.None? then None
    else if w.value.found.None? then Some(None)
    else
      Motion.ClosestFromSpec(routes, positions, me, pos.taxiRoutes, 0, pos.current, pos.direction,
                             pos.dist, 0.0, searchDist);
      Some(Some(traffic[w.value.found.value].speed))
  }

  // ---------------------------------------------------------------------
  // MaintainSpeed
  // ---------------------------------------------------------------------

  /** How far ahead MaintainSpeed looks for aircraft to follow: 100 m, half
      the aircraft's length, and seven seconds at its speed. */
  function CautionDistance(length: real, speed: real): real
  {
    100.0 + length / 2.0 + speed * 7.0
  }

  /** How far ahead of leaving its element the aircraft slows to the next
      element's limit: 200 m and half its length. */
  function BrakeAhead(length: real): real
  {
    200.0 + length / 2.0
  }

  /** At `dist`, travelling in `direction`, the aircraft is within `ahead`
      of its break-out distance `breakOut`. */
  predicate NearBreakOut(direction: bool, dist: real, ahead: real, breakOut: real)
  {
    if direction then dist + ahead >= breakOut else dist - ahead <= breakOut
  }

  /** At `pos`, an aircraft `length` long is close to leaving its element
      for element `next`: it is near the break-out distance its element
      records for the name of `next` (see `NearBreakOut`). */
  predicate Approaching(routes: seq<Route>, pos: Motion.Position, length: real, next: RouteId)
    requires pos.current < |routes| && next < |routes|
  {
    NearBreakOut(pos.direction, pos.dist, BrakeAhead(length),
                 GetConnectionInfo(routes[pos.current].connections, routes[next].name)
                   .0.distanceToBreakOut)
  }

  /** The target speed of MaintainSpeed: the limit of the current element,
      lowered to that of the next one close to the break-out, then to the
      speed of a leading aircraft; zero under a manual taxi hold. */
  function TargetSpeed(currentLimit: real, nextLimit: real, closeToNext: bool,
                       leading: Option<real>, manualHold: bool): (t: real)
    ensures manualHold ==> t == 0.0
    ensures !manualHold ==>
              t <= currentLimit && (closeToNext ==> t <= nextLimit)
              && (leading.Some? ==> t <= leading.value)
    ensures !manualHold ==>
              t == currentLimit || (closeToNext && t == nextLimit)
              || (leading.Some? && t == leading.value)
  {
    var limit := if closeToNext && currentLimit > nextLimit then nextLimit else currentLimit;
    var t := if leading.Some? then Min(limit, leading.value) else limit;
    if manualHold then 0.0 else t
  }

  /** The acceleration of MaintainSpeed: more than 20 knots too fast, the
      maximum deceleration is allowed, otherwise only the soft one. */
  function CruiseAcceleration(speed: real, target: real, dt: real, softAcceleration: real,
                              maxDeceleration: real, softDeceleration: real): real
    requires dt > 0.0
  {
    if speed > target + KnotsToMetersPerSecond(20.0) then
      DetermineAcceleration(speed, target, dt, softAcceleration, maxDeceleration)
    else
      DetermineAcceleration(speed, target, dt, softAcceleration, softDeceleration)
  }

  /** With negative decelerations and a positive acceleration, a step of
      MaintainSpeed never overshoots its target speed. */
  lemma CruiseNeverOvershoots(speed: real, target: real, dt: real, softAcceleration: real,
                              maxDeceleration: real, softDeceleration: real)
    requires dt > 0.0 && maxDeceleration < 0.0 && softDeceleration < 0.0 < softAcceleration
    ensures Toward(speed, target, speed + CruiseAcceleration(speed, target, dt, softAcceleration,
                                                             maxDeceleration, softDeceleration) * dt)
  {
    AccelerationNeverOvershoots(speed, target, dt, softAcceleration, maxDeceleration);
    AccelerationNeverOvershoots(speed, target, dt, softAcceleration, softDeceleration);
  }

  /** The scan of the way ahead, from where the aircraft is. */
  method LookAhead(aircraft: Aircraft, airport: Airport, traffic: map<AircraftId, Neighbour>,
                   ghost pos: Motion.Position)
    returns (leading: Option<real>, defined: bool)
    requires airport.Valid() && aircraft.route.Some? && aircraft.route.value < |airport.routes|
    requires pos == aircraft.Pos()
    requires TrafficKnown(airport.routes, aircraft.id, traffic)
    modifies airport`routes
    ensures airport.Valid() && Motion.ConnectionsGrow(old(airport.routes), airport.routes)
    ensures var l := Leading(old(airport.routes), aircraft.id, traffic, pos,
                             CautionDistance(aircraft.length, aircraft.speed));
            (defined <==> l.Some?) && (defined ==> leading == l.value)
  {
    var me := aircraft.id;
    var positions := Positions(traffic, me, aircraft.distanceOnRoute);
    PositionsPlaced(airport.routes, traffic, me, aircraft.distanceOnRoute);
    var searchDist := CautionDistance(aircraft.length, aircraft.speed);
    var start := aircraft.route.value;
    ghost var routes0 := airport.routes;
    var w := Motion.ClosestAircraftInWay(airport.routes, positions, me, aircraft.taxiRoutes, start,
                                         searchDist, aircraft.directionOnRoute,
                                         aircraft.distanceOnRoute);
    if w.None? {
      return None, false;
    }
    var found, lowered := airport.ClosestAircraftInWay(positions, me, aircraft.taxiRoutes, start,
                                                       searchDist, aircraft.directionOnRoute,
                                                       aircraft.distanceOnRoute);
    Motion.ClosestFromSpec(routes0, positions, me, aircraft.taxiRoutes, 0, start,
                           aircraft.directionOnRoute, aircraft.distanceOnRoute, 0.0, searchDist);
    Motion.ClosestFromGrows(routes0, positions, me, aircraft.taxiRoutes, 0, start,
                            aircraft.directionOnRoute, aircraft.distanceOnRoute, 0.0, searchDist);
    if found.Some? {
      leading := Some(traffic[found.value].speed);
    } else {
      leading := None;
    }
    defined := true;
  }

  /** One step of MaintainSpeed toward `target`, at the acceleration
      `CruiseAcceleration` chooses. */
  method Pace(aircraft: Aircraft, target: real, dt: real) returns (dist: real)
    requires dt > 0.0
    modifies aircraft`acceleration, aircraft`speed
    ensures aircraft.acceleration
            == CruiseAcceleration(old(aircraft.speed), target, dt, aircraft.softGroundAcceleration,
                                  aircraft.maxGroundDeceleration, aircraft.softGroundDeceleration)
    ensures aircraft.speed == old(aircraft.speed) + aircraft.acceleration * dt
    ensures dist == Travelled(old(aircraft.speed), aircraft.acceleration, dt)
    ensures aircraft.maxGroundDeceleration < 0.0 ==> Toward(old(aircraft.speed), target, aircraft.speed)
  {
    var speed := aircraft.speed;
    var a := CruiseAcceleration(speed, target, dt, aircraft.softGroundAcceleration,
                                aircraft.maxGroundDeceleration, aircraft.softGroundDeceleration);
    if aircraft.maxGroundDeceleration < 0.0 {
      CruiseNeverOvershoots(speed, target, dt, aircraft.softGroundAcceleration,
                            aircraft.maxGroundDeceleration, aircraft.softGroundDeceleration);
    }
    dist := Accelerate(aircraft, a, dt);
  }

  /** The distance to the next hold counted down by the distance covered,
      and scanned again once the aircraft is half its length past the
      hold. */
  method CountDown(aircraft: Aircraft, airport: Airport, dist: real) returns (defined: bool)
    requires airport.Valid() && aircraft.route.Some? && aircraft.route.value < |airport.routes|
    modifies airport`routes, aircraft`distanceToNextHold, aircraft`nextHoldType
    ensures airport.Valid() && Motion.ConnectionsGrow(old(airport.routes), airport.routes)
    ensures var left := old(aircraft.distanceToNextHold) - dist;
            left > -aircraft.length / 2.0 ==>
              defined && aircraft.distanceToNextHold == left
              && aircraft.nextHoldType == old(aircraft.nextHoldType)
    ensures var left := old(aircraft.distanceToNextHold) - dist;
            var h := Motion.GetDistanceToNextHold(old(airport.routes), aircraft.route.value,
                                                  aircraft.taxiRoutes, aircraft.distanceOnRoute,
                                                  aircraft.directionOnRoute,
                                                  old(aircraft.nextHoldType));
            left <= -aircraft.length / 2.0 ==>
              (defined <==> h.Some?)
              && (defined ==> aircraft.distanceToNextHold == h.value.distance
                              && aircraft.nextHoldType == h.value.holdType)
  {
    aircraft.distanceToNextHold := aircraft.distanceToNextHold - dist;
    if aircraft.distanceToNextHold <= -aircraft.length / 2.0 {
      defined := Rescan(aircraft, airport);
    } else {
      defined := true;
      assert Motion.ConnectionsGrow(airport.routes, airport.routes);
    }
  }

  /** One step of MaintainSpeed toward `target` (see `Pace`), with the
      distance to the next hold counted down (see `CountDown`). */
  method Drive(aircraft: Aircraft, airport: Airport, target: real, dt: real)
    returns (dist: real, defined: bool)
    requires dt > 0.0 && airport.Valid() && aircraft.route.Some?
    requires aircraft.route.value < |airport.routes|
    modifies airport`routes, aircraft`acceleration, aircraft`speed, aircraft`distanceToNextHold,
             aircraft`nextHoldType
    ensures airport.Valid() && Motion.ConnectionsGrow(old(airport.routes), airport.routes)
    ensures aircraft.acceleration
            == CruiseAcceleration(old(aircraft.speed), target, dt, aircraft.softGroundAcceleration,
                                  aircraft.maxGroundDeceleration, aircraft.softGroundDeceleration)
    ensures aircraft.maxGroundDeceleration < 0.0 ==> Toward(old(aircraft.speed), target, aircraft.speed)
    ensures old(aircraft.distanceToNextHold) - dist > -aircraft.length / 2.0 ==>
              defined && aircraft.distanceToNextHold == old(aircraft.distanceToNextHold) - dist
              && aircraft.nextHoldType == old(aircraft.nextHoldType)
    ensures unchanged(aircraft`route, aircraft`distanceOnRoute, aircraft`directionOnRoute,
                      aircraft`taxiRoutes, aircraft`manualTaxiHold)
  {
    dist := Pace(aircraft, target, dt);
    defined := CountDown(aircraft, airport, dist);
  }

  /** The decision at the end of `MaintainSpeedState::Update`. */
  datatype Verdict = Verdict(next: string, manualTaxiHold: bool, nextHoldType: HoldPointType)

  /** The end of `MaintainSpeedState::Update` while the aircraft still has
      an itinerary. With take-off clearance nothing happens. Otherwise, on
      the last leg with the end within braking distance the aircraft stops;
      else, slow enough for its element and with the next hold within
      braking distance plus half its length, a take-off hold is held at and
      a traffic hold turns the manual taxi hold on and clears the hold
      type. */
  function HoldVerdict(cleared: bool, lastLeg: bool, toEnd: real, brake: real, slowEnough: bool,
                       halfLength: real, toHold: real, holdType: HoldPointType,
                       manualHold: bool): (v: Verdict)
    ensures v.next == "MaintainSpeed" || v.next == "Stop" || v.next == "Hold"
    ensures v.next == "Stop" <==> !cleared && lastLeg && brake >= toEnd
    ensures v.next == "Hold" <==>
              !cleared && !(lastLeg && brake >= toEnd) && slowEnough
              && brake + halfLength >= toHold && holdType == TakeOff
    ensures v.next != "MaintainSpeed" ==> v.manualTaxiHold == manualHold && v.nextHoldType == holdType
    ensures v.next == "MaintainSpeed" ==>
              if !cleared && slowEnough && brake + halfLength >= toHold && holdType == Traffic
              then v.manualTaxiHold && v.nextHoldType == NotSet
              else v.manualTaxiHold == manualHold && v.nextHoldType == holdType
  {
    if cleared then Verdict("MaintainSpeed", manualHold, holdType)
    else if lastLeg && brake >= toEnd then Verdict("Stop", manualHold, holdType)
    else if slowEnough && brake + halfLength >= toHold && holdType != NotSet then
      if holdType == TakeOff then Verdict("Hold", manualHold, holdType)
      else if holdType == Traffic then Verdict("MaintainSpeed", true, NotSet)
      else Verdict("MaintainSpeed", manualHold, holdType)
    else Verdict("MaintainSpeed", manualHold, holdType)
  }

  /** The braking distance of MaintainSpeed: the absolute value of
      `speed^2 / 2 / deceleration`. */
  function StopDistance(speed: real, deceleration: real): real
    requires deceleration != 0.0
  {
    Abs(speed * speed / 2.0 / deceleration)
  }

  /** With a negative deceleration, it is the distance over which that
      deceleration brings `speed` down to zero. */
  lemma StopDistanceStops(speed: real, deceleration: real)
    requires deceleration < 0.0 && speed >= 0.0
    ensures StopDistance(speed, deceleration) == BrakingDistance(speed, 0.0, deceleration)
    ensures StopDistance(speed, deceleration) >= 0.0
    ensures 0.0 == speed * speed + 2.0 * deceleration * StopDistance(speed, deceleration)
  {
    BrakingDistanceSpec(speed, 0.0, deceleration);
  }

  /** The distance to the end of the element in the direction of travel. */
  function ToEnd(length: real, direction: bool, dist: real): real
  {
    if direction then length - dist else dist
  }

  /** The arena after the next element is looked up from element `r`: the
      record for the second name of the itinerary is default-inserted
      there; with a single name left nothing is looked up. */
  function AfterFollow(routes: seq<Route>, r: RouteId, taxiRoutes: seq<string>)
    : (routes': seq<Route>)
    requires r < |routes|
    ensures |routes'| == |routes|
    ensures Motion.ConnectionsGrow(routes, routes')
  {
    if |taxiRoutes| > 1 then
      Motion.DefaultInsertGrows(routes, r, taxiRoutes[1]);
      routes[r := routes[r].(connections := GetConnectionInfo(routes[r].connections,
                                                              taxiRoutes[1]).1)]
    else
      assert Motion.ConnectionsGrow(routes, routes);
      routes
  }

  /** The next element can be looked up from element `r`: a single name is
      left, or the record for the second name has a next piece in the
      arena. */
  predicate Followable(routes: seq<Route>, r: RouteId, taxiRoutes: seq<string>)
    requires r < |routes|
  {
    |taxiRoutes| <= 1
    || (var next := GetConnectionInfo(routes[r].connections, taxiRoutes[1]).0.nextPiece;
        next.Some? && next.value < |routes|)
  }

  class MaintainSpeedState {
    var currentRoute: Option<RouteId>
    var nextRoute: Option<RouteId>
    var currentRouteSpeedLimit: real
    var nextRouteSpeedLimit: real

    constructor ()
      ensures currentRoute.None? && nextRoute.None?
    {
      currentRoute, nextRoute := None, None;
      currentRouteSpeedLimit, nextRouteSpeedLimit := 0.0, 0.0;
    }

    /** The elements remembered are elements of an arena of `n`. */
    predicate Within(n: nat)
      reads this`currentRoute, this`nextRoute
    {
      (currentRoute.Some? ==> currentRoute.value < n) && (nextRoute.Some? ==> nextRoute.value < n)
    }

    /** The element after the current one and its speed limit: the next
        piece of the current element's record for the second name of the
        itinerary; none, with limit 0, when a single name is left. The
        limit of a missing next piece is read through a null reference. */
    method FollowItinerary(aircraft: Aircraft, airport: Airport) returns (defined: bool)
      requires airport.Valid() && Within(|airport.routes|) && currentRoute.Some?
      requires currentRoute.value < |airport.routes|
      modifies this`nextRoute, this`nextRouteSpeedLimit, airport`routes
      ensures airport.Valid() && Within(|airport.routes|)
      ensures airport.routes == AfterFollow(old(airport.routes), currentRoute.value, aircraft.taxiRoutes)
      ensures |aircraft.taxiRoutes| <= 1 ==> defined && nextRoute.None? && nextRouteSpeedLimit == 0.0
      ensures |aircraft.taxiRoutes| > 1 ==>
                var next := GetConnectionInfo(old(airport.routes)[currentRoute.value].connections,
                                              aircraft.taxiRoutes[1]).0.nextPiece;
                (defined <==> next.Some? && next.value < |airport.routes|)
                && (defined ==> nextRoute == next
                                && nextRouteSpeedLimit
                                   == KnotsToMetersPerSecond(old(airport.routes)[next.value].taxiSpeedLimit))
    {
      if |aircraft.taxiRoutes| > 1 {
        var r := currentRoute.value;
        Motion.DefaultInsertGrows(airport.routes, r, aircraft.taxiRoutes[1]);
        var info := airport.GetConnectionInfo(r, aircraft.taxiRoutes[1]);
        if info.nextPiece.None? || info.nextPiece.value >= |airport.routes| {
          nextRoute := None;
          return false;
        }
        nextRoute := info.nextPiece;
        nextRouteSpeedLimit := KnotsToMetersPerSecond(airport.routes[info.nextPiece.value].taxiSpeedLimit);
      } else {
        nextRoute, nextRouteSpeedLimit := None, 0.0;
        assert Motion.ConnectionsGrow(airport.routes, airport.routes);
      }
      defined := true;
    }

    /** `MaintainSpeedState::Entry`. With an empty itinerary the aircraft
        goes to TakeOff when cleared to line up and to take off, otherwise
        to IdleState. Else the element it is on and its limit are
        remembered, the next element is looked up (see
        `FollowItinerary`), and the next hold is scanned for again if the
        aircraft is at or past it. */
    method Entry(aircraft: Aircraft, airport: Airport) returns (next: string, defined: bool)
      requires airport.Valid() && aircraft.Within(|airport.routes|) && Within(|airport.routes|)
      modifies this`currentRoute, this`currentRouteSpeedLimit, this`nextRoute,
               this`nextRouteSpeedLimit, airport`routes, aircraft`distanceToNextHold,
               aircraft`nextHoldType
      ensures airport.Valid() && Within(|airport.routes|)
      ensures Motion.ConnectionsGrow(old(airport.routes), airport.routes)
      ensures aircraft.taxiRoutes == [] ==>
                defined && next == (if aircraft.clearanceOfLineUpReceived
                                       && aircraft.clearanceOfTakeOffReceived
                                    then "TakeOff" else "IdleState")
      ensures aircraft.taxiRoutes != [] ==> next == "MaintainSpeed"
      ensures aircraft.taxiRoutes != [] && aircraft.route.None? ==> !defined
      ensures aircraft.taxiRoutes != [] && defined ==>
                var r := aircraft.route.value;
                currentRoute == aircraft.route
                && currentRouteSpeedLimit == KnotsToMetersPerSecond(old(airport.routes)[r].taxiSpeedLimit)
                && (|aircraft.taxiRoutes| == 1 ==> nextRoute.None?)
                && (|aircraft.taxiRoutes| > 1 ==>
                      nextRoute == GetConnectionInfo(old(airport.routes)[r].connections,
                                                     aircraft.taxiRoutes[1]).0.nextPiece)
      ensures aircraft.taxiRoutes != [] && defined && old(aircraft.distanceToNextHold) > 0.0 ==>
                aircraft.distanceToNextHold == old(aircraft.distanceToNextHold)
                && aircraft.nextHoldType == old(aircraft.nextHoldType)
      ensures aircraft.taxiRoutes != [] && aircraft.route.Some?
              && old(aircraft.distanceToNextHold) <= 0.0 ==>
                var r := aircraft.route.value;
                var routes1 := AfterFollow(old(airport.routes), r, aircraft.taxiRoutes);
                var h := Motion.GetDistanceToNextHold(routes1, r, aircraft.taxiRoutes,
                                                      aircraft.distanceOnRoute,
                                                      aircraft.directionOnRoute,
                                                      old(aircraft.nextHoldType));
                (defined <==> Followable(old(airport.routes), r, aircraft.taxiRoutes) && h.Some?)
                && (defined ==> h.value == Motion.HoldScan(airport.routes,
                                                           aircraft.distanceToNextHold,
                                                           aircraft.nextHoldType))
    {
      if aircraft.taxiRoutes == [] {
        next := if aircraft.clearanceOfLineUpReceived && aircraft.clearanceOfTakeOffReceived
                then "TakeOff" else "IdleState";
        assert Motion.ConnectionsGrow(airport.routes, airport.routes);
        return next, true;
      }
      next := "MaintainSpeed";
      if aircraft.route.None? {
        assert Motion.ConnectionsGrow(airport.routes, airport.routes);
        return next, false;
      }
      ghost var routes0 := airport.routes;
      defined := Remember(aircraft, airport);
      if !defined {
        return;
      }
      ghost var routes1 := airport.routes;
      defined := Reached(aircraft, airport);
      Motion.ConnectionsGrowTransitive(routes0, routes1, airport.routes);
    }

    /** The element the aircraft is on becomes the current element, its
        limit is remembered, and the next element is looked up (see
        `FollowItinerary`). */
    method Remember(aircraft: Aircraft, airport: Airport) returns (defined: bool)
      requires airport.Valid() && aircraft.Within(|airport.routes|) && Within(|airport.routes|)
      requires aircraft.route.Some?
      modifies this`currentRoute, this`currentRouteSpeedLimit, this`nextRoute,
               this`nextRouteSpeedLimit, airport`routes
      ensures airport.Valid() && Within(|airport.routes|)
      ensures airport.routes == AfterFollow(old(airport.routes), aircraft.route.value, aircraft.taxiRoutes)
      ensures defined <==> Followable(old(airport.routes), aircraft.route.value, aircraft.taxiRoutes)
      ensures var r := aircraft.route.value;
              currentRoute == aircraft.route
              && currentRouteSpeedLimit == KnotsToMetersPerSecond(old(airport.routes)[r].taxiSpeedLimit)
              && (|aircraft.taxiRoutes| <= 1 ==> defined && nextRoute.None?)
              && (|aircraft.taxiRoutes| > 1 ==>
                    var next := GetConnectionInfo(old(airport.routes)[r].connections,
                                                  aircraft.taxiRoutes[1]).0.nextPiece;
                    (defined <==> next.Some? && next.value < |airport.routes|)
                    && (defined ==> nextRoute == next))
    {
      currentRoute := aircraft.route;
      currentRouteSpeedLimit := KnotsToMetersPerSecond(airport.routes[aircraft.route.value].taxiSpeedLimit);
      defined := FollowItinerary(aircraft, airport);
    }

    /** Whether the aircraft is close to leaving its element for the next
        one: within `BrakeAhead` of the break-out distance its element
        records for the next element's name. With a single name left it is
        not; a missing next element is dereferenced. */
    method CloseToNext(aircraft: Aircraft, airport: Airport, ghost pos: Motion.Position)
      returns (close: bool, defined: bool)
      requires airport.Valid() && Within(|airport.routes|) && aircraft.route.Some?
      requires aircraft.route.value < |airport.routes| && pos == aircraft.Pos()
      modifies airport`routes
      ensures airport.Valid() && Motion.ConnectionsGrow(old(airport.routes), airport.routes)
      ensures defined <==> |pos.taxiRoutes| <= 1 || nextRoute.Some?
      ensures close <==>
                defined && |pos.taxiRoutes| > 1
                && Approaching(old(airport.routes), pos, aircraft.length, nextRoute.value)
    {
      if |aircraft.taxiRoutes| <= 1 {
        assert Motion.ConnectionsGrow(airport.routes, airport.routes);
        return false, true;
      }
      if nextRoute.None? {
        assert Motion.ConnectionsGrow(airport.routes, airport.routes);
        return false, false;
      }
      var name := airport.routes[nextRoute.value].name;
      Motion.DefaultInsertGrows(airport.routes, aircraft.route.value, name);
      var info := airport.GetConnectionInfo(aircraft.route.value, name);
      close := NearBreakOut(aircraft.directionOnRoute, aircraft.distanceOnRoute,
                            BrakeAhead(aircraft.length), info.distanceToBreakOut);
      defined := true;
    }

    /** After a move onto another element: it becomes the current element,
        it becomes the aircraft's gate if it is a gate and the aircraft has
        none yet, its limit is remembered, and the next element is looked up
        again (see `FollowItinerary`). */
    method Track(aircraft: Aircraft, airport: Airport) returns (defined: bool)
      requires airport.Valid() && aircraft.Within(|airport.routes|) && Within(|airport.routes|)
      requires aircraft.route.Some?
      modifies this`currentRoute, this`currentRouteSpeedLimit, this`nextRoute,
               this`nextRouteSpeedLimit, aircraft`gate, airport`routes
      ensures airport.Valid() && aircraft.Within(|airport.routes|) && Within(|airport.routes|)
      ensures Motion.ConnectionsGrow(old(airport.routes), airport.routes)
      ensures aircraft.route == old(currentRoute) ==>
                defined && aircraft.gate == old(aircraft.gate) && currentRoute == old(currentRoute)
                && nextRoute == old(nextRoute)
                && currentRouteSpeedLimit == old(currentRouteSpeedLimit)
                && nextRouteSpeedLimit == old(nextRouteSpeedLimit)
      ensures aircraft.route != old(currentRoute) ==>
                var r := aircraft.route.value;
                currentRoute == aircraft.route
                && aircraft.gate == (if old(airport.routes)[r].routeType == Gate
                                        && old(aircraft.gate).None?
                                     then aircraft.route else old(aircraft.gate))
                && currentRouteSpeedLimit
                   == KnotsToMetersPerSecond(old(airport.routes)[r].taxiSpeedLimit)
                && (|aircraft.taxiRoutes| <= 1 ==> defined && nextRoute.None?)
                && (|aircraft.taxiRoutes| > 1 ==>
                      var next := GetConnectionInfo(old(airport.routes)[r].connections,
                                                    aircraft.taxiRoutes[1]).0.nextPiece;
                      (defined <==> next.Some? && next.value < |airport.routes|)
                      && (defined ==> nextRoute == next))
    {
      if aircraft.route == currentRoute {
        assert Motion.ConnectionsGrow(airport.routes, airport.routes);
        return true;
      }
      if airport.routes[aircraft.route.value].routeType == Gate && aircraft.gate.None? {
        aircraft.gate := aircraft.route;
      }
      defined := Remember(aircraft, airport);
    }

    /** What MaintainSpeed reads of its surroundings: the speed of a leading
        aircraft (see `LookAhead`) and whether the next element is close
        (see `CloseToNext`), both as they were in the arena before. */
    method Sense(aircraft: Aircraft, airport: Airport, traffic: map<AircraftId, Neighbour>,
                 ghost pos: Motion.Position)
      returns (leading: Option<real>, close: bool, defined: bool)
      requires airport.Valid() && Within(|airport.routes|) && aircraft.route.Some?
      requires pos == aircraft.Pos()
      requires aircraft.route.value < |airport.routes|
      requires TrafficKnown(airport.routes, aircraft.id, traffic)
      modifies airport`routes
      ensures airport.Valid() && Motion.ConnectionsGrow(old(airport.routes), airport.routes)
      ensures var l := Leading(old(airport.routes), aircraft.id, traffic, pos,
                               CautionDistance(aircraft.length, aircraft.speed));
              defined <==> l.Some? && (|pos.taxiRoutes| > 1 ==> nextRoute.Some?)
      ensures defined ==>
                Leading(old(airport.routes), aircraft.id, traffic, pos,
                        CautionDistance(aircraft.length, aircraft.speed)) == Some(leading)
      ensures defined ==>
                (close <==>
                   |pos.taxiRoutes| > 1
                   && Approaching(old(airport.routes), pos, aircraft.length, nextRoute.value))
    {
      ghost var routes0 := airport.routes;
      leading, defined := LookAhead(aircraft, airport, traffic, pos);
      if !defined {
        return None, false, false;
      }
      ghost var routes1 := airport.routes;
      close, defined := CloseToNext(aircraft, airport, pos);
      if defined && |aircraft.taxiRoutes| > 1 {
        Motion.GrowsKeepsLookups(routes0, routes1, aircraft.route.value,
                                 routes1[nextRoute.value].name);
        assert Motion.RouteConnectionsGrow(routes0[nextRoute.value], routes1[nextRoute.value]);
      }
      Motion.ConnectionsGrowTransitive(routes0, routes1, airport.routes);
    }

    /** The first half of `MaintainSpeedState::Update`: the surroundings are
        read (see `Sense`), the target speed is set (see `TargetSpeed`) and
        the step toward it is taken (see `Drive`). */
    method Steer(aircraft: Aircraft, airport: Airport, dt: real,
                 traffic: map<AircraftId, Neighbour>, ghost pos: Motion.Position)
      returns (dist: real, defined: bool, ghost target: real, ghost leading: Option<real>,
               ghost close: bool)
      requires dt > 0.0 && airport.Valid() && Within(|airport.routes|) && aircraft.route.Some?
      requires pos == aircraft.Pos()
      requires aircraft.route.value < |airport.routes|
      requires TrafficKnown(airport.routes, aircraft.id, traffic)
      modifies airport`routes, aircraft`acceleration, aircraft`speed, aircraft`distanceToNextHold,
               aircraft`nextHoldType
      ensures airport.Valid() && Motion.ConnectionsGrow(old(airport.routes), airport.routes)
      ensures defined ==>
                Leading(old(airport.routes), aircraft.id, traffic, pos,
                        CautionDistance(aircraft.length, old(aircraft.speed))) == Some(leading)
      ensures defined && |pos.taxiRoutes| > 1 ==> nextRoute.Some?
      ensures defined ==>
                (close <==>
                   |pos.taxiRoutes| > 1
                   && Approaching(old(airport.routes), pos, aircraft.length, nextRoute.value))
      ensures defined ==>
                target == TargetSpeed(currentRouteSpeedLimit, nextRouteSpeedLimit, close, leading,
                                      aircraft.manualTaxiHold)
                && aircraft.acceleration
                   == CruiseAcceleration(old(aircraft.speed), target, dt,
                                         aircraft.softGroundAcceleration,
                                         aircraft.maxGroundDeceleration,
                                         aircraft.softGroundDeceleration)
                && (aircraft.maxGroundDeceleration < 0.0 ==>
                      Toward(old(aircraft.speed), target, aircraft.speed))
      ensures defined && old(aircraft.distanceToNextHold) - dist > -aircraft.length / 2.0 ==>
                aircraft.distanceToNextHold == old(aircraft.distanceToNextHold) - dist
                && aircraft.nextHoldType == old(aircraft.nextHoldType)
      ensures !defined ==>
                Leading(old(airport.routes), aircraft.id, traffic, pos,
                        CautionDistance(aircraft.length, old(aircraft.speed))).None?
                || (|pos.taxiRoutes| > 1 && nextRoute.None?)
                || old(aircraft.distanceToNextHold) - dist <= -aircraft.length / 2.0
    {
      dist, target, leading, close := 0.0, 0.0, None, false;
      ghost var routes0 := airport.routes;
      var lead, near;
      lead, near, defined := Sense(aircraft, airport, traffic, pos);
      leading, close := lead, near;
      if !defined {
        return;
      }
      ghost var routes1 := airport.routes;
      var t := TargetSpeed(currentRouteSpeedLimit, nextRouteSpeedLimit, near, lead,
                           aircraft.manualTaxiHold);
      target := t;
      dist, defined := Drive(aircraft, airport, t, dt);
      Motion.ConnectionsGrowTransitive(routes0, routes1, airport.routes);
    }

    /** The end of `MaintainSpeedState::Update` while the aircraft still
        has an itinerary: the current element is followed (see `Track`)
        and the stop and hold rules apply (see `HoldVerdict`), with the
        braking distance of the soft deceleration. */
    method Conclude(aircraft: Aircraft, airport: Airport) returns (next: string, defined: bool)
      requires airport.Valid() && aircraft.Within(|airport.routes|) && Within(|airport.routes|)
      requires aircraft.route.Some?
      modifies this`currentRoute, this`currentRouteSpeedLimit, this`nextRoute,
               this`nextRouteSpeedLimit, aircraft`gate, aircraft`manualTaxiHold,
               aircraft`nextHoldType, airport`routes
      ensures airport.Valid() && aircraft.Within(|airport.routes|) && Within(|airport.routes|)
      ensures Motion.ConnectionsGrow(old(airport.routes), airport.routes)
      ensures next == "MaintainSpeed" || next == "Stop" || next == "Hold"
      ensures defined ==>
                var r := aircraft.route.value;
                var v := HoldVerdict(aircraft.clearanceOfTakeOffReceived,
                                     |aircraft.taxiRoutes| == 1,
                                     ToEnd(airport.routes[r].length, aircraft.directionOnRoute,
                                           aircraft.distanceOnRoute),
                                     StopDistance(aircraft.speed, aircraft.softGroundDeceleration),
                                     aircraft.speed
                                     <= KnotsToMetersPerSecond(airport.routes[r].taxiSpeedLimit),
                                     aircraft.length / 2.0, aircraft.distanceToNextHold,
                                     old(aircraft.nextHoldType), old(aircraft.manualTaxiHold));
                next == v.next && aircraft.manualTaxiHold == v.manualTaxiHold
                && aircraft.nextHoldType == v.nextHoldType
    ensures unchanged(aircraft`route, aircraft`distanceOnRoute, aircraft`directionOnRoute,
                      aircraft`taxiRoutes, aircraft`speed, aircraft`distanceToNextHold,
                      aircraft`clearanceOfTakeOffReceived)
    {
      next := "MaintainSpeed";
      defined := Track(aircraft, airport);
      if !defined {
        return;
      }
      var r := aircraft.route.value;
      var v := HoldVerdict(aircraft.clearanceOfTakeOffReceived, |aircraft.taxiRoutes| == 1,
                           ToEnd(airport.routes[r].length, aircraft.directionOnRoute,
                                 aircraft.distanceOnRoute),
                           StopDistance(aircraft.speed, aircraft.softGroundDeceleration),
                           aircraft.speed <= KnotsToMetersPerSecond(airport.routes[r].taxiSpeedLimit),
                           aircraft.length / 2.0, aircraft.distanceToNextHold,
                           aircraft.nextHoldType, aircraft.manualTaxiHold);
      next := v.next;
      aircraft.manualTaxiHold, aircraft.nextHoldType := v.manualTaxiHold, v.nextHoldType;
    }

    /** The end of `MaintainSpeedState::Update`, once the aircraft has
        moved: with its itinerary used up it goes to TakeOff when cleared
        for take-off and to IdleState otherwise; else see `Conclude`. */
    method AfterMove(aircraft: Aircraft, airport: Airport) returns (next: string, defined: bool)
      requires airport.Valid() && aircraft.Within(|airport.routes|) && Within(|airport.routes|)
      requires aircraft.route.Some?
      modifies this`currentRoute, this`currentRouteSpeedLimit, this`nextRoute,
               this`nextRouteSpeedLimit, aircraft`gate, aircraft`manualTaxiHold,
               aircraft`nextHoldType, airport`routes
      ensures airport.Valid() && aircraft.Within(|airport.routes|) && Within(|airport.routes|)
      ensures Motion.ConnectionsGrow(old(airport.routes), airport.routes)
      ensures next == "MaintainSpeed" || next == "TakeOff" || next == "IdleState"
              || next == "Stop" || next == "Hold"
      ensures aircraft.taxiRoutes == [] ==>
                defined
                && next == (if aircraft.clearanceOfTakeOffReceived then "TakeOff" else "IdleState")
                && aircraft.manualTaxiHold == old(aircraft.manualTaxiHold)
                && aircraft.nextHoldType == old(aircraft.nextHoldType)
      ensures aircraft.taxiRoutes != [] && defined ==>
                var r := aircraft.route.value;
                var v := HoldVerdict(aircraft.clearanceOfTakeOffReceived,
                                     |aircraft.taxiRoutes| == 1,
                                     ToEnd(airport.routes[r].length, aircraft.directionOnRoute,
                                           aircraft.distanceOnRoute),
                                     StopDistance(aircraft.speed, aircraft.softGroundDeceleration),
                                     aircraft.speed
                                     <= KnotsToMetersPerSecond(airport.routes[r].taxiSpeedLimit),
                                     aircraft.length / 2.0, aircraft.distanceToNextHold,
                                     old(aircraft.nextHoldType), old(aircraft.manualTaxiHold));
                next == v.next && aircraft.manualTaxiHold == v.manualTaxiHold
                && aircraft.nextHoldType == v.nextHoldType
    {
      if aircraft.taxiRoutes == [] {
        next := if aircraft.clearanceOfTakeOffReceived then "TakeOff" else "IdleState";
        assert Motion.ConnectionsGrow(airport.routes, airport.routes);
        return next, true;
      }
      next, defined := Conclude(aircraft, airport);
    }

    /** The second half of `MaintainSpeedState::Update`: the aircraft moves
        (see `Move`) and the next state is decided (see `AfterMove`). */
    method Finish(aircraft: Aircraft, airport: Airport, dist: real)
      returns (next: string, defined: bool)
      requires airport.Valid() && aircraft.Within(|airport.routes|) && Within(|airport.routes|)
      requires aircraft.route.Some?
      modifies this`currentRoute, this`currentRouteSpeedLimit, this`nextRoute,
               this`nextRouteSpeedLimit, aircraft`gate, aircraft`manualTaxiHold,
               aircraft`nextHoldType, aircraft`route, aircraft`distanceOnRoute,
               aircraft`directionOnRoute, aircraft`taxiRoutes, airport`routes
      ensures airport.Valid() && aircraft.Within(|airport.routes|) && Within(|airport.routes|)
      ensures |airport.routes| == old(|airport.routes|)
      ensures next == "MaintainSpeed" || next == "TakeOff" || next == "IdleState"
              || next == "Stop" || next == "Hold"
      ensures defined && aircraft.taxiRoutes == [] ==>
                next == (if aircraft.clearanceOfTakeOffReceived then "TakeOff" else "IdleState")
      ensures defined ==> aircraft.route.Some?
      ensures defined && aircraft.taxiRoutes != [] ==>
                var r := aircraft.route.value;
                var v := HoldVerdict(aircraft.clearanceOfTakeOffReceived,
                                     |aircraft.taxiRoutes| == 1,
                                     ToEnd(airport.routes[r].length, aircraft.directionOnRoute,
                                           aircraft.distanceOnRoute),
                                     StopDistance(aircraft.speed, aircraft.softGroundDeceleration),
                                     aircraft.speed
                                     <= KnotsToMetersPerSecond(airport.routes[r].taxiSpeedLimit),
                                     aircraft.length / 2.0, aircraft.distanceToNextHold,
                                     old(aircraft.nextHoldType), old(aircraft.manualTaxiHold));
                next == v.next && aircraft.manualTaxiHold == v.manualTaxiHold
                && aircraft.nextHoldType == v.nextHoldType
    {
      next := "MaintainSpeed";
      defined := Move(aircraft, airport, dist);
      if !defined {
        return;
      }
      ghost var routes1 := airport.routes;
      next, defined := AfterMove(aircraft, airport);
      assert |airport.routes| == |routes1|;
    }

    /** `MaintainSpeedState::Update`: the surroundings are read, the target
        speed is set and the step toward it taken (see `Steer`), the
        aircraft moves (see `Move`) and the next state is decided (see
        `AfterMove`). The scan of the way ahead needs the element the
        aircraft is on, and the itinerary shown on its banner needs a last
        name. */
    method Update(aircraft: Aircraft, airport: Airport, dt: real,
                  traffic: map<AircraftId, Neighbour>)
      returns (next: string, defined: bool, ghost target: real, ghost leading: Option<real>,
               ghost close: bool, ghost holdType: HoldPointType)
      requires dt > 0.0 && World(aircraft, airport) && Within(|airport.routes|)
      requires TrafficKnown(airport.routes, aircraft.id, traffic)
      modifies this`currentRoute, this`currentRouteSpeedLimit, this`nextRoute,
               this`nextRouteSpeedLimit, aircraft`acceleration, aircraft`speed,
               aircraft`distanceToNextHold, aircraft`nextHoldType, aircraft`route,
               aircraft`distanceOnRoute, aircraft`directionOnRoute, aircraft`taxiRoutes,
               aircraft`gate, aircraft`manualTaxiHold, airport`routes
      ensures airport.Valid() && aircraft.Within(|airport.routes|) && Within(|airport.routes|)
      ensures |airport.routes| == old(|airport.routes|)
      ensures next == "MaintainSpeed" || next == "TakeOff" || next == "IdleState"
              || next == "Stop" || next == "Hold"
      ensures old(aircraft.route).None? || old(aircraft.taxiRoutes) == [] ==> !defined
      ensures defined ==>
                Leading(old(airport.routes), aircraft.id, traffic, old(aircraft.Pos()),
                        CautionDistance(aircraft.length, old(aircraft.speed))) == Some(leading)
      ensures defined ==>
                target == TargetSpeed(old(currentRouteSpeedLimit), old(nextRouteSpeedLimit), close,
                                      leading, old(aircraft.manualTaxiHold))
      ensures defined && aircraft.maxGroundDeceleration < 0.0 ==>
                Toward(old(aircraft.speed), target, aircraft.speed)
      ensures defined && aircraft.taxiRoutes == [] ==>
                next == (if aircraft.clearanceOfTakeOffReceived then "TakeOff" else "IdleState")
      ensures defined ==> aircraft.route.Some?
      ensures defined && aircraft.taxiRoutes != [] ==>
                var r := aircraft.route.value;
                var v := HoldVerdict(aircraft.clearanceOfTakeOffReceived,
                                     |aircraft.taxiRoutes| == 1,
                                     ToEnd(airport.routes[r].length, aircraft.directionOnRoute,
                                           aircraft.distanceOnRoute),
                                     StopDistance(aircraft.speed, aircraft.softGroundDeceleration),
                                     aircraft.speed
                                     <= KnotsToMetersPerSecond(airport.routes[r].taxiSpeedLimit),
                                     aircraft.length / 2.0, aircraft.distanceToNextHold,
                                     holdType, old(aircraft.manualTaxiHold));
                next == v.next && aircraft.manualTaxiHold == v.manualTaxiHold
                && aircraft.nextHoldType == v.nextHoldType
    {
      next, target, leading, close, holdType := "MaintainSpeed", 0.0, None, false, NotSet;
      if aircraft.route.None? || aircraft.taxiRoutes == [] {
        return next, false, target, leading, close, holdType;
      }
      var dist;
      dist, defined, target, leading, close := Steer(aircraft, airport, dt, traffic, aircraft.Pos());
      if !defined {
        return;
      }
      ghost var speed := aircraft.speed;
      holdType := aircraft.nextHoldType;
      next, defined := Finish(aircraft, airport, dist);
      assert aircraft.speed == speed;
    }
  }
}
