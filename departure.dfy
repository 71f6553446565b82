/** The states that follow the arrival taxi: the final stop, idling at the
    gate or at a hold, the runway and push-back requests, the push-back,
    holding short, the take-off roll and leaving the simulation. Each state
    reads and writes the aircraft it drives; the tower's answers arrive as
    flags in the aircraft. */
module Departure {
  import opened Wrappers
  import opened RouteBase
  import opened Utils
  import Motion
  import Gates
  import opened Airports
  import opened Aircrafts
  import opened States

  // ---------------------------------------------------------------------
  // A step at constant acceleration followed by a move
  // ---------------------------------------------------------------------

  /** One step at acceleration `a` and `ComputePosition` over the distance
      it covers. */
  method Roll(aircraft: Aircraft, airport: Airport, a: real, dt: real) returns (defined: bool)
    requires airport.Valid() && aircraft.Within(|airport.routes|)
    modifies aircraft`acceleration, aircraft`speed, airport`routes, aircraft`route,
             aircraft`distanceOnRoute, aircraft`directionOnRoute, aircraft`taxiRoutes
    ensures airport.Valid() && aircraft.Within(|airport.routes|)
    ensures |airport.routes| == old(|airport.routes|)
    ensures aircraft.acceleration == a && aircraft.speed == old(aircraft.speed) + a * dt
    ensures defined <==> old(aircraft.route).Some?
                         && Motion.Advance(old(airport.routes), aircraft.id, old(aircraft.Pos()),
                                           Travelled(old(aircraft.speed), a, dt)).Some?
    ensures defined ==> aircraft.route.Some?
                        && Motion.Advance(old(airport.routes), aircraft.id, old(aircraft.Pos()),
                                          Travelled(old(aircraft.speed), a, dt))
                           == Some(Motion.Moved(airport.routes, aircraft.Pos()))
  {
    var dist := Accelerate(aircraft, a, dt);
    defined := Move(aircraft, airport, dist);
  }

  // ---------------------------------------------------------------------
  // Stop
  // ---------------------------------------------------------------------

  /** The state a braking aircraft is in after `n + 1` more updates, each
      changing its speed by `dv`: idle as soon as the speed drops below
      zero, still stopping otherwise. */
  function BrakingRun(speed: real, dv: real, n: nat): (next: string)
    ensures next == "IdleState" || next == "Stop"
    decreases n
  {
    if speed + dv < 0.0 then "IdleState"
    else if n == 0 then "Stop"
    else BrakingRun(speed + dv, dv, n - 1)
  }

  /** Braking always ends: once `n + 1` steps of `dv` take the speed below
      zero, the aircraft is idle. */
  lemma {:induction false} BrakingEndsIdle(speed: real, dv: real, n: nat)
    requires dv < 0.0 && speed + (n + 1) as real * dv < 0.0
    ensures BrakingRun(speed, dv, n) == "IdleState"
    decreases n
  {
    if speed + dv >= 0.0 && n > 0 {
      assert (speed + dv) + ((n - 1) + 1) as real * dv == speed + (n + 1) as real * dv;
      BrakingEndsIdle(speed + dv, dv, n - 1);
    }
  }

  /** Braking never goes idle early: while the speed stays non-negative for
      all `n + 1` steps the aircraft is still stopping. */
  lemma {:induction false} BrakingStopsUntilZero(speed: real, dv: real, n: nat)
    requires dv < 0.0 && speed + (n + 1) as real * dv >= 0.0
    ensures BrakingRun(speed, dv, n) == "Stop"
    decreases n
  {
    assert (n + 1) as real * dv <= dv;
    if n > 0 {
      assert (speed + dv) + ((n - 1) + 1) as real * dv == speed + (n + 1) as real * dv;
      BrakingStopsUntilZero(speed + dv, dv, n - 1);
    }
  }

  /** `StopState::Update`: the aircraft brakes with its soft deceleration;
      once the speed is below zero it goes idle without moving, otherwise it
      moves by the distance covered and keeps stopping. */
  method StopUpdate(aircraft: Aircraft, airport: Airport, dt: real)
    returns (next: string, defined: bool)
    requires airport.Valid() && aircraft.Within(|airport.routes|)
    modifies aircraft`acceleration, aircraft`speed, airport`routes, aircraft`route,
             aircraft`distanceOnRoute, aircraft`directionOnRoute, aircraft`taxiRoutes
    ensures airport.Valid() && aircraft.Within(|airport.routes|)
    ensures |airport.routes| == old(|airport.routes|)
    ensures aircraft.acceleration == aircraft.softGroundDeceleration
    ensures aircraft.speed == old(aircraft.speed) + aircraft.softGroundDeceleration * dt
    ensures next == BrakingRun(old(aircraft.speed), aircraft.softGroundDeceleration * dt, 0)
    ensures aircraft.speed < 0.0 ==>
              defined && airport.routes == old(airport.routes)
              && unchanged(aircraft`route, aircraft`distanceOnRoute, aircraft`directionOnRoute,
                           aircraft`taxiRoutes)
    ensures aircraft.speed >= 0.0 ==>
              var travelled := Travelled(old(aircraft.speed), aircraft.softGroundDeceleration, dt);
              (defined <==> old(aircraft.route).Some?
                            && Motion.Advance(old(airport.routes), aircraft.id,
                                              old(aircraft.Pos()), travelled).Some?)
              && (defined ==> aircraft.route.Some?
                              && Motion.Advance(old(airport.routes), aircraft.id,
                                                old(aircraft.Pos()), travelled)
                                 == Some(Motion.Moved(airport.routes, aircraft.Pos())))
  {
    if aircraft.speed + aircraft.softGroundDeceleration * dt < 0.0 {
      var _ := Accelerate(aircraft, aircraft.softGroundDeceleration, dt);
      return "IdleState", true;
    }
    defined := Roll(aircraft, airport, aircraft.softGroundDeceleration, dt);
    next := "Stop";
  }

  /** `StopState::Exit`: the aircraft stands still with nothing left to
      travel. */
  method StopExit(aircraft: Aircraft)
    modifies aircraft`speed, aircraft`acceleration, aircraft`taxiRoutes
    ensures aircraft.speed == 0.0 && aircraft.acceleration == 0.0 && aircraft.taxiRoutes == []
  {
    aircraft.speed, aircraft.acceleration, aircraft.taxiRoutes := 0.0, 0.0, [];
  }

  // ---------------------------------------------------------------------
  // Idle
  // ---------------------------------------------------------------------

  /** The state an idle aircraft goes to: a runway request once it has
      waited too long at its gate; with a take-off request out, lining up
      once cleared (when there is an itinerary), the take-off roll once
      cleared for take-off; idle otherwise. */
  function IdleNext(timedOut: bool, takeOffRequested: bool, lineUpCleared: bool,
                    hasItinerary: bool, takeOffCleared: bool): (next: string)
    ensures next == "RequestRunway" <==> timedOut
    ensures next == "MaintainSpeed" <==>
              !timedOut && takeOffRequested && lineUpCleared && hasItinerary
    ensures next == "TakeOff" <==>
              !timedOut && takeOffRequested && !(lineUpCleared && hasItinerary) && takeOffCleared
    ensures next in {"RequestRunway", "MaintainSpeed", "TakeOff", "IdleState"}
  {
    if timedOut then "RequestRunway"
    else if takeOffRequested && lineUpCleared && hasItinerary then "MaintainSpeed"
    else if takeOffRequested && takeOffCleared then "TakeOff"
    else "IdleState"
  }

  /** The time spent at the gate after `n` idle updates of `dt` each. */
  function GateTimeAfter(timer: real, dt: real, n: nat): (t: real)
    requires dt > 0.0
    ensures t >= timer
    decreases n
  {
    if n == 0 then timer else GateTimeAfter(timer + dt, dt, n - 1)
  }

  /** Waiting at the gate ends: the timer grows by `dt` per update, so after
      enough of them it passes any limit. */
  lemma {:induction false} GateTimeGrows(timer: real, dt: real, n: nat)
    requires dt > 0.0
    ensures GateTimeAfter(timer, dt, n) == timer + n as real * dt
    decreases n
  {
    if n > 0 {
      GateTimeGrows(timer + dt, dt, n - 1);
    }
  }

  /** `IdleState`, which counts the time spent at the gate before the
      runway request. */
  class IdleState {
    var timer: real

    constructor ()
      ensures timer == 0.0
    {
      timer := 0.0;
    }

    /** `IdleState::Entry`: the aircraft stands still. */
    method Entry(aircraft: Aircraft) returns (next: string)
      modifies aircraft`speed, aircraft`acceleration
      ensures aircraft.speed == 0.0 && aircraft.acceleration == 0.0 && next == "IdleState"
    {
      aircraft.speed, aircraft.acceleration := 0.0, 0.0;
      next := "IdleState";
    }

    /** `IdleState::Update`: at a gate with no runway requested the timer
        runs, and passing the gate time asks for a runway; the clearances
        for a requested take-off are then looked at. */
    method Update(aircraft: Aircraft, dt: real) returns (next: string)
      modifies this`timer
      ensures var counting := aircraft.gate.Some? && !aircraft.requestOfRunwaySent;
              timer == (if counting then old(timer) + dt else old(timer))
              && next == IdleNext(counting && timer > aircraft.maxTimeAtGate,
                                  aircraft.requestOfTakeOffSent,
                                  aircraft.clearanceOfLineUpReceived,
                                  aircraft.taxiRoutes != [],
                                  aircraft.clearanceOfTakeOffReceived)
    {
      if aircraft.gate.Some? && !aircraft.requestOfRunwaySent {
        timer := timer + dt;
        if timer > aircraft.maxTimeAtGate {
          return "RequestRunway";
        }
      }
      if aircraft.requestOfTakeOffSent {
        if aircraft.clearanceOfLineUpReceived && aircraft.taxiRoutes != [] {
          return "MaintainSpeed";
        }
        if aircraft.clearanceOfTakeOffReceived {
          return "TakeOff";
        }
      }
      next := "IdleState";
    }

    /** `IdleState::Exit`: the timer starts again from zero. */
    method Exit()
      modifies this`timer
      ensures timer == 0.0
    {
      timer := 0.0;
    }
  }

  // ---------------------------------------------------------------------
  // Runway and push-back requests
  // ---------------------------------------------------------------------

  /** `RequestRunwayState::Entry`: the runway is requested and none is
      assigned yet. */
  method RequestRunwayEntry(aircraft: Aircraft) returns (next: string)
    modifies aircraft`requestOfRunwaySent, aircraft`takeOffRunwayAssigned
    ensures aircraft.requestOfRunwaySent && !aircraft.takeOffRunwayAssigned
    ensures next == "RequestRunway"
  {
    aircraft.requestOfRunwaySent, aircraft.takeOffRunwayAssigned := true, false;
    next := "RequestRunway";
  }

  /** A state that waits for an answer: it moves on to `granted` exactly
      when the answer has come and waits otherwise. */
  function Await(answered: bool, waiting: string, granted: string): (next: string)
    ensures next == granted || next == waiting
    ensures waiting != granted ==> (next == granted <==> answered)
  {
    if answered then granted else waiting
  }

  /** `RequestRunwayState::Update`: push-back is requested once a runway
      is assigned. */
  function RequestRunwayUpdate(aircraft: Aircraft): (next: string)
    reads aircraft`takeOffRunwayAssigned
    ensures next == Await(aircraft.takeOffRunwayAssigned, "RequestRunway", "RequestPushBack")
  {
    if aircraft.takeOffRunwayAssigned then "RequestPushBack" else "RequestRunway"
  }

  /** `RequestPushBackState::Entry`: push-back is requested and not yet
      cleared. */
  method RequestPushBackEntry(aircraft: Aircraft) returns (next: string)
    modifies aircraft`requestOfPushBackSent, aircraft`clearanceOfPushBackReceived
    ensures aircraft.requestOfPushBackSent && !aircraft.clearanceOfPushBackReceived
    ensures next == "RequestPushBack"
  {
    aircraft.requestOfPushBackSent, aircraft.clearanceOfPushBackReceived := true, false;
    next := "RequestPushBack";
  }

  /** `RequestPushBackState::Update`: the push-back starts once cleared. */
  function RequestPushBackUpdate(aircraft: Aircraft): (next: string)
    reads aircraft`clearanceOfPushBackReceived
    ensures next == Await(aircraft.clearanceOfPushBackReceived, "RequestPushBack", "PushBack")
  {
    if aircraft.clearanceOfPushBackReceived then "PushBack" else "RequestPushBack"
  }

  /** Right after a request is sent the request state waits: the answer
      flag has just been cleared. */
  lemma RequestsWaitFirst(aircraft: Aircraft)
    requires !aircraft.takeOffRunwayAssigned && !aircraft.clearanceOfPushBackReceived
    ensures RequestRunwayUpdate(aircraft) == "RequestRunway"
    ensures RequestPushBackUpdate(aircraft) == "RequestPushBack"
  {
  }

  // ---------------------------------------------------------------------
  // Push-back
  // ---------------------------------------------------------------------

  /** The aircraft's gate is a gate record of the arena, and it has a
      push-back element of the arena for `runway`. */
  predicate PushBackKnown(routes: seq<Route>, gate: Option<RouteId>, runway: string)
  {
    gate.Some? && gate.value < |routes| && routes[gate.value].gate.Some?
    && var pb := Gates.GetPushBackRoute(routes[gate.value].gate.value, runway);
       pb.Some? && pb.value < |routes|
  }

  /** The push-back element of gate `g` for `runway`. */
  function PushBackOf(routes: seq<Route>, g: RouteId, runway: string): (pb: RouteId)
    requires PushBackKnown(routes, Some(g), runway)
    ensures pb < |routes|
    ensures Gates.GetPushBackRoute(routes[g].gate.value, runway) == Some(pb)
  {
    Gates.GetPushBackRoute(routes[g].gate.value, runway).value
  }

  /** What the first element of the taxi to the runway may be: an element
      the push-back element connects to at its far end other than the gate;
      or, when the gate is among those, any element it connects to at its
      start. */
  ghost predicate FirstTaxiElement(pushBack: Route, gate: RouteId, first: Option<RouteId>)
  {
    var atEnd := GetConnectedRouteBreakOutAt(pushBack, pushBack.length);
    (first in atEnd && first != Some(gate))
    || (Some(gate) in atEnd && first in GetConnectedRouteBreakOutAt(pushBack, 0.0))
  }

  /** The choice among the elements the push-back element connects to: the
      last connection breaking out at its far end, and when that is the gate
      the last one breaking out at its start. The connections are kept in no
      particular order, so any of them may come last. Undefined when there
      is none or it leads nowhere in the arena. */
  method PickFirst(routes: seq<Route>, pushBack: Route, gate: RouteId)
    returns (first: RouteId, defined: bool)
    ensures defined ==> FirstTaxiElement(pushBack, gate, Some(first)) && first < |routes|
    ensures GetConnectedRouteBreakOutAt(pushBack, pushBack.length) == {} ==> !defined
  {
    first := 0;
    var atEnd := GetConnectedRouteBreakOutAt(pushBack, pushBack.length);
    if atEnd == {} {
      return first, false;
    }
    var back :| back in atEnd;
    if back == Some(gate) {
      var atStart := GetConnectedRouteBreakOutAt(pushBack, 0.0);
      if atStart == {} {
        return first, false;
      }
      back :| back in atStart;
    }
    if back.None? || back.value >= |routes| {
      return first, false;
    }
    first, defined := back.value, true;
  }

  /** `PushBackState`, which holds the speed of the push-back. */
  class PushBackState {
    var pushBackSpeed: real

    constructor ()
      ensures pushBackSpeed == 0.0
    {
      pushBackSpeed := 0.0;
    }

    /** `PushBackState::Entry`: the itinerary becomes the gate and its
        push-back element for the take-off runway, the aircraft turns
        around, and the push-back speed is the gate's speed limit. Undefined
        when the aircraft has no gate record or the gate no push-back
        element for the runway. */
    method Entry(aircraft: Aircraft, airport: Airport) returns (next: string, defined: bool)
      modifies this`pushBackSpeed, aircraft`taxiRoutes, aircraft`directionOnRoute
      ensures next == "PushBack"
      ensures defined <==> PushBackKnown(airport.routes, aircraft.gate, aircraft.takeOffRunway)
      ensures defined ==>
                var g := aircraft.gate.value;
                aircraft.taxiRoutes
                == [airport.routes[g].name,
                    airport.routes[PushBackOf(airport.routes, g, aircraft.takeOffRunway)].name]
                && aircraft.directionOnRoute == !old(aircraft.directionOnRoute)
                && pushBackSpeed == KnotsToMetersPerSecond(airport.routes[g].taxiSpeedLimit)
    {
      next := "PushBack";
      if !PushBackKnown(airport.routes, aircraft.gate, aircraft.takeOffRunway) {
        return next, false;
      }
      var g := aircraft.gate.value;
      var pb := PushBackOf(airport.routes, g, aircraft.takeOffRunway);
      aircraft.SetTaxiRoutes([airport.routes[g].name, airport.routes[pb].name]);
      aircraft.directionOnRoute := !aircraft.directionOnRoute;
      pushBackSpeed := KnotsToMetersPerSecond(airport.routes[g].taxiSpeedLimit);
      defined := true;
    }

    /** `PushBackState::Update`: the aircraft speeds toward the push-back
        speed within its soft limits and moves by the distance covered; once
        the itinerary is used up it starts taxiing. */
    method Update(aircraft: Aircraft, airport: Airport, dt: real)
      returns (next: string, defined: bool)
      requires dt > 0.0 && airport.Valid() && aircraft.Within(|airport.routes|)
      modifies aircraft`acceleration, aircraft`speed, airport`routes, aircraft`route,
               aircraft`distanceOnRoute, aircraft`directionOnRoute, aircraft`taxiRoutes
      ensures airport.Valid() && aircraft.Within(|airport.routes|)
      ensures |airport.routes| == old(|airport.routes|)
      ensures aircraft.acceleration
              == DetermineAcceleration(old(aircraft.speed), pushBackSpeed, dt,
                                       aircraft.softGroundAcceleration,
                                       aircraft.softGroundDeceleration)
      ensures aircraft.speed == SpeedStep(old(aircraft.speed), pushBackSpeed, dt,
                                          aircraft.softGroundAcceleration,
                                          aircraft.softGroundDeceleration)
      ensures Toward(old(aircraft.speed), pushBackSpeed, aircraft.speed)
      ensures next == (if aircraft.taxiRoutes == [] then "MaintainSpeed" else "PushBack")
      ensures var travelled := Travelled(old(aircraft.speed), aircraft.acceleration, dt);
              (defined <==> old(aircraft.route).Some?
                            && Motion.Advance(old(airport.routes), aircraft.id,
                                              old(aircraft.Pos()), travelled).Some?)
              && (defined ==> aircraft.route.Some?
                              && Motion.Advance(old(airport.routes), aircraft.id,
                                                old(aircraft.Pos()), travelled)
                                 == Some(Motion.Moved(airport.routes, aircraft.Pos())))
    {
      var a := DetermineAcceleration(aircraft.speed, pushBackSpeed, dt,
                                     aircraft.softGroundAcceleration,
                                     aircraft.softGroundDeceleration);
      AccelerationNeverOvershoots(aircraft.speed, pushBackSpeed, dt,
                                  aircraft.softGroundAcceleration,
                                  aircraft.softGroundDeceleration);
      defined := Roll(aircraft, airport, a, dt);
      next := if aircraft.taxiRoutes == [] then "MaintainSpeed" else "PushBack";
    }

    /** `PushBackState::Exit`: the gate is freed, the aircraft is put on
        the first element of the taxi to the runway, and its itinerary
        becomes the route from there to the line-up point of its take-off
        runway. */
    method Exit(aircraft: Aircraft, airport: Airport) returns (defined: bool)
      requires World(aircraft, airport)
      modifies airport`routes, airport`nameToId, aircraft`route, aircraft`targetSpeed,
               aircraft`directionOnRoute, aircraft`distanceOnRoute, aircraft`nameToRouteMap,
               aircraft`taxiRoutes
      ensures World(aircraft, airport) && |airport.routes| == old(|airport.routes|)
      ensures defined ==> PushBackKnown(old(airport.routes), aircraft.gate,
                                        aircraft.takeOffRunway)
      ensures old(aircraft.route).None? ==> !defined
      ensures defined ==>
                var g := aircraft.gate.value;
                var gi := old(airport.routes)[g].gate.value;
                airport.routes[g].gate
                == Some(gi.(assignedAircraft := Gates.RemoveFirst(gi.assignedAircraft, aircraft.id)))
      ensures defined ==>
                var hp := airport.GetLineUpPoint(aircraft.takeOffRunway);
                aircraft.route.Some? && hp.route.Some? && hp.route.value < |airport.routes|
                && Searchable(airport.routes, old(airport.nameToId), airport.matrix,
                              aircraft.route.value, aircraft.directionOnRoute,
                              aircraft.distanceOnRoute, hp.route, hp.direction, hp.distanceOnRoute)
                && Joins(airport.routes, airport.segments, airport.idToName,
                         SegmentIdAt(airport.routes, old(airport.nameToId), aircraft.route.value,
                                     aircraft.directionOnRoute, aircraft.distanceOnRoute),
                         SegmentIdAt(airport.routes, old(airport.nameToId), hp.route.value,
                                     hp.direction, hp.distanceOnRoute),
                         aircraft.taxiRoutes)
    {
      if !PushBackKnown(airport.routes, aircraft.gate, aircraft.takeOffRunway) {
        return false;
      }
      var g := aircraft.gate.value;
      airport.Free(g, aircraft.id);
      defined := TaxiOut(aircraft, airport, g);
    }
  }

  /** The rest of `PushBackState::Exit` once the gate `g` is freed: the
      aircraft enters the taxiway its push-back element leads to and its
      itinerary becomes the route from there to the line-up point of its
      take-off runway. The gate record is left as it is. */
  method TaxiOut(aircraft: Aircraft, airport: Airport, g: RouteId) returns (defined: bool)
    requires World(aircraft, airport)
    requires PushBackKnown(airport.routes, Some(g), aircraft.takeOffRunway)
    modifies airport`routes, airport`nameToId, aircraft`route, aircraft`targetSpeed,
             aircraft`directionOnRoute, aircraft`distanceOnRoute, aircraft`nameToRouteMap,
             aircraft`taxiRoutes
    ensures World(aircraft, airport) && |airport.routes| == old(|airport.routes|)
    ensures old(aircraft.route).None? ==> !defined
    ensures airport.routes[g].gate == old(airport.routes)[g].gate
    ensures defined ==>
              var hp := airport.GetLineUpPoint(aircraft.takeOffRunway);
              aircraft.route.Some? && hp.route.Some? && hp.route.value < |airport.routes|
              && Searchable(airport.routes, old(airport.nameToId), airport.matrix,
                            aircraft.route.value, aircraft.directionOnRoute,
                            aircraft.distanceOnRoute, hp.route, hp.direction, hp.distanceOnRoute)
              && Joins(airport.routes, airport.segments, airport.idToName,
                       SegmentIdAt(airport.routes, old(airport.nameToId), aircraft.route.value,
                                   aircraft.directionOnRoute, aircraft.distanceOnRoute),
                       SegmentIdAt(airport.routes, old(airport.nameToId), hp.route.value,
                                   hp.direction, hp.distanceOnRoute),
                       aircraft.taxiRoutes)
  {
    var pb := PushBackOf(airport.routes, g, aircraft.takeOffRunway);
    var first;
    first, defined := PickFirst(airport.routes, airport.routes[pb], g);
    if !defined {
      return;
    }
    defined := EnterTaxiway(aircraft, airport, first);
    if !defined {
      return;
    }
    var hp := airport.GetLineUpPoint(aircraft.takeOffRunway);
    defined := TaxiToHold(aircraft, airport, hp.route, hp.direction, hp.distanceOnRoute);
  }

  /** The aircraft leaves the element it is on for the next piece of the
      connection toward `first`, entering it at the break-in distance and
      facing away from the entering direction. Undefined when the aircraft
      is on no element or the connection has no next piece in the arena. */
  method EnterTaxiway(aircraft: Aircraft, airport: Airport, first: RouteId) returns (defined: bool)
    requires World(aircraft, airport) && first < |airport.routes|
    modifies airport`routes, aircraft`route, aircraft`targetSpeed, aircraft`directionOnRoute,
             aircraft`distanceOnRoute, aircraft`nameToRouteMap
    ensures World(aircraft, airport) && |airport.routes| == old(|airport.routes|)
    ensures old(aircraft.route).None? ==> !defined
    ensures defined ==> aircraft.route.Some?
    ensures forall k :: 0 <= k < |airport.routes| ==>
              airport.routes[k].gate == old(airport.routes)[k].gate
    ensures old(aircraft.route).Some? ==>
              var r := old(aircraft.route).value;
              var info := GetConnectionInfo(old(airport.routes)[r].connections,
                                            old(airport.routes)[first].name).0;
              (defined <==> info.nextPiece.Some? && info.nextPiece.value < |airport.routes|)
              && (defined ==>
                    aircraft.route == info.nextPiece
                    && aircraft.directionOnRoute == !info.positiveEnteringNextPiece
                    && aircraft.distanceOnRoute == info.distanceToBreakIn)
    ensures old(aircraft.route).None? ==>
              airport.routes == old(airport.routes)
              && aircraft.route == old(aircraft.route)
              && aircraft.directionOnRoute == old(aircraft.directionOnRoute)
              && aircraft.distanceOnRoute == old(aircraft.distanceOnRoute)
    ensures old(aircraft.route).Some? ==>
              var r := old(aircraft.route).value;
              var got := GetConnectionInfo(old(airport.routes)[r].connections,
                                           old(airport.routes)[first].name);
              var routes1 := old(airport.routes)[r := old(airport.routes)[r].(connections := got.1)];
              (!defined ==>
                 airport.routes == routes1
                 && aircraft.route == old(aircraft.route)
                 && aircraft.directionOnRoute == old(aircraft.directionOnRoute)
                 && aircraft.distanceOnRoute == old(aircraft.distanceOnRoute)
                 && aircraft.targetSpeed == old(aircraft.targetSpeed)
                 && aircraft.nameToRouteMap == old(aircraft.nameToRouteMap))
              && (defined ==>
                    var next := got.0.nextPiece.value;
                    var n := old(airport.routes)[next].name;
                    airport.routes == Relocated(routes1, old(aircraft.route), next, aircraft.id)
                    && aircraft.targetSpeed
                       == KnotsToMetersPerSecond(old(airport.routes)[next].taxiSpeedLimit)
                    && aircraft.nameToRouteMap
                       == if n in old(aircraft.nameToRouteMap) then old(aircraft.nameToRouteMap)
                          else old(aircraft.nameToRouteMap)[n := next])
  {
    if aircraft.route.None? {
      return false;
    }
    var info := airport.GetConnectionInfo(aircraft.route.value, airport.routes[first].name);
    if info.nextPiece.None? || info.nextPiece.value >= |airport.routes| {
      return false;
    }
    aircraft.SetGroundRoute(airport, info.nextPiece.value, !info.positiveEnteringNextPiece,
                            info.distanceToBreakIn);
    defined := true;
  }

  /** The itinerary becomes the route from where the aircraft is to `end`
      at `endDist`, facing `endDirection` (the line-up point of its take-off
      runway). Undefined when no route leads there. */
  method TaxiToHold(aircraft: Aircraft, airport: Airport, end: Option<RouteId>,
                    endDirection: bool, endDist: real)
    returns (defined: bool)
    requires World(aircraft, airport) && aircraft.route.Some?
    modifies aircraft`taxiRoutes, airport`nameToId
    ensures World(aircraft, airport)
    ensures defined <==> Searchable(airport.routes, old(airport.nameToId), airport.matrix,
                                    aircraft.route.value, aircraft.directionOnRoute,
                                    aircraft.distanceOnRoute, end, endDirection, endDist)
    ensures defined ==>
              Joins(airport.routes, airport.segments, airport.idToName,
                    SegmentIdAt(airport.routes, old(airport.nameToId), aircraft.route.value,
                                aircraft.directionOnRoute, aircraft.distanceOnRoute),
                    SegmentIdAt(airport.routes, old(airport.nameToId), end.value, endDirection,
                                endDist),
                    aircraft.taxiRoutes)
    ensures !defined ==> aircraft.taxiRoutes == old(aircraft.taxiRoutes)
    ensures unchanged(aircraft`route, aircraft`directionOnRoute, aircraft`distanceOnRoute,
                      airport`routes)
  {
    var taxi;
    taxi, defined := RouteTo(airport, aircraft.route.value, aircraft.directionOnRoute,
                             aircraft.distanceOnRoute, end, endDirection, endDist);
    if defined {
      aircraft.taxiRoutes := taxi;
    }
  }

  // ---------------------------------------------------------------------
  // Take-off
  // ---------------------------------------------------------------------

  /** `TakeOffState::Entry`: the runway element the aircraft is on and the
      runway of the take-off direction (its name without the leading sign)
      are added to the itinerary. Undefined when the aircraft is on no
      element or the runway string is empty. */
  method TakeOffEntry(aircraft: Aircraft, airport: Airport) returns (next: string, defined: bool)
    requires aircraft.Within(|airport.routes|)
    modifies aircraft`taxiRoutes
    ensures next == "TakeOff"
    ensures defined <==> old(aircraft.route).Some? && |aircraft.takeOffRunway| >= 1
    ensures defined ==>
              aircraft.taxiRoutes
              == old(aircraft.taxiRoutes)
                 + [airport.routes[aircraft.route.value].name, aircraft.takeOffRunway[1..]]
  {
    next := "TakeOff";
    if aircraft.route.None? || |aircraft.takeOffRunway| == 0 {
      return next, false;
    }
    aircraft.taxiRoutes := aircraft.taxiRoutes + [airport.routes[aircraft.route.value].name];
    aircraft.taxiRoutes := aircraft.taxiRoutes + [aircraft.takeOffRunway[1..]];
    defined := true;
  }

  /** The speed after one update of `dt` toward `target`: the acceleration
      `DetermineAcceleration` picks within the caps, applied for the step. */
  function SpeedStep(speed: real, target: real, dt: real, maxAcceleration: real,
                     maxDeceleration: real): real
    requires dt > 0.0
  {
    speed + DetermineAcceleration(speed, target, dt, maxAcceleration, maxDeceleration) * dt
  }

  /** The speed after `n` updates of `dt` toward `target`. */
  function SpeedAfter(speed: real, target: real, dt: real, maxAcceleration: real,
                      maxDeceleration: real, n: nat): real
    requires dt > 0.0
    decreases n
  {
    if n == 0 then speed
    else SpeedAfter(SpeedStep(speed, target, dt, maxAcceleration, maxDeceleration), target, dt,
                    maxAcceleration, maxDeceleration, n - 1)
  }

  /** Speeding up toward a target reaches it: from below it, once `n`
      steps at the acceleration cap would pass it, the speed is exactly the
      target, and it stays there. This is how the take-off roll reaches
      take-off speed and the push-back its speed. */
  lemma {:induction false} SpeedReachesTarget(speed: real, target: real, dt: real,
                                              maxAcceleration: real, maxDeceleration: real,
                                              n: nat)
    requires dt > 0.0 && maxDeceleration < 0.0 < maxAcceleration
    requires speed <= target && speed + n as real * maxAcceleration * dt >= target
    ensures SpeedAfter(speed, target, dt, maxAcceleration, maxDeceleration, n) == target
    decreases n
  {
    if n > 0 {
      var a := DetermineAcceleration(speed, target, dt, maxAcceleration, maxDeceleration);
      AccelerationNeverOvershoots(speed, target, dt, maxAcceleration, maxDeceleration);
      assert maxDeceleration * dt < 0.0;
      if target - speed <= maxAcceleration * dt {
        assert SpeedStep(speed, target, dt, maxAcceleration, maxDeceleration) == target;
        assert (n - 1) as real * maxAcceleration * dt >= 0.0;
        SpeedReachesTarget(target, target, dt, maxAcceleration, maxDeceleration, n - 1);
      } else {
        assert a == maxAcceleration;
        assert SpeedStep(speed, target, dt, maxAcceleration, maxDeceleration) == speed + a * dt;
        assert (speed + a * dt) + (n - 1) as real * maxAcceleration * dt
               == speed + n as real * maxAcceleration * dt;
        SpeedReachesTarget(speed + a * dt, target, dt, maxAcceleration, maxDeceleration, n - 1);
      }
    }
  }

  /** `TakeOffState::Update`: the aircraft accelerates toward take-off
      speed with its maximum acceleration, moves by the distance covered,
      and leaves once it reaches take-off speed. */
  method TakeOffUpdate(aircraft: Aircraft, airport: Airport, dt: real)
    returns (next: string, defined: bool)
    requires dt > 0.0 && airport.Valid() && aircraft.Within(|airport.routes|)
    modifies aircraft`acceleration, aircraft`speed, airport`routes, aircraft`route,
             aircraft`distanceOnRoute, aircraft`directionOnRoute, aircraft`taxiRoutes
    ensures airport.Valid() && aircraft.Within(|airport.routes|)
    ensures |airport.routes| == old(|airport.routes|)
    ensures aircraft.acceleration
            == DetermineAcceleration(old(aircraft.speed), TakeOffSpeed, dt,
                                     aircraft.maxGroundAcceleration,
                                     aircraft.softGroundDeceleration)
    ensures aircraft.speed == SpeedStep(old(aircraft.speed), TakeOffSpeed, dt,
                                        aircraft.maxGroundAcceleration,
                                        aircraft.softGroundDeceleration)
    ensures Toward(old(aircraft.speed), TakeOffSpeed, aircraft.speed)
    ensures next == "Leaving" <==> aircraft.speed >= TakeOffSpeed
    ensures next == "Leaving" || next == "TakeOff"
    ensures var travelled := Travelled(old(aircraft.speed), aircraft.acceleration, dt);
            (defined <==> old(aircraft.route).Some?
                          && Motion.Advance(old(airport.routes), aircraft.id,
                                            old(aircraft.Pos()), travelled).Some?)
            && (defined ==> aircraft.route.Some?
                            && Motion.Advance(old(airport.routes), aircraft.id,
                                              old(aircraft.Pos()), travelled)
                               == Some(Motion.Moved(airport.routes, aircraft.Pos())))
  {
    var a := DetermineAcceleration(aircraft.speed, TakeOffSpeed, dt, aircraft.maxGroundAcceleration,
                                   aircraft.softGroundDeceleration);
    AccelerationNeverOvershoots(aircraft.speed, TakeOffSpeed, dt, aircraft.maxGroundAcceleration,
                                aircraft.softGroundDeceleration);
    defined := Roll(aircraft, airport, a, dt);
    next := if aircraft.speed >= TakeOffSpeed then "Leaving" else "TakeOff";
  }

  // ---------------------------------------------------------------------
  // Hold
  // ---------------------------------------------------------------------

  /** `HoldState::Entry`: at a take-off hold the take-off is requested, the
      aircraft brakes softly and the hold is used up; any other hold
      changes nothing. */
  method HoldEntry(aircraft: Aircraft) returns (next: string)
    modifies aircraft`requestOfTakeOffSent, aircraft`acceleration, aircraft`nextHoldType
    ensures next == "Hold"
    ensures old(aircraft.nextHoldType) == TakeOff ==>
              aircraft.requestOfTakeOffSent
              && aircraft.acceleration == aircraft.softGroundDeceleration
              && aircraft.nextHoldType == NotSet
    ensures old(aircraft.nextHoldType) != TakeOff ==>
              unchanged(aircraft`requestOfTakeOffSent, aircraft`acceleration,
                        aircraft`nextHoldType)
  {
    if aircraft.nextHoldType == TakeOff {
      aircraft.requestOfTakeOffSent := true;
      aircraft.acceleration := aircraft.softGroundDeceleration;
      aircraft.nextHoldType := NotSet;
    }
    next := "Hold";
  }

  /** The state after a hold update that kept the aircraft rolling: lining
      up once cleared for it, the take-off roll once cleared for take-off,
      holding otherwise. */
  function HoldNext(lineUpCleared: bool, takeOffCleared: bool): (next: string)
    ensures next == "MaintainSpeed" <==> lineUpCleared
    ensures next == "TakeOff" <==> !lineUpCleared && takeOffCleared
    ensures next == "Hold" <==> !lineUpCleared && !takeOffCleared
  {
    if lineUpCleared then "MaintainSpeed" else if takeOffCleared then "TakeOff" else "Hold"
  }

  /** `HoldState::Update`: the aircraft keeps its acceleration for the
      step, counting the distance covered off the distance to the next
      hold; once the speed is below zero it goes idle without moving,
      otherwise it moves and follows the clearances it has. */
  method HoldUpdate(aircraft: Aircraft, airport: Airport, dt: real)
    returns (next: string, defined: bool)
    requires airport.Valid() && aircraft.Within(|airport.routes|)
    modifies aircraft`acceleration, aircraft`speed, aircraft`distanceToNextHold, airport`routes,
             aircraft`route, aircraft`distanceOnRoute, aircraft`directionOnRoute,
             aircraft`taxiRoutes
    ensures airport.Valid() && aircraft.Within(|airport.routes|)
    ensures |airport.routes| == old(|airport.routes|)
    ensures aircraft.acceleration == old(aircraft.acceleration)
    ensures aircraft.speed == old(aircraft.speed) + aircraft.acceleration * dt
    ensures aircraft.distanceToNextHold
            == old(aircraft.distanceToNextHold)
               - Travelled(old(aircraft.speed), aircraft.acceleration, dt)
    ensures aircraft.speed < 0.0 ==>
              next == "IdleState" && defined && airport.routes == old(airport.routes)
              && unchanged(aircraft`route, aircraft`distanceOnRoute, aircraft`directionOnRoute,
                           aircraft`taxiRoutes)
    ensures aircraft.speed >= 0.0 ==>
              next == HoldNext(aircraft.clearanceOfLineUpReceived,
                               aircraft.clearanceOfTakeOffReceived)
    ensures aircraft.speed >= 0.0 ==>
              var travelled := Travelled(old(aircraft.speed), aircraft.acceleration, dt);
              (defined <==> old(aircraft.route).Some?
                            && Motion.Advance(old(airport.routes), aircraft.id,
                                              old(aircraft.Pos()), travelled).Some?)
              && (defined ==> aircraft.route.Some?
                              && Motion.Advance(old(airport.routes), aircraft.id,
                                                old(aircraft.Pos()), travelled)
                                 == Some(Motion.Moved(airport.routes, aircraft.Pos())))
  {
    aircraft.distanceToNextHold := aircraft.distanceToNextHold
                                   - Travelled(aircraft.speed, aircraft.acceleration, dt);
    if aircraft.speed + aircraft.acceleration * dt < 0.0 {
      var _ := Accelerate(aircraft, aircraft.acceleration, dt);
      return "IdleState", true;
    }
    defined := Roll(aircraft, airport, aircraft.acceleration, dt);
    next := HoldNext(aircraft.clearanceOfLineUpReceived, aircraft.clearanceOfTakeOffReceived);
  }

  // ---------------------------------------------------------------------
  // Leaving
  // ---------------------------------------------------------------------

  /** `LeavingState::Entry`: the aircraft is deactivated and marked for
      deletion. */
  method LeavingEntry(aircraft: Aircraft) returns (next: string)
    modifies aircraft`active, aircraft`canBeDeleted
    ensures !aircraft.active && aircraft.canBeDeleted && next == "Leaving"
  {
    aircraft.Deactivate();
    aircraft.Delete();
    next := "Leaving";
  }
}
