/** An aircraft of the simulation: its identification and size class, where
    it is on the taxi network (element, direction and distance on it, and
    the itinerary still to travel), its speed and acceleration, and the
    requests and clearances it exchanges with the tower. Elements of the
    network are indices into the airport's arena. */
module Aircrafts {
  import opened Wrappers
  import opened RouteBase
  import opened Utils
  import opened Segments
  import Motion
  import Airports

  /** What an aircraft is created from (the texture file is left out). */
  datatype Identification = Identification(
    name: string,
    model: string,
    length: real,
    width: real,
    maxGroundDeceleration: real)

  // ---------------------------------------------------------------------
  // Size class
  // ---------------------------------------------------------------------

  /** The size class used to pick a gate: small when both dimensions are
      at most 25 m, medium when both are at most 45 m, large otherwise. */
  function SizeOf(length: real, width: real): (size: int)
    ensures 1 <= size <= 3
    ensures size == 1 <==> length <= 25.0 && width <= 25.0
    ensures size <= 2 <==> length <= 45.0 && width <= 45.0
  {
    if length <= 25.0 && width <= 25.0 then 1
    else if length <= 45.0 && width <= 45.0 then 2
    else 3
  }

  /** A bigger aircraft never gets a smaller class. */
  lemma SizeMonotone(length1: real, width1: real, length2: real, width2: real)
    requires length1 <= length2 && width1 <= width2
    ensures SizeOf(length1, width1) <= SizeOf(length2, width2)
  {
  }

  /** How long an aircraft of a size class stays at its gate before it asks
      for a runway: two minutes per size step. */
  function MaxTimeAtGate(size: int): (t: real)
    requires 1 <= size <= 3
    ensures t == 120.0 * size as real
  {
    if size == 1 then 120.0 else if size == 2 then 240.0 else 360.0
  }

  // ---------------------------------------------------------------------
  // Kinematics
  // ---------------------------------------------------------------------

  /** `Aircraft::DetermineAcceleration`: the acceleration that reaches the
      target speed in one step of length `dt`, capped by the allowed
      acceleration when speeding up and by the allowed deceleration (a
      negative number) when slowing down. */
  function DetermineAcceleration(speed: real, targetSpeed: real, dt: real,
                                 maxAcceleration: real, maxDeceleration: real): real
    requires dt > 0.0
  {
    if targetSpeed > speed then Min((targetSpeed - speed) / dt, maxAcceleration)
    else Max((targetSpeed - speed) / dt, maxDeceleration)
  }

  /** With a positive acceleration cap and a negative deceleration cap,
      one step never overshoots the target: speeding up gives a positive
      acceleration within the cap and a new speed between the speed and
      the target, slowing down likewise; and when the target is within
      reach of the caps it is reached exactly. */
  lemma AccelerationNeverOvershoots(speed: real, targetSpeed: real, dt: real,
                                    maxAcceleration: real, maxDeceleration: real)
    requires dt > 0.0 && maxDeceleration < 0.0 < maxAcceleration
    ensures var a := DetermineAcceleration(speed, targetSpeed, dt, maxAcceleration,
                                           maxDeceleration);
            (targetSpeed > speed ==>
               0.0 < a <= maxAcceleration && speed <= speed + a * dt <= targetSpeed)
            && (targetSpeed <= speed ==>
                  maxDeceleration <= a <= 0.0 && targetSpeed <= speed + a * dt <= speed)
            && (maxDeceleration * dt <= targetSpeed - speed <= maxAcceleration * dt ==>
                  speed + a * dt == targetSpeed)
  {
    var q := (targetSpeed - speed) / dt;
    assert q * dt == targetSpeed - speed;
    if targetSpeed > speed {
      assert q > 0.0;
      if maxAcceleration < q {
        assert maxAcceleration * dt <= q * dt;
      }
    } else {
      assert q <= 0.0;
      if q < maxDeceleration {
        assert q * dt <= maxDeceleration * dt;
      }
    }
  }

  /** The distance covered in one step at constant acceleration. */
  function Travelled(speed: real, acceleration: real, dt: real): (d: real)
    ensures d == (speed + (speed + acceleration * dt)) / 2.0 * dt
  {
    var dv := acceleration * dt;
    (speed + dv / 2.0) * dt
  }

  /** The distance covered lies between what the old and the new speed
      would cover in the step. */
  lemma TravelledBetweenSpeeds(speed: real, acceleration: real, dt: real)
    requires dt >= 0.0
    ensures var d := Travelled(speed, acceleration, dt);
            var speed' := speed + acceleration * dt;
            Min(speed, speed') * dt <= d <= Max(speed, speed') * dt
  {
    var speed' := speed + acceleration * dt;
    var d := Travelled(speed, acceleration, dt);
    if speed <= speed' {
      assert speed * dt <= (speed + speed') / 2.0 * dt;
      assert (speed + speed') / 2.0 * dt <= speed' * dt;
    } else {
      assert speed' * dt <= (speed + speed') / 2.0 * dt;
      assert (speed + speed') / 2.0 * dt <= speed * dt;
    }
  }

  /** The stopping distance of `Aircraft::ComputeDistanceToBreak` from
      speed limit `current` to speed limit `next` with the soft
      deceleration `decel` (negative): v2^2 - v1^2 = 2 a s. */
  function BrakingDistance(current: real, next: real, decel: real): real
    requires decel < 0.0
  {
    (next * next - current * current) / 2.0 / decel
  }

  /** Slowing down needs a non-negative distance, the more the bigger the
      drop, and the kinematic relation holds. */
  lemma BrakingDistanceSpec(current: real, next: real, decel: real)
    requires decel < 0.0 && 0.0 <= next <= current
    ensures BrakingDistance(current, next, decel) >= 0.0
    ensures next * next == current * current + 2.0 * decel * BrakingDistance(current, next, decel)
    ensures next == current ==> BrakingDistance(current, next, decel) == 0.0
  {
    var s := BrakingDistance(current, next, decel);
    assert s * 2.0 * decel == next * next - current * current;
    assert next * next <= current * current by {
      assert next * next <= next * current <= current * current;
    }
  }

  // ---------------------------------------------------------------------
  // The itinerary as text
  // ---------------------------------------------------------------------

  /** Every name followed by '>'. */
  function Terminated(names: seq<string>): string
  {
    if |names| == 0 then "" else Terminated(names[..|names| - 1]) + names[|names| - 1] + ">"
  }

  /** The names separated by '>'. */
  function Joined(names: seq<string>): string
  {
    if |names| == 0 then ""
    else if |names| == 1 then names[0]
    else names[0] + ">" + Joined(names[1..])
  }

  /** Terminating every name is joining them and closing with one '>'. */
  lemma {:induction false} TerminatedJoined(names: seq<string>)
    requires |names| >= 1
    ensures Terminated(names) == Joined(names) + ">"
    decreases |names|
  {
    if |names| >= 2 {
      var init := names[..|names| - 1];
      assert names == init + [names[|names| - 1]];
      TerminatedJoined(init);
      JoinedAppend(init, names[|names| - 1]);
    }
  }

  lemma {:induction false} JoinedAppend(names: seq<string>, last: string)
    requires |names| >= 1
    ensures Joined(names + [last]) == Joined(names) + ">" + last
    decreases |names|
  {
    if |names| >= 2 {
      assert (names + [last])[1..] == names[1..] + [last];
      JoinedAppend(names[1..], last);
    } else {
      assert (names + [last])[1..] == [last];
    }
  }

  /** `Aircraft::GetTaxiRoutesString`: every name followed by '>', then the
      trailing '>' removed. */
  method GetTaxiRoutesString(names: seq<string>) returns (s: string)
    ensures s == Joined(names)
  {
    s := "";
    var i := 0;
    while i < |names|
      invariant 0 <= i <= |names| && s == Terminated(names[..i])
    {
      assert names[..i + 1][..i] == names[..i];
      s := s + names[i];
      s := s + ">";
      i := i + 1;
    }
    assert names[..i] == names;
    if |s| >= 1 && s[|s| - 1..] == ">" {
      TerminatedJoined(names);
      s := s[..|s| - 1];
    }
  }

  /** The first position of `c` in `s`. */
  function FirstIndex(s: string, c: char): (i: nat)
    requires c in s
    ensures i < |s| && s[i] == c && c !in s[..i]
  {
    if s[0] == c then 0
    else
      assert c in s[1..];
      var j := FirstIndex(s[1..], c);
      assert s[..j + 1] == [s[0]] + s[1..][..j];
      j + 1
  }

  /** The pieces of a string between its '>' characters. */
  function Split(s: string): (parts: seq<string>)
    decreases |s|
  {
    if '>' !in s then [s]
    else
      var i := FirstIndex(s, '>');
      [s[..i]] + Split(s[i + 1..])
  }

  /** A first piece free of '>' followed by '>' splits off as the first
      part. */
  lemma SplitFirst(n: string, rest: string)
    requires '>' !in n
    ensures Split(n + ">" + rest) == [n] + Split(rest)
  {
    var s := n + ">" + rest;
    assert s[|n|] == '>';
    assert s[..|n|] == n;
    var i := FirstIndex(s, '>');
    assert i == |n|;
    assert s[i + 1..] == rest;
  }

  /** The itinerary text gives the itinerary back when no name contains
      '>'. */
  lemma {:induction false} SplitJoined(names: seq<string>)
    requires |names| >= 1
    requires forall k :: 0 <= k < |names| ==> '>' !in names[k]
    ensures Split(Joined(names)) == names
    decreases |names|
  {
    if |names| > 1 {
      SplitFirst(names[0], Joined(names[1..]));
      SplitJoined(names[1..]);
      assert names == [names[0]] + names[1..];
    }
  }

  // ---------------------------------------------------------------------
  // Occupancy when an aircraft is put on an element
  // ---------------------------------------------------------------------

  /** The arena after `SetGroundRoute` moves aircraft `a` from element
      `from` (if any) to element `to`. */
  function Relocated(routes: seq<Route>, from: Option<RouteId>, to: RouteId, a: AircraftId)
    : (routes': seq<Route>)
    requires to < |routes| && (from.Some? ==> from.value < |routes|)
    ensures |routes'| == |routes|
    ensures forall r :: 0 <= r < |routes| ==>
              routes'[r] == routes[r].(aircraftOnRoute := routes'[r].aircraftOnRoute)
  {
    var cleared := if from.Some? then routes[from.value := ClearAircraft(routes[from.value], a)]
                   else routes;
    cleared[to := InsertAircraft(cleared[to], a)]
  }

  /** An aircraft that was on exactly its element (or on none, the first
      time) is afterwards on exactly the new element, and nothing else of
      the arena changes. */
  lemma RelocatedOnlyOn(routes: seq<Route>, from: Option<RouteId>, to: RouteId, a: AircraftId)
    requires to < |routes|
    requires from.Some? ==> Motion.OnlyOn(routes, a, from.value)
    requires from.None? ==> forall r :: 0 <= r < |routes| ==> a !in routes[r].aircraftOnRoute
    ensures Motion.OnlyOn(Relocated(routes, from, to, a), a, to)
    ensures Motion.MovesOnly(routes, Relocated(routes, from, to, a), a)
  {
    var routes' := Relocated(routes, from, to, a);
    forall r | 0 <= r < |routes|
      ensures Motion.RouteMovesOnly(routes[r], routes'[r], a)
      ensures a in routes'[r].aircraftOnRoute <==> r == to
    {
    }
  }

  // ---------------------------------------------------------------------
  // The aircraft
  // ---------------------------------------------------------------------

  class Aircraft {
    const id: AircraftId
    const name: string
    const model: string
    const length: real
    const width: real
    /** 1 small, 2 medium, 3 large. */
    const size: int
    /** A negative number. */
    const maxGroundDeceleration: real
    const softGroundDeceleration: real := -0.5
    const maxGroundAcceleration: real := 2.0
    const softGroundAcceleration: real := 0.5
    /** Seconds at the gate before a runway is requested. */
    const maxTimeAtGate: real

    var speed: real
    var acceleration: real
    var targetSpeed: real
    /** Names of the elements still to travel, the first being the one the
        aircraft is on. */
    var taxiRoutes: seq<string>
    /** The element the aircraft is on, once it has landed. */
    var route: Option<RouteId>
    var directionOnRoute: bool
    var distanceOnRoute: real
    /** Where to start braking; -1 when there is no need. */
    var distanceToBreak: real
    var active: bool
    var canBeDeleted: bool
    /** The gate element the aircraft has reached, once it has. */
    var gate: Option<RouteId>
    var landingRunwayInfo: Option<RunwayInfo>
    var landingRunwayString: string
    /** The elements the aircraft has been put on, by name. */
    var nameToRouteMap: map<string, RouteId>

    var requestOfPushBackSent: bool
    var clearanceOfPushBackReceived: bool
    var requestOfRunwaySent: bool
    var takeOffRunwayAssigned: bool
    /** A runway direction such as "+R1" or "-R1". */
    var takeOffRunway: string
    var requestOfTakeOffSent: bool
    var clearanceOfLineUpReceived: bool
    var clearanceOfTakeOffReceived: bool
    var manualTaxiHold: bool
    var requestOfGateSent: bool
    /** The name of the gate the aircraft is to taxi to; empty when none. */
    var gateAssigned: string
    var nextHoldType: HoldPointType
    /** Negative when it needs to be computed again. */
    var distanceToNextHold: real

    /** The aircraft and gate elements the aircraft refers to are elements
        of an arena of `n` elements. */
    predicate Within(n: nat)
      reads this`route, this`gate
    {
      (route.Some? ==> route.value < n) && (gate.Some? ==> gate.value < n)
    }

    /** A new aircraft: not yet on the network, inactive, nothing requested
        or granted, its size class and gate time set from its dimensions.
        Speed, direction and distance are left indeterminate, as the
        simulator leaves them uninitialised. */
    constructor (id: AircraftId, ident: Identification)
      ensures this.id == id && name == ident.name && model == ident.model
      ensures length == ident.length && width == ident.width
      ensures maxGroundDeceleration == ident.maxGroundDeceleration
      ensures size == SizeOf(ident.length, ident.width) && maxTimeAtGate == MaxTimeAtGate(size)
      ensures acceleration == 0.0 && taxiRoutes == [] && route.None? && gate.None?
      ensures distanceToBreak == -1.0 && !active && !canBeDeleted
      ensures landingRunwayInfo.None? && landingRunwayString == "" && nameToRouteMap == map[]
      ensures !requestOfPushBackSent && !clearanceOfPushBackReceived && !requestOfRunwaySent
      ensures !takeOffRunwayAssigned && takeOffRunway == "" && !requestOfTakeOffSent
      ensures !clearanceOfLineUpReceived && !clearanceOfTakeOffReceived && !manualTaxiHold
      ensures !requestOfGateSent && gateAssigned == ""
      ensures nextHoldType == NotSet && distanceToNextHold == -1.0
      ensures Within(0)
    {
      this.id := id;
      name := ident.name;
      model := ident.model;
      length := ident.length;
      width := ident.width;
      maxGroundDeceleration := ident.maxGroundDeceleration;
      var s := SizeOf(ident.length, ident.width);
      size := s;
      maxTimeAtGate := MaxTimeAtGate(s);
      acceleration := 0.0;
      taxiRoutes := [];
      route := None;
      distanceToBreak := -1.0;
      active, canBeDeleted := false, false;
      gate := None;
      landingRunwayInfo := None;
      landingRunwayString := "";
      nameToRouteMap := map[];
      requestOfPushBackSent, clearanceOfPushBackReceived := false, false;
      requestOfRunwaySent, takeOffRunwayAssigned := false, false;
      takeOffRunway := "";
      requestOfTakeOffSent, clearanceOfLineUpReceived, clearanceOfTakeOffReceived := false, false, false;
      manualTaxiHold, requestOfGateSent := false, false;
      gateAssigned := "";
      nextHoldType := NotSet;
      distanceToNextHold := -1.0;
    }

    /** Where the aircraft is, as the motion functions take it. */
    function Pos(): Motion.Position
      reads this`distanceOnRoute, this`directionOnRoute, this`route, this`taxiRoutes
      requires route.Some?
    {
      Motion.Position(distanceOnRoute, directionOnRoute, route.value, taxiRoutes)
    }

    method SetSpeed(speed: real)
      modifies this`speed
      ensures this.speed == speed
    {
      this.speed := speed;
    }

    method SetTaxiRoutes(routes: seq<string>)
      modifies this`taxiRoutes
      ensures taxiRoutes == routes
    {
      taxiRoutes := routes;
    }

    method SetLandingRunwayInfo(info: RunwayInfo)
      modifies this`landingRunwayInfo
      ensures landingRunwayInfo == Some(info)
    {
      landingRunwayInfo := Some(info);
    }

    method SetLandingRunwayString(s: string)
      modifies this`landingRunwayString
      ensures landingRunwayString == s
    {
      landingRunwayString := s;
    }

    method PushBackClearanceReceived()
      modifies this`clearanceOfPushBackReceived
      ensures clearanceOfPushBackReceived
    {
      clearanceOfPushBackReceived := true;
    }

    method Activate()
      modifies this`active
      ensures active
    {
      active := true;
    }

    method Deactivate()
      modifies this`active
      ensures !active
    {
      active := false;
    }

    method Delete()
      modifies this`canBeDeleted
      ensures canBeDeleted
    {
      canBeDeleted := true;
    }

    /** `Aircraft::SetGroundRoute`: the aircraft leaves the element it was
        on (if any) and is put on element `r`, at `dist` travelling in
        `direction`; its target speed becomes the element's speed limit, and
        the element is recorded under its name unless that name is already
        recorded. */
    method SetGroundRoute(airport: Airports.Airport, r: RouteId, direction: bool, dist: real)
      requires airport.Valid() && r < |airport.routes| && Within(|airport.routes|)
      modifies this`route, this`targetSpeed, this`directionOnRoute, this`distanceOnRoute,
               this`nameToRouteMap, airport`routes
      ensures airport.Valid() && Within(|airport.routes|)
      ensures airport.routes == Relocated(old(airport.routes), old(route), r, id)
      ensures route == Some(r) && directionOnRoute == direction && distanceOnRoute == dist
      ensures targetSpeed == KnotsToMetersPerSecond(old(airport.routes)[r].taxiSpeedLimit)
      ensures var n := old(airport.routes)[r].name;
              nameToRouteMap == if n in old(nameToRouteMap) then old(nameToRouteMap)
                                else old(nameToRouteMap)[n := r]
    {
      if route.Some? {
        airport.ClearAircraft(route.value, id);
      }
      route := Some(r);
      airport.InsertAircraft(r, id);
      targetSpeed := KnotsToMetersPerSecond(airport.routes[r].taxiSpeedLimit);
      directionOnRoute := direction;
      distanceOnRoute := dist;
      var n := airport.routes[r].name;
      if n !in nameToRouteMap {
        nameToRouteMap := nameToRouteMap[n := r];
      }
    }

    /** `Aircraft::ComputeDistanceToBreak` as written: with no itinerary,
        -1; otherwise, when the next element is not faster, the braking
        point of `BreakPointAsWritten`, and -1 when it is faster. The
        connection record toward the next element must exist, with a next
        piece. */
    method ComputeDistanceToBreak(airport: Airports.Airport)
      requires Within(|airport.routes|)
      requires |taxiRoutes| >= 1 ==> route.Some?
      requires |taxiRoutes| > 1 ==>
                 var cs := airport.routes[route.value].connections;
                 taxiRoutes[1] in cs && cs[taxiRoutes[1]].nextPiece.Some?
                 && cs[taxiRoutes[1]].nextPiece.value < |airport.routes|
      modifies this`distanceToBreak
      ensures distanceToBreak == BreakPointAsWritten(airport.routes)
      ensures |taxiRoutes| != 1 ==> distanceToBreak == BreakPoint(airport.routes)
    {
      if |taxiRoutes| == 0 {
        distanceToBreak := -1.0;
      }
      if |taxiRoutes| > 1 {
        var cur := airport.routes[route.value];
        var currentLimit := cur.taxiSpeedLimit;
        var nextLimit := airport.routes[cur.connections[taxiRoutes[1]].nextPiece.value].taxiSpeedLimit;
        if nextLimit > currentLimit {
          distanceToBreak := -1.0;
        } else {
          var s := BrakingDistance(currentLimit, nextLimit, softGroundDeceleration);
          distanceToBreak := if directionOnRoute then cur.length - s else s;
        }
      }
      if |taxiRoutes| == 1 {
        var cur := airport.routes[route.value];
        var s := cur.taxiSpeedLimit * cur.taxiSpeedLimit / 2.0 / softGroundDeceleration;
        distanceToBreak := if directionOnRoute then cur.length - s else s;
      }
    }

    /** The braking point `ComputeDistanceToBreak` stores as written: on the
        last leg the distance is the square of the speed limit over twice
        the (negative) deceleration, without the minus sign of
        v2^2 - v1^2 = 2 a s for v2 = 0. */
    function BreakPointAsWritten(routes: seq<Route>): real
      reads this`taxiRoutes, this`route, this`directionOnRoute
      requires |taxiRoutes| >= 1 ==> route.Some? && route.value < |routes|
      requires |taxiRoutes| > 1 ==>
                 var cs := routes[route.value].connections;
                 taxiRoutes[1] in cs && cs[taxiRoutes[1]].nextPiece.Some?
                 && cs[taxiRoutes[1]].nextPiece.value < |routes|
    {
      if |taxiRoutes| == 1 then
        var cur := routes[route.value];
        var s := cur.taxiSpeedLimit * cur.taxiSpeedLimit / 2.0 / softGroundDeceleration;
        if directionOnRoute then cur.length - s else s
      else BreakPoint(routes)
    }

    /** On the last leg the braking point as written lies beyond the end of
        the element in the direction of travel, by the square of the speed
        limit, where the intended point lies as far short of it: with limit
        10 on an element of length 100 travelled forward, 200 instead of 0. */
    lemma {:induction false} AsWrittenBreaksPastEnd(routes: seq<Route>)
      requires |taxiRoutes| == 1 && route.Some? && route.value < |routes|
      requires routes[route.value].taxiSpeedLimit > 0.0
      ensures var cur := routes[route.value];
              var v2 := cur.taxiSpeedLimit * cur.taxiSpeedLimit;
              var p := BreakPointAsWritten(routes);
              var q := BreakPoint(routes);
              (directionOnRoute ==> p == cur.length + v2 > cur.length && q == cur.length - v2)
              && (!directionOnRoute ==> p == -v2 < 0.0 && q == v2)
    {
      var cur := routes[route.value];
      var v2 := cur.taxiSpeedLimit * cur.taxiSpeedLimit;
      assert v2 / 2.0 / softGroundDeceleration == -v2;
      assert BrakingDistance(cur.taxiSpeedLimit, 0.0, softGroundDeceleration) == v2;
    }

    /** The intended braking point: as `BreakPointAsWritten`, except that on
        the last leg the distance is that of braking to a stop. */
    function BreakPoint(routes: seq<Route>): real
      reads this`taxiRoutes, this`route, this`directionOnRoute
      requires |taxiRoutes| >= 1 ==> route.Some? && route.value < |routes|
      requires |taxiRoutes| > 1 ==>
                 var cs := routes[route.value].connections;
                 taxiRoutes[1] in cs && cs[taxiRoutes[1]].nextPiece.Some?
                 && cs[taxiRoutes[1]].nextPiece.value < |routes|
    {
      if |taxiRoutes| == 0 then -1.0
      else
        var cur := routes[route.value];
        var next := if |taxiRoutes| == 1 then 0.0
                    else routes[cur.connections[taxiRoutes[1]].nextPiece.value].taxiSpeedLimit;
        if |taxiRoutes| > 1 && next > cur.taxiSpeedLimit then -1.0
        else
          var s := BrakingDistance(cur.taxiSpeedLimit, next, softGroundDeceleration);
          if directionOnRoute then cur.length - s else s
    }

    /** Where braking is needed, the intended braking point lies on the braking side
        of the element's far end (in the direction of travel), and braking
        from there at the soft deceleration brings the element's speed
        limit down to the next one (to zero on the last leg). */
    lemma BreakPointSpec(routes: seq<Route>)
      requires |taxiRoutes| >= 1 && route.Some? && route.value < |routes|
      requires routes[route.value].taxiSpeedLimit >= 0.0
      requires |taxiRoutes| > 1 ==>
                 var cs := routes[route.value].connections;
                 taxiRoutes[1] in cs && cs[taxiRoutes[1]].nextPiece.Some?
                 && cs[taxiRoutes[1]].nextPiece.value < |routes|
                 && routes[cs[taxiRoutes[1]].nextPiece.value].taxiSpeedLimit >= 0.0
      ensures var cur := routes[route.value];
              var p := BreakPoint(routes);
              var next := if |taxiRoutes| == 1 then 0.0
                          else routes[cur.connections[taxiRoutes[1]].nextPiece.value].taxiSpeedLimit;
              next <= cur.taxiSpeedLimit ==>
                var s := if directionOnRoute then cur.length - p else p;
                s >= 0.0
                && next * next == cur.taxiSpeedLimit * cur.taxiSpeedLimit
                                  + 2.0 * softGroundDeceleration * s
    {
      var cur := routes[route.value];
      var next := if |taxiRoutes| == 1 then 0.0
                  else routes[cur.connections[taxiRoutes[1]].nextPiece.value].taxiSpeedLimit;
      if next <= cur.taxiSpeedLimit {
        BrakingDistanceSpec(cur.taxiSpeedLimit, next, softGroundDeceleration);
      }
    }
  }
}
