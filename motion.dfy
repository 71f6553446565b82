/** Walking an aircraft along its itinerary, and looking ahead along it.
    An itinerary is the list of element names still to travel, the first
    being the element the aircraft is on. The functions here thread the
    arena of elements through, because every lookup of a connection by name
    inserts a zero record when the name is missing; `None` stands for a
    dereference of a missing next piece in the simulator. */
module Motion {
  import opened Wrappers
  import opened RouteBase
  import opened Segments

  /** Where an aircraft is: distance on and direction of travel on the
      element `current`, and the itinerary from that element on. */
  datatype Position = Position(dist: real, direction: bool, current: RouteId,
                               taxiRoutes: seq<string>)

  /** Arena and position after `ComputePosition`. */
  datatype Moved = Moved(routes: seq<Route>, pos: Position)

  /** What one leg of `ComputePosition` does on the element the aircraft is
      on: it stays on it (`Stay`), it dereferences a missing next piece
      (`Broken`), or it enters the next element with `residual` left to
      travel (`Enter`). */
  datatype Leg =
    | Stay(routes: seq<Route>, pos: Position)
    | Broken
    | Enter(routes: seq<Route>, pos: Position, residual: real)

  /** The bound of the current element: where it is left for the next
      element of the itinerary, or its far end on the last leg. */
  function Bound(r: Route, pos: Position): real
    requires |pos.taxiRoutes| >= 1
  {
    if |pos.taxiRoutes| > 1 then
      (if pos.taxiRoutes[1] in r.connections then r.connections[pos.taxiRoutes[1]].distanceToBreakOut
       else 0.0)
    else if pos.direction then r.length else 0.0
  }

  /** Short of the bound in the direction of travel. */
  predicate Short(newDist: real, bound: real, direction: bool)
  {
    if direction then newDist < bound else newDist > bound
  }

  /** The distance after travelling `delta` in the direction of travel. */
  function Moving(pos: Position, delta: real): real
  {
    pos.dist + (if pos.direction then delta else -delta)
  }

  /** One leg: the aircraft stays on its element, on the same itinerary,
      unless it reaches the end of its last leg (then the itinerary is
      emptied) or enters the next element of the itinerary. */
  function LegOf(routes: seq<Route>, aircraft: AircraftId, pos: Position, delta: real): (l: Leg)
    requires pos.current < |routes| && |pos.taxiRoutes| >= 1
    ensures l.Stay? ==> (|l.routes| == |routes| && l.pos.current == pos.current
                         && (l.pos.taxiRoutes == pos.taxiRoutes || l.pos.taxiRoutes == []))
    ensures l.Enter? ==> (|l.routes| == |routes| && l.pos.current < |routes|
                          && |pos.taxiRoutes| > 1 && l.pos.taxiRoutes == pos.taxiRoutes[1..])
  {
    var newDist := Moving(pos, delta);
    var cur := routes[pos.current];
    if |pos.taxiRoutes| == 1 then
      var bound := if pos.direction then cur.length else 0.0;
      if Short(newDist, bound, pos.direction) then Stay(routes, pos.(dist := newDist))
      else Stay(routes, pos.(dist := bound, taxiRoutes := []))
    else
      var got := GetConnectionInfo(cur.connections, pos.taxiRoutes[1]);
      var info := got.0;
      var routes1 := routes[pos.current := cur.(connections := got.1)];
      var bound := info.distanceToBreakOut;
      if Short(newDist, bound, pos.direction) then Stay(routes1, pos.(dist := newDist))
      else if info.directionAllowedToEnterNextRoute != pos.direction then Stay(routes1, pos)
      else if info.nextPiece.None? || info.nextPiece.value >= |routes| then Broken
      else
        var residual := if pos.direction then newDist - bound else bound - newDist;
        var next := info.nextPiece.value;
        var routes2 := routes1[pos.current := ClearAircraft(routes1[pos.current], aircraft)];
        var routes3 := routes2[next := InsertAircraft(routes2[next], aircraft)];
        Enter(routes3, Position(info.distanceToBreakIn, info.positiveEnteringNextPiece, next,
                                pos.taxiRoutes[1..]),
              residual)
  }

  /** `RouteBase::ComputePosition` on the element the aircraft is on, for
      a travelled distance `delta`: legs are taken until the aircraft stays
      on an element. */
  function Advance(routes: seq<Route>, aircraft: AircraftId, pos: Position, delta: real)
    : (res: Option<Moved>)
    requires pos.current < |routes|
    ensures res.Some? ==> |res.value.routes| == |routes| && res.value.pos.current < |routes|
    decreases |pos.taxiRoutes|
  {
    if |pos.taxiRoutes| == 0 then Some(Moved(routes, pos))
    else
      var l := LegOf(routes, aircraft, pos, delta);
      if l.Stay? then Some(Moved(l.routes, l.pos))
      else if l.Broken? then None
      else Advance(l.routes, aircraft, l.pos, l.residual)
  }

  /** The itinerary left after `Advance` is a suffix of the one it
      started with: elements are only ever dropped from its front. */
  lemma {:induction false} AdvanceKeepsSuffix(routes: seq<Route>, aircraft: AircraftId,
                                              pos: Position, delta: real)
    requires pos.current < |routes|
    requires Advance(routes, aircraft, pos, delta).Some?
    ensures var t := Advance(routes, aircraft, pos, delta).value.pos.taxiRoutes;
            |t| <= |pos.taxiRoutes| && t == pos.taxiRoutes[|pos.taxiRoutes| - |t|..]
    decreases |pos.taxiRoutes|
  {
    if |pos.taxiRoutes| >= 1 {
      var l := LegOf(routes, aircraft, pos, delta);
      if l.Enter? {
        AdvanceKeepsSuffix(l.routes, aircraft, l.pos, l.residual);
        var t := Advance(l.routes, aircraft, l.pos, l.residual).value.pos.taxiRoutes;
        assert pos.taxiRoutes[1..][|pos.taxiRoutes| - 1 - |t|..]
               == pos.taxiRoutes[|pos.taxiRoutes| - |t|..];
      }
    }
  }

  /** With an empty itinerary nothing changes. */
  lemma AdvanceEmpty(routes: seq<Route>, aircraft: AircraftId, pos: Position, delta: real)
    requires pos.current < |routes| && pos.taxiRoutes == []
    ensures Advance(routes, aircraft, pos, delta) == Some(Moved(routes, pos))
  {
  }

  /** Strictly short of the bound, only the distance moves, by delta in
      the direction of travel. */
  lemma AdvanceInside(routes: seq<Route>, aircraft: AircraftId, pos: Position, delta: real)
    requires pos.current < |routes| && |pos.taxiRoutes| >= 1
    requires |pos.taxiRoutes| > 1 ==> pos.taxiRoutes[1] in routes[pos.current].connections
    requires Short(Moving(pos, delta), Bound(routes[pos.current], pos), pos.direction)
    ensures Advance(routes, aircraft, pos, delta)
            == Some(Moved(routes, pos.(dist := pos.dist + (if pos.direction then delta else -delta))))
  {
    var cur := routes[pos.current];
    if |pos.taxiRoutes| > 1 {
      assert routes[pos.current := cur.(connections := cur.connections)] == routes;
    }
  }

  /** On the last leg, reaching or passing the far end stops the aircraft
      exactly at the end and empties the itinerary. */
  lemma AdvanceLastLeg(routes: seq<Route>, aircraft: AircraftId, pos: Position, delta: real)
    requires pos.current < |routes| && |pos.taxiRoutes| == 1
    requires var newDist := pos.dist + (if pos.direction then delta else -delta);
             if pos.direction then newDist >= routes[pos.current].length else newDist <= 0.0
    ensures Advance(routes, aircraft, pos, delta)
            == Some(Moved(routes, pos.(dist := if pos.direction then routes[pos.current].length
                                              else 0.0,
                                       taxiRoutes := [])))
  {
    assert LegOf(routes, aircraft, pos, delta)
           == Stay(routes, pos.(dist := if pos.direction then routes[pos.current].length else 0.0,
                                taxiRoutes := []));
  }

  /** Reaching the break-out point travelling in a direction the
      connection does not allow changes nothing. */
  lemma AdvanceWrongDirection(routes: seq<Route>, aircraft: AircraftId, pos: Position,
                              delta: real)
    requires pos.current < |routes| && |pos.taxiRoutes| > 1
    requires pos.taxiRoutes[1] in routes[pos.current].connections
    requires var info := routes[pos.current].connections[pos.taxiRoutes[1]];
             !Short(Moving(pos, delta), info.distanceToBreakOut, pos.direction)
             && info.directionAllowedToEnterNextRoute != pos.direction
    ensures Advance(routes, aircraft, pos, delta) == Some(Moved(routes, pos))
  {
    var cur := routes[pos.current];
    assert routes[pos.current := cur.(connections := cur.connections)] == routes;
  }

  /** Passing the break-out point in the allowed direction moves the
      aircraft out of the current element and into the next one, drops the
      current element from the itinerary, takes the entering direction of
      the connection, and goes on from the break-in point with what is left
      of delta beyond the break-out point. */
  lemma AdvanceTransfer(routes: seq<Route>, aircraft: AircraftId, pos: Position, delta: real)
    requires pos.current < |routes| && |pos.taxiRoutes| > 1
    requires pos.taxiRoutes[1] in routes[pos.current].connections
    requires var info := routes[pos.current].connections[pos.taxiRoutes[1]];
             !Short(Moving(pos, delta), info.distanceToBreakOut, pos.direction)
             && info.directionAllowedToEnterNextRoute == pos.direction
             && info.nextPiece.Some? && info.nextPiece.value < |routes|
    ensures var info := routes[pos.current].connections[pos.taxiRoutes[1]];
            var next := info.nextPiece.value;
            var residual := if pos.direction then pos.dist + delta - info.distanceToBreakOut
                            else info.distanceToBreakOut - (pos.dist - delta);
            var left := routes[pos.current := ClearAircraft(routes[pos.current], aircraft)];
            var moved := left[next := InsertAircraft(left[next], aircraft)];
            residual >= 0.0
            && Advance(routes, aircraft, pos, delta)
               == Advance(moved, aircraft,
                          Position(info.distanceToBreakIn, info.positiveEnteringNextPiece, next,
                                   pos.taxiRoutes[1..]),
                          residual)
  {
    TransferLeg(routes, aircraft, pos, delta);
  }

  /** The leg taken in `AdvanceTransfer`. */
  lemma TransferLeg(routes: seq<Route>, aircraft: AircraftId, pos: Position, delta: real)
    requires pos.current < |routes| && |pos.taxiRoutes| > 1
    requires pos.taxiRoutes[1] in routes[pos.current].connections
    requires var info := routes[pos.current].connections[pos.taxiRoutes[1]];
             !Short(Moving(pos, delta), info.distanceToBreakOut, pos.direction)
             && info.directionAllowedToEnterNextRoute == pos.direction
             && info.nextPiece.Some? && info.nextPiece.value < |routes|
    ensures var info := routes[pos.current].connections[pos.taxiRoutes[1]];
            var next := info.nextPiece.value;
            var residual := if pos.direction then pos.dist + delta - info.distanceToBreakOut
                            else info.distanceToBreakOut - (pos.dist - delta);
            var left := routes[pos.current := ClearAircraft(routes[pos.current], aircraft)];
            residual >= 0.0
            && LegOf(routes, aircraft, pos, delta)
               == Enter(left[next := InsertAircraft(left[next], aircraft)],
                        Position(info.distanceToBreakIn, info.positiveEnteringNextPiece, next,
                                 pos.taxiRoutes[1..]),
                        residual)
  {
    var cur := routes[pos.current];
    assert routes[pos.current := cur.(connections := cur.connections)] == routes;
  }

  /** Only the aircraft's own entries and, by default insertion, the
      connection records of an arena change: every other field of every
      element stays, records already stored stay, and the other aircraft
      stay where they are. */
  ghost predicate MovesOnly(before: seq<Route>, after: seq<Route>, aircraft: AircraftId)
  {
    |after| == |before|
    && forall r :: 0 <= r < |before| ==> RouteMovesOnly(before[r], after[r], aircraft)
  }

  ghost predicate RouteMovesOnly(before: Route, after: Route, aircraft: AircraftId)
  {
    after == before.(connections := after.connections, aircraftOnRoute := after.aircraftOnRoute)
    && (forall key :: key in before.connections ==>
          key in after.connections && after.connections[key] == before.connections[key])
    && (forall b :: b != aircraft ==> (b in after.aircraftOnRoute <==> b in before.aircraftOnRoute))
  }

  /** The aircraft is on element `current` and on no other. */
  ghost predicate OnlyOn(routes: seq<Route>, aircraft: AircraftId, current: RouteId)
  {
    current < |routes|
    && forall r :: 0 <= r < |routes| ==> (aircraft in routes[r].aircraftOnRoute <==> r == current)
  }

  /** One leg keeps the aircraft on exactly the element it is on after the
      leg, and moves nothing else. */
  lemma LegKeepsOccupancy(routes: seq<Route>, aircraft: AircraftId, pos: Position, delta: real)
    requires OnlyOn(routes, aircraft, pos.current) && |pos.taxiRoutes| >= 1
    ensures var l := LegOf(routes, aircraft, pos, delta);
            (l.Stay? || l.Enter?) ==>
              OnlyOn(l.routes, aircraft, l.pos.current) && MovesOnly(routes, l.routes, aircraft)
  {
  }

  /** However far it goes, an aircraft that is on exactly its current
      element stays on exactly its (new) current element, and no other
      aircraft and no other field of any element moves. */
  lemma {:induction false} AdvanceKeepsOccupancy(routes: seq<Route>, aircraft: AircraftId,
                                                 pos: Position, delta: real)
    requires OnlyOn(routes, aircraft, pos.current)
    requires Advance(routes, aircraft, pos, delta).Some?
    ensures var m := Advance(routes, aircraft, pos, delta).value;
            OnlyOn(m.routes, aircraft, m.pos.current) && MovesOnly(routes, m.routes, aircraft)
    decreases |pos.taxiRoutes|
  {
    if |pos.taxiRoutes| >= 1 {
      var l := LegOf(routes, aircraft, pos, delta);
      LegKeepsOccupancy(routes, aircraft, pos, delta);
      if l.Enter? {
        AdvanceKeepsOccupancy(l.routes, aircraft, l.pos, l.residual);
        MovesOnlyTransitive(routes, l.routes, Advance(l.routes, aircraft, l.pos, l.residual).value.routes,
                            aircraft);
      }
    }
  }

  lemma MovesOnlyTransitive(a: seq<Route>, b: seq<Route>, c: seq<Route>, aircraft: AircraftId)
    requires MovesOnly(a, b, aircraft) && MovesOnly(b, c, aircraft)
    ensures MovesOnly(a, c, aircraft)
  {
    forall r | 0 <= r < |a|
      ensures RouteMovesOnly(a[r], c[r], aircraft)
    {
      assert RouteMovesOnly(a[r], b[r], aircraft) && RouteMovesOnly(b[r], c[r], aircraft);
    }
  }

  // ---------------------------------------------------------------------
  // Look-ahead along the itinerary
  // ---------------------------------------------------------------------

  /** The part of the current element the scan looks at: between the
      distance on it and the end distance, whichever the direction. */
  predicate InWindow(x: real, dist: real, endDist: real, direction: bool)
  {
    var low := if direction then Min(dist, endDist) else Max(dist, endDist);
    var up := if direction then Max(dist, endDist) else Min(dist, endDist);
    Min(low, up) <= x <= Max(up, low)
  }

  /** The window is the interval between the two distances, whatever the
      direction: the min/max pairs of the simulator agree. */
  lemma InWindowInterval(x: real, dist: real, endDist: real, direction: bool)
    ensures InWindow(x, dist, endDist, direction) <==> Min(dist, endDist) <= x <= Max(dist, endDist)
  {
  }

  /** The closest hit so far in the aircraft scan of one element. */
  datatype Hit = Hit(aircraft: AircraftId, distance: real)

  /** The occupants `occ[k..]` of one element scanned for the closest
      aircraft in the window: the querying aircraft is skipped, and an
      occupant becomes the candidate when its distance from the querying
      aircraft plus what has been accumulated so far is strictly below the
      best so far (`minDist`, starting at the search distance). */
  function NearestFrom(occ: seq<AircraftId>, positions: map<AircraftId, real>, me: AircraftId,
                       dist: real, endDist: real, direction: bool, res: real, k: nat,
                       best: Option<Hit>, minDist: real): Option<Hit>
    requires forall a :: a in occ ==> a in positions
    decreases |occ| - k
  {
    if k >= |occ| then best
    else
      var a := occ[k];
      if a == me || !InWindow(positions[a], dist, endDist, direction)
      then NearestFrom(occ, positions, me, dist, endDist, direction, res, k + 1, best, minDist)
      else
        var t := Abs(positions[a] - dist) + res;
        if t < minDist
        then NearestFrom(occ, positions, me, dist, endDist, direction, res, k + 1, Some(Hit(a, t)), t)
        else NearestFrom(occ, positions, me, dist, endDist, direction, res, k + 1, best, minDist)
  }

  /** An occupant other than the querying aircraft, inside the window. */
  predicate Candidate(positions: map<AircraftId, real>, me: AircraftId, a: AircraftId,
                      dist: real, endDist: real, direction: bool)
  {
    a != me && a in positions && InWindow(positions[a], dist, endDist, direction)
  }

  /** The element scan finds the closest other occupant in the window, if
      one is strictly closer than the search distance: never the querying
      aircraft, at the reported distance, and at least as close as every
      other candidate; and it finds none only when no candidate is closer
      than the search distance. */
  lemma {:induction false} NearestFromSpec(occ: seq<AircraftId>, positions: map<AircraftId, real>,
                                           me: AircraftId, dist: real, endDist: real,
                                           direction: bool, res: real, k: nat,
                                           best: Option<Hit>, minDist: real)
    requires forall a :: a in occ ==> a in positions
    requires k <= |occ|
    requires best.Some? ==> (best.value.distance == minDist && best.value.aircraft in occ
                             && Candidate(positions, me, best.value.aircraft, dist, endDist, direction)
                             && minDist == Abs(positions[best.value.aircraft] - dist) + res)
    requires forall j :: 0 <= j < k && Candidate(positions, me, occ[j], dist, endDist, direction)
               ==> minDist <= Abs(positions[occ[j]] - dist) + res
    ensures var h := NearestFrom(occ, positions, me, dist, endDist, direction, res, k, best, minDist);
            (h.Some? ==>
               (h.value.aircraft in occ && h.value.distance <= minDist
                && (best.None? ==> h.value.distance < minDist)
                && Candidate(positions, me, h.value.aircraft, dist, endDist, direction)
                && h.value.distance == Abs(positions[h.value.aircraft] - dist) + res
                && forall j :: 0 <= j < |occ|
                     && Candidate(positions, me, occ[j], dist, endDist, direction)
                     ==> h.value.distance <= Abs(positions[occ[j]] - dist) + res))
            && (h.None? ==>
                  (best.None?
                   && forall j :: 0 <= j < |occ|
                        && Candidate(positions, me, occ[j], dist, endDist, direction)
                        ==> minDist <= Abs(positions[occ[j]] - dist) + res))
  {
    NearestFromHit(occ, positions, me, dist, endDist, direction, res, k, best, minDist);
    NearestFromLeast(occ, positions, me, dist, endDist, direction, res, k, best, minDist);
  }

  /** What the scan reports is a candidate at its own distance, no farther
      than the best so far, and strictly closer when there was none; it
      reports nothing only when there was no best so far. */
  lemma {:induction false} NearestFromHit(occ: seq<AircraftId>, positions: map<AircraftId, real>,
                                          me: AircraftId, dist: real, endDist: real,
                                          direction: bool, res: real, k: nat,
                                          best: Option<Hit>, minDist: real)
    requires forall a :: a in occ ==> a in positions
    requires best.Some? ==> (best.value.distance == minDist && best.value.aircraft in occ
                             && Candidate(positions, me, best.value.aircraft, dist, endDist, direction)
                             && minDist == Abs(positions[best.value.aircraft] - dist) + res)
    ensures var h := NearestFrom(occ, positions, me, dist, endDist, direction, res, k, best, minDist);
            (h.Some? ==>
               h.value.aircraft in occ && h.value.distance <= minDist
               && (best.None? ==> h.value.distance < minDist)
               && Candidate(positions, me, h.value.aircraft, dist, endDist, direction)
               && h.value.distance == Abs(positions[h.value.aircraft] - dist) + res)
            && (h.None? ==> best.None?)
    decreases |occ| - k
  {
    if k < |occ| {
      var a := occ[k];
      if a == me || !InWindow(positions[a], dist, endDist, direction) {
        NearestFromHit(occ, positions, me, dist, endDist, direction, res, k + 1, best, minDist);
      } else {
        var t := Abs(positions[a] - dist) + res;
        if t < minDist {
          NearestFromHit(occ, positions, me, dist, endDist, direction, res, k + 1,
                         Some(Hit(a, t)), t);
        } else {
          NearestFromHit(occ, positions, me, dist, endDist, direction, res, k + 1, best, minDist);
        }
      }
    }
  }

  /** What the scan reports is at least as close as every candidate, and
      when it reports nothing no candidate is closer than the search
      distance. */
  lemma {:induction false} NearestFromLeast(occ: seq<AircraftId>, positions: map<AircraftId, real>,
                                            me: AircraftId, dist: real, endDist: real,
                                            direction: bool, res: real, k: nat,
                                            best: Option<Hit>, minDist: real)
    requires forall a :: a in occ ==> a in positions
    requires k <= |occ|
    requires best.Some? ==> (best.value.distance == minDist && best.value.aircraft in occ
                             && Candidate(positions, me, best.value.aircraft, dist, endDist, direction)
                             && minDist == Abs(positions[best.value.aircraft] - dist) + res)
    requires forall j :: 0 <= j < k && Candidate(positions, me, occ[j], dist, endDist, direction)
               ==> minDist <= Abs(positions[occ[j]] - dist) + res
    ensures var h := NearestFrom(occ, positions, me, dist, endDist, direction, res, k, best, minDist);
            (h.Some? ==>
               forall j :: 0 <= j < |occ| && Candidate(positions, me, occ[j], dist, endDist, direction)
                 ==> h.value.distance <= Abs(positions[occ[j]] - dist) + res)
            && (h.None? ==>
                  forall j :: 0 <= j < |occ| && Candidate(positions, me, occ[j], dist, endDist, direction)
                    ==> minDist <= Abs(positions[occ[j]] - dist) + res)
    decreases |occ| - k
  {
    if k < |occ| {
      var a := occ[k];
      var h := NearestFrom(occ, positions, me, dist, endDist, direction, res, k, best, minDist);
      if a == me || !InWindow(positions[a], dist, endDist, direction) {
        assert h == NearestFrom(occ, positions, me, dist, endDist, direction, res, k + 1, best,
                                minDist);
        NearestFromLeast(occ, positions, me, dist, endDist, direction, res, k + 1, best, minDist);
      } else {
        var t := Abs(positions[a] - dist) + res;
        if t < minDist {
          assert h == NearestFrom(occ, positions, me, dist, endDist, direction, res, k + 1,
                                  Some(Hit(a, t)), t);
          NearestFromHit(occ, positions, me, dist, endDist, direction, res, k + 1,
                         Some(Hit(a, t)), t);
          NearestFromLeast(occ, positions, me, dist, endDist, direction, res, k + 1,
                           Some(Hit(a, t)), t);
        } else {
          assert h == NearestFrom(occ, positions, me, dist, endDist, direction, res, k + 1, best,
                                  minDist);
          NearestFromLeast(occ, positions, me, dist, endDist, direction, res, k + 1, best, minDist);
        }
      }
    } else {
      NearestFromHit(occ, positions, me, dist, endDist, direction, res, k, best, minDist);
    }
  }

  /** Every occupant of every element has a distance on its element. */
  ghost predicate Placed(routes: seq<Route>, positions: map<AircraftId, real>)
  {
    forall r, a :: 0 <= r < |routes| && a in routes[r].aircraftOnRoute ==> a in positions
  }

  /** What `ClosestAircraftInWay` leaves behind: the arena (with default
      records inserted), the aircraft found if any, and the search distance
      (lowered to the distance of the aircraft found). */
  datatype Closest = Closest(routes: seq<Route>, found: Option<AircraftId>, searchDist: real)

  /** The scan of `ClosestAircraftInWay` from the `i`-th element of the
      itinerary on, standing on element `current` at `dist` travelling in
      `direction`, with `res` accumulated so far. */
  function ClosestFrom(routes: seq<Route>, positions: map<AircraftId, real>, me: AircraftId,
                       taxiRoutes: seq<string>, i: nat, current: RouteId, direction: bool,
                       dist: real, res: real, searchDist: real): (c: Option<Closest>)
    requires current < |routes| && Placed(routes, positions)
    ensures c.Some? ==> |c.value.routes| == |routes|
    decreases |taxiRoutes| - i
  {
    if i >= |taxiRoutes| then Some(Closest(routes, None, searchDist))
    else
      var last := i + 1 >= |taxiRoutes|;
      var got := GetConnectionInfo(routes[current].connections,
                                   if last then "" else taxiRoutes[i + 1]);
      var info := got.0;
      var routes1 := routes[current := routes[current].(connections := got.1)];
      var endDist := if !last then info.distanceToBreakOut
                     else if direction then routes[current].length else 0.0;
      var hit := NearestFrom(routes[current].aircraftOnRoute, positions, me, dist, endDist,
                             direction, res, 0, None, searchDist);
      if hit.Some? then Some(Closest(routes1, Some(hit.value.aircraft), hit.value.distance))
      else
        var res' := res + Abs(endDist - dist);
        if res' >= searchDist || last then Some(Closest(routes1, None, searchDist))
        else if info.nextPiece.None? || info.nextPiece.value >= |routes| then None
        else
          assert Placed(routes1, positions);
          ClosestFrom(routes1, positions, me, taxiRoutes, i + 1, info.nextPiece.value,
                      info.positiveEnteringNextPiece, info.distanceToBreakIn, res', searchDist)
  }

  /** `RouteBase::ClosestAircraftInWay` called on the element `start` the
      querying aircraft `me` is on. */
  function ClosestAircraftInWay(routes: seq<Route>, positions: map<AircraftId, real>,
                                me: AircraftId, taxiRoutes: seq<string>, start: RouteId,
                                searchDist: real, direction: bool, dist: real)
    : Option<Closest>
    requires start < |routes| && Placed(routes, positions)
  {
    ClosestFrom(routes, positions, me, taxiRoutes, 0, start, direction, dist, 0.0, searchDist)
  }

  /** The aircraft found is never the querying one, is an occupant of an
      element of the arena, and the search distance is lowered strictly
      (`ClosestFromFirst` says to what); when nothing is found the search
      distance is kept. */
  lemma {:induction false} ClosestFromSpec(routes: seq<Route>, positions: map<AircraftId, real>,
                                           me: AircraftId, taxiRoutes: seq<string>, i: nat,
                                           current: RouteId, direction: bool, dist: real,
                                           res: real, searchDist: real)
    requires current < |routes| && Placed(routes, positions)
    requires ClosestFrom(routes, positions, me, taxiRoutes, i, current, direction, dist, res,
                         searchDist).Some?
    ensures var c := ClosestFrom(routes, positions, me, taxiRoutes, i, current, direction, dist,
                                 res, searchDist).value;
            (c.found.Some? ==>
               (c.found.value != me && c.searchDist < searchDist
                && exists r :: 0 <= r < |routes| && c.found.value in routes[r].aircraftOnRoute))
            && (c.found.None? ==> c.searchDist == searchDist)
    decreases |taxiRoutes| - i
  {
    if i < |taxiRoutes| {
      var last := i + 1 >= |taxiRoutes|;
      var got := GetConnectionInfo(routes[current].connections,
                                   if last then "" else taxiRoutes[i + 1]);
      var info := got.0;
      var routes1 := routes[current := routes[current].(connections := got.1)];
      var endDist := if !last then info.distanceToBreakOut
                     else if direction then routes[current].length else 0.0;
      var occ := routes[current].aircraftOnRoute;
      NearestFromSpec(occ, positions, me, dist, endDist, direction, res, 0, None, searchDist);
      var hit := NearestFrom(occ, positions, me, dist, endDist, direction, res, 0, None, searchDist);
      if hit.None? {
        var res' := res + Abs(endDist - dist);
        if !(res' >= searchDist || last) {
          assert Placed(routes1, positions);
          var next := info.nextPiece.value;
          ClosestFromSpec(routes1, positions, me, taxiRoutes, i + 1, next,
                          info.positiveEnteringNextPiece, info.distanceToBreakIn, res', searchDist);
          var c := ClosestFrom(routes1, positions, me, taxiRoutes, i + 1, next,
                               info.positiveEnteringNextPiece, info.distanceToBreakIn, res',
                               searchDist).value;
          if c.found.Some? {
            var r :| 0 <= r < |routes1| && c.found.value in routes1[r].aircraftOnRoute;
            assert routes1[r].aircraftOnRoute == routes[r].aircraftOnRoute;
          }
        }
      } else {
        assert hit.value.aircraft in routes[current].aircraftOnRoute;
      }
    }
  }

  /** The closest hold in the window so far: its type and its distance. */
  datatype HoldHit = HoldHit(holdType: HoldPointType, distance: real)

  /** The hold points `holds[k..]` kept for the direction of travel,
      scanned for the closest one in the window; a hold point replaces the
      candidate when it is strictly closer. */
  function NearestHoldFrom(holds: seq<HoldPoint>, dist: real, endDist: real, direction: bool,
                           k: nat, best: Option<HoldHit>): Option<HoldHit>
    decreases |holds| - k
  {
    if k >= |holds| then best
    else
      var p := holds[k];
      var d := Abs(dist - p.distanceOnRoute);
      if InWindow(p.distanceOnRoute, dist, endDist, direction)
         && (best.None? || d < best.value.distance)
      then NearestHoldFrom(holds, dist, endDist, direction, k + 1, Some(HoldHit(p.holdType, d)))
      else NearestHoldFrom(holds, dist, endDist, direction, k + 1, best)
  }

  /** The hold scan of one element finds a hold exactly when one lies in
      the window, reports the type of one at least as close as every hold
      in the window, and its distance. */
  lemma {:induction false} NearestHoldFromSpec(holds: seq<HoldPoint>, dist: real, endDist: real,
                                               direction: bool, k: nat, best: Option<HoldHit>)
    requires k <= |holds|
    requires best.Some? ==>
               exists j :: 0 <= j < k
                 && InWindow(holds[j].distanceOnRoute, dist, endDist, direction)
                 && holds[j].holdType == best.value.holdType
                 && Abs(dist - holds[j].distanceOnRoute) == best.value.distance
    requires best.None? ==> forall j :: 0 <= j < k ==>
               !InWindow(holds[j].distanceOnRoute, dist, endDist, direction)
    requires best.Some? ==>
               forall j :: 0 <= j < k
                 && InWindow(holds[j].distanceOnRoute, dist, endDist, direction)
                 ==> best.value.distance <= Abs(dist - holds[j].distanceOnRoute)
    ensures var h := NearestHoldFrom(holds, dist, endDist, direction, k, best);
            (h.None? <==> forall j :: 0 <= j < |holds| ==>
                            !InWindow(holds[j].distanceOnRoute, dist, endDist, direction))
            && (h.Some? ==>
                  (exists j :: 0 <= j < |holds|
                     && InWindow(holds[j].distanceOnRoute, dist, endDist, direction)
                     && holds[j].holdType == h.value.holdType
                     && Abs(dist - holds[j].distanceOnRoute) == h.value.distance)
                  && forall j :: 0 <= j < |holds|
                       && InWindow(holds[j].distanceOnRoute, dist, endDist, direction)
                       ==> h.value.distance <= Abs(dist - holds[j].distanceOnRoute))
    decreases |holds| - k
  {
    if k < |holds| {
      var p := holds[k];
      var d := Abs(dist - p.distanceOnRoute);
      if InWindow(p.distanceOnRoute, dist, endDist, direction)
         && (best.None? || d < best.value.distance) {
        NearestHoldFromSpec(holds, dist, endDist, direction, k + 1, Some(HoldHit(p.holdType, d)));
      } else {
        NearestHoldFromSpec(holds, dist, endDist, direction, k + 1, best);
      }
    }
  }

  /** What `GetDistanceToNextHold` leaves behind: the arena (with default
      records inserted), the distance returned, and the hold type out
      parameter. */
  datatype HoldScan = HoldScan(routes: seq<Route>, distance: real, holdType: HoldPointType)

  /** The scan of `GetDistanceToNextHold` from the `i`-th element of the
      itinerary on: the first element with a hold in its window ends the
      scan with the accumulated distance plus the distance to its closest
      hold; otherwise the distance of every element is accumulated and, at
      the end, the type is reset to NotSet only if nothing was accumulated. */
  function HoldFrom(routes: seq<Route>, taxiRoutes: seq<string>, i: nat, current: RouteId,
                    direction: bool, dist: real, res: real, holdType: HoldPointType)
    : (h: Option<HoldScan>)
    requires current < |routes|
    ensures h.Some? ==> |h.value.routes| == |routes|
    decreases |taxiRoutes| - i
  {
    if i >= |taxiRoutes| then
      Some(HoldScan(routes, res, if res == 0.0 then NotSet else holdType))
    else
      var last := i + 1 >= |taxiRoutes|;
      var got := GetConnectionInfo(routes[current].connections,
                                   if last then "" else taxiRoutes[i + 1]);
      var info := got.0;
      var routes1 := routes[current := routes[current].(connections := got.1)];
      var endDist := if !last then info.distanceToBreakOut
                     else if direction then routes[current].length else 0.0;
      var hit := NearestHoldFrom(GetHoldPoints(routes[current], direction), dist, endDist,
                                 direction, 0, None);
      if hit.Some? then Some(HoldScan(routes1, res + hit.value.distance, hit.value.holdType))
      else
        var res' := res + Abs(endDist - dist);
        if last then HoldFrom(routes1, taxiRoutes, i + 1, current, direction, dist, res', holdType)
        else if info.nextPiece.None? || info.nextPiece.value >= |routes| then None
        else HoldFrom(routes1, taxiRoutes, i + 1, info.nextPiece.value,
                      info.positiveEnteringNextPiece, info.distanceToBreakIn, res', holdType)
  }

  /** `RouteBase::GetDistanceToNextHold` called on the element `start` the
      aircraft is on. */
  function GetDistanceToNextHold(routes: seq<Route>, start: RouteId, taxiRoutes: seq<string>,
                                 dist: real, direction: bool, holdType: HoldPointType)
    : Option<HoldScan>
    requires start < |routes|
  {
    HoldFrom(routes, taxiRoutes, 0, start, direction, dist, 0.0, holdType)
  }

  /** Hold points of the arena all carry a type. */
  ghost predicate HoldsTyped(routes: seq<Route>)
  {
    forall r :: 0 <= r < |routes| ==> RouteHoldsTyped(routes[r])
  }

  ghost predicate RouteHoldsTyped(r: Route)
  {
    (forall k :: 0 <= k < |r.holdsPositive| ==> r.holdsPositive[k].holdType != NotSet)
    && (forall k :: 0 <= k < |r.holdsNegative| ==> r.holdsNegative[k].holdType != NotSet)
  }

  /** Replacing the connection records of an element keeps every hold
      point typed. */
  lemma TypedAfterConnections(routes: seq<Route>, current: RouteId,
                              connections: map<string, ConnectionInfo>)
    requires current < |routes| && HoldsTyped(routes)
    ensures HoldsTyped(routes[current := routes[current].(connections := connections)])
  {
    assert RouteHoldsTyped(routes[current]);
  }

  /** The distance returned is never below what was accumulated; when hold
      points all carry a type, the type comes out NotSet from a typed one
      only with a distance of 0; and with no itinerary at all the scan
      returns 0 and NotSet. */
  lemma HoldFromSpec(routes: seq<Route>, taxiRoutes: seq<string>, i: nat,
                     current: RouteId, direction: bool, dist: real, res: real,
                     holdType: HoldPointType)
    requires current < |routes| && res >= 0.0
    requires HoldFrom(routes, taxiRoutes, i, current, direction, dist, res, holdType).Some?
    ensures var h := HoldFrom(routes, taxiRoutes, i, current, direction, dist, res, holdType).value;
            h.distance >= res
            && (HoldsTyped(routes) && holdType != NotSet && h.holdType == NotSet ==> h.distance == 0.0)
            && (i >= |taxiRoutes| ==> h.distance == res && (h.holdType == NotSet <==> res == 0.0 || holdType == NotSet))
  {
    HoldFromAtLeast(routes, taxiRoutes, i, current, direction, dist, res, holdType);
    if HoldsTyped(routes) && holdType != NotSet {
      HoldFromTyped(routes, taxiRoutes, i, current, direction, dist, res, holdType);
    }
  }

  /** The distance only accumulates along the scan. */
  lemma {:induction false} HoldFromAtLeast(routes: seq<Route>, taxiRoutes: seq<string>, i: nat,
                                           current: RouteId, direction: bool, dist: real,
                                           res: real, holdType: HoldPointType)
    requires current < |routes| && res >= 0.0
    requires HoldFrom(routes, taxiRoutes, i, current, direction, dist, res, holdType).Some?
    ensures HoldFrom(routes, taxiRoutes, i, current, direction, dist, res, holdType).value.distance
            >= res
    decreases |taxiRoutes| - i
  {
    if i < |taxiRoutes| {
      var last := i + 1 >= |taxiRoutes|;
      var got := GetConnectionInfo(routes[current].connections,
                                   if last then "" else taxiRoutes[i + 1]);
      var info := got.0;
      var routes1 := routes[current := routes[current].(connections := got.1)];
      var endDist := if !last then info.distanceToBreakOut
                     else if direction then routes[current].length else 0.0;
      var holds := GetHoldPoints(routes[current], direction);
      NearestHoldFromSpec(holds, dist, endDist, direction, 0, None);
      var hit := NearestHoldFrom(holds, dist, endDist, direction, 0, None);
      if hit.None? {
        var res' := res + Abs(endDist - dist);
        if last {
          HoldFromAtLeast(routes1, taxiRoutes, i + 1, current, direction, dist, res', holdType);
        } else {
          HoldFromAtLeast(routes1, taxiRoutes, i + 1, info.nextPiece.value,
                          info.positiveEnteringNextPiece, info.distanceToBreakIn, res', holdType);
        }
      }
    }
  }

  /** With typed hold points and a typed starting type, NotSet comes out
      only together with a distance of 0. */
  lemma {:induction false} HoldFromTyped(routes: seq<Route>, taxiRoutes: seq<string>, i: nat,
                                         current: RouteId, direction: bool, dist: real,
                                         res: real, holdType: HoldPointType)
    requires current < |routes| && HoldsTyped(routes) && holdType != NotSet
    requires HoldFrom(routes, taxiRoutes, i, current, direction, dist, res, holdType).Some?
    ensures var h := HoldFrom(routes, taxiRoutes, i, current, direction, dist, res, holdType).value;
            h.holdType == NotSet ==> h.distance == 0.0
    decreases |taxiRoutes| - i
  {
    if i < |taxiRoutes| {
      var last := i + 1 >= |taxiRoutes|;
      var got := GetConnectionInfo(routes[current].connections,
                                   if last then "" else taxiRoutes[i + 1]);
      var info := got.0;
      var routes1 := routes[current := routes[current].(connections := got.1)];
      var endDist := if !last then info.distanceToBreakOut
                     else if direction then routes[current].length else 0.0;
      var holds := GetHoldPoints(routes[current], direction);
      NearestHoldFromSpec(holds, dist, endDist, direction, 0, None);
      var hit := NearestHoldFrom(holds, dist, endDist, direction, 0, None);
      TypedAfterConnections(routes, current, got.1);
      if hit.Some? {
        assert RouteHoldsTyped(routes[current]);
      } else {
        var res' := res + Abs(endDist - dist);
        if last {
          HoldFromTyped(routes1, taxiRoutes, i + 1, current, direction, dist, res', holdType);
        } else {
          HoldFromTyped(routes1, taxiRoutes, i + 1, info.nextPiece.value,
                        info.positiveEnteringNextPiece, info.distanceToBreakIn, res', holdType);
        }
      }
    }
  }

  // ---------------------------------------------------------------------
  // The scans only read, apart from default insertion
  // ---------------------------------------------------------------------

  /** Only connection records are added under new names: nothing else of
      any element changes. */
  ghost predicate ConnectionsGrow(before: seq<Route>, after: seq<Route>)
  {
    |after| == |before|
    && forall r :: 0 <= r < |before| ==> RouteConnectionsGrow(before[r], after[r])
  }

  ghost predicate RouteConnectionsGrow(before: Route, after: Route)
  {
    after == before.(connections := after.connections)
    && (forall key :: key in before.connections ==>
          key in after.connections && after.connections[key] == before.connections[key])
    && forall key :: key in after.connections && key !in before.connections ==>
         after.connections[key] == ZeroConnection
  }

  /** A lookup reads the same record before and after records were added:
      a name looked up for the first time reads the zero record either
      way. */
  lemma GrowsKeepsLookups(before: seq<Route>, after: seq<Route>, r: RouteId, name: string)
    requires ConnectionsGrow(before, after) && r < |before|
    ensures GetConnectionInfo(after[r].connections, name).0
            == GetConnectionInfo(before[r].connections, name).0
  {
    assert RouteConnectionsGrow(before[r], after[r]);
  }

  lemma ConnectionsGrowTransitive(a: seq<Route>, b: seq<Route>, c: seq<Route>)
    requires ConnectionsGrow(a, b) && ConnectionsGrow(b, c)
    ensures ConnectionsGrow(a, c)
  {
    forall r | 0 <= r < |a|
      ensures RouteConnectionsGrow(a[r], c[r])
    {
      assert RouteConnectionsGrow(a[r], b[r]) && RouteConnectionsGrow(b[r], c[r]);
    }
  }

  /** One default-inserting lookup on element `current`. */
  lemma DefaultInsertGrows(routes: seq<Route>, current: RouteId, name: string)
    requires current < |routes|
    ensures ConnectionsGrow(routes, routes[current := routes[current].(connections :=
              GetConnectionInfo(routes[current].connections, name).1)])
  {
  }

  /** The aircraft scan changes nothing but connection records. */
  lemma {:induction false} ClosestFromGrows(routes: seq<Route>, positions: map<AircraftId, real>,
                                            me: AircraftId, taxiRoutes: seq<string>, i: nat,
                                            current: RouteId, direction: bool, dist: real,
                                            res: real, searchDist: real)
    requires current < |routes| && Placed(routes, positions)
    requires ClosestFrom(routes, positions, me, taxiRoutes, i, current, direction, dist, res,
                         searchDist).Some?
    ensures ConnectionsGrow(routes, ClosestFrom(routes, positions, me, taxiRoutes, i, current,
                                                direction, dist, res, searchDist).value.routes)
    decreases |taxiRoutes| - i
  {
    if i < |taxiRoutes| {
      var last := i + 1 >= |taxiRoutes|;
      var name := if last then "" else taxiRoutes[i + 1];
      var got := GetConnectionInfo(routes[current].connections, name);
      var info := got.0;
      var routes1 := routes[current := routes[current].(connections := got.1)];
      DefaultInsertGrows(routes, current, name);
      var endDist := if !last then info.distanceToBreakOut
                     else if direction then routes[current].length else 0.0;
      var hit := NearestFrom(routes[current].aircraftOnRoute, positions, me, dist, endDist,
                             direction, res, 0, None, searchDist);
      var res' := res + Abs(endDist - dist);
      if hit.None? && !(res' >= searchDist || last) {
        assert Placed(routes1, positions);
        var rest := ClosestFrom(routes1, positions, me, taxiRoutes, i + 1, info.nextPiece.value,
                                info.positiveEnteringNextPiece, info.distanceToBreakIn, res',
                                searchDist);
        assert rest == ClosestFrom(routes, positions, me, taxiRoutes, i, current, direction, dist,
                                   res, searchDist);
        ClosestFromGrows(routes1, positions, me, taxiRoutes, i + 1, info.nextPiece.value,
                         info.positiveEnteringNextPiece, info.distanceToBreakIn, res', searchDist);
        ConnectionsGrowTransitive(routes, routes1, rest.value.routes);
      }
    } else {
      assert ConnectionsGrow(routes, routes);
    }
  }

  /** The hold scan changes nothing but connection records. */
  lemma {:induction false} HoldFromGrows(routes: seq<Route>, taxiRoutes: seq<string>, i: nat,
                                         current: RouteId, direction: bool, dist: real, res: real,
                                         holdType: HoldPointType)
    requires current < |routes|
    requires HoldFrom(routes, taxiRoutes, i, current, direction, dist, res, holdType).Some?
    ensures ConnectionsGrow(routes, HoldFrom(routes, taxiRoutes, i, current, direction, dist,
                                             res, holdType).value.routes)
    decreases |taxiRoutes| - i
  {
    if i < |taxiRoutes| {
      var last := i + 1 >= |taxiRoutes|;
      var name := if last then "" else taxiRoutes[i + 1];
      var got := GetConnectionInfo(routes[current].connections, name);
      var info := got.0;
      var routes1 := routes[current := routes[current].(connections := got.1)];
      DefaultInsertGrows(routes, current, name);
      var endDist := if !last then info.distanceToBreakOut
                     else if direction then routes[current].length else 0.0;
      var hit := NearestHoldFrom(GetHoldPoints(routes[current], direction), dist, endDist,
                                 direction, 0, None);
      var res' := res + Abs(endDist - dist);
      if hit.None? {
        var next := if last then current else info.nextPiece.value;
        var dir' := if last then direction else info.positiveEnteringNextPiece;
        var dist' := if last then dist else info.distanceToBreakIn;
        HoldFromGrows(routes1, taxiRoutes, i + 1, next, dir', dist', res', holdType);
        ConnectionsGrowTransitive(routes, routes1,
          HoldFrom(routes1, taxiRoutes, i + 1, next, dir', dist', res', holdType).value.routes);
      }
    } else {
      assert ConnectionsGrow(routes, routes);
    }
  }

  // ---------------------------------------------------------------------
  // The itinerary walked, and what the scans find along it
  // ---------------------------------------------------------------------

  /** One element of the itinerary as the look-ahead scans see it: the
      element, the direction of travel on it, the distance a scan starts
      from and the one it ends at, and the distance accumulated before it. */
  datatype Span = Span(element: RouteId, direction: bool, dist: real, endDist: real, res: real)

  /** The walk along an itinerary; `broken` tells that it stopped at a
      missing next piece. */
  datatype Walked = Walked(spans: seq<Span>, broken: bool)

  /** The elements of the itinerary from its `i`-th name on, walked from
      element `current` at `dist` in `direction` with `res` accumulated, in
      the arena the scans see (a name looked up for the first time gets a
      zero record): each element is left at its break-out point toward the
      next name and the next is entered at its break-in point, the last
      one is followed to its end, and what each element covers is added
      up. */
  function Walk(routes: seq<Route>, taxiRoutes: seq<string>, i: nat, current: RouteId,
                direction: bool, dist: real, res: real): (w: Walked)
    requires current < |routes|
    ensures forall k :: 0 <= k < |w.spans| ==> w.spans[k].element < |routes| && w.spans[k].res >= res
    ensures |w.spans| > 0 ==> w.spans[0].element == current && w.spans[0].res == res
    decreases |taxiRoutes| - i
  {
    if i >= |taxiRoutes| then Walked([], false)
    else
      var last := i + 1 >= |taxiRoutes|;
      var got := GetConnectionInfo(routes[current].connections,
                                   if last then "" else taxiRoutes[i + 1]);
      var info := got.0;
      var routes1 := routes[current := routes[current].(connections := got.1)];
      var endDist := if !last then info.distanceToBreakOut
                     else if direction then routes[current].length else 0.0;
      var span := Span(current, direction, dist, endDist, res);
      if last then Walked([span], false)
      else if info.nextPiece.None? || info.nextPiece.value >= |routes| then Walked([span], true)
      else
        var rest := Walk(routes1, taxiRoutes, i + 1, info.nextPiece.value,
                         info.positiveEnteringNextPiece, info.distanceToBreakIn,
                         res + Abs(endDist - dist));
        Walked([span] + rest.spans, rest.broken)
  }

  /** The distance the spans cover. */
  function Covered(spans: seq<Span>): real
  {
    if |spans| == 0 then 0.0 else Abs(spans[0].endDist - spans[0].dist) + Covered(spans[1..])
  }

  /** A point in the window is no farther from the start of the window than
      its end. */
  lemma WindowBound(x: real, dist: real, endDist: real, direction: bool)
    requires InWindow(x, dist, endDist, direction)
    ensures Abs(x - dist) <= Abs(endDist - dist)
  {
  }

  /** No occupant of the span's element other than the querying aircraft
      lies in the span's window. */
  ghost predicate NoCandidate(routes: seq<Route>, positions: map<AircraftId, real>,
                              me: AircraftId, s: Span)
  {
    s.element < |routes|
    && forall j :: 0 <= j < |routes[s.element].aircraftOnRoute| ==>
         !Candidate(positions, me, routes[s.element].aircraftOnRoute[j], s.dist, s.endDist,
                    s.direction)
  }

  /** Span k is the first span with another aircraft in its window. */
  ghost predicate FirstWithCandidate(routes: seq<Route>, positions: map<AircraftId, real>,
                                     me: AircraftId, spans: seq<Span>, k: int)
  {
    0 <= k < |spans| && spans[k].element < |routes|
    && (forall j :: 0 <= j < k ==> NoCandidate(routes, positions, me, spans[j]))
    && !NoCandidate(routes, positions, me, spans[k])
  }

  /** What the aircraft scan reports about the span: the aircraft found is
      another occupant in the window, the search distance becomes its
      distance in the span plus what was accumulated before, below the
      search distance given and no farther than any other candidate; when
      it finds none, no candidate is closer than the search distance. */
  ghost predicate DecidedAt(routes: seq<Route>, positions: map<AircraftId, real>,
                            me: AircraftId, s: Span, searchDist: real, c: Closest)
    requires s.element < |routes|
  {
    var occ := routes[s.element].aircraftOnRoute;
    (c.found.Some? ==>
       c.found.value in occ
       && Candidate(positions, me, c.found.value, s.dist, s.endDist, s.direction)
       && c.searchDist == Abs(positions[c.found.value] - s.dist) + s.res
       && c.searchDist < searchDist
       && forall j :: 0 <= j < |occ| && Candidate(positions, me, occ[j], s.dist, s.endDist, s.direction)
            ==> c.searchDist <= Abs(positions[occ[j]] - s.dist) + s.res)
    && (c.found.None? ==>
          c.searchDist == searchDist
          && forall j :: 0 <= j < |occ| && Candidate(positions, me, occ[j], s.dist, s.endDist, s.direction)
               ==> searchDist <= Abs(positions[occ[j]] - s.dist) + s.res)
  }

  /** The aircraft scan is decided, along the spans, by the first span with
      another aircraft in its window; with no other aircraft in any window,
      nothing is found and the search distance is kept. */
  ghost predicate ClosestDecided(routes: seq<Route>, positions: map<AircraftId, real>,
                                 me: AircraftId, spans: seq<Span>, searchDist: real, c: Closest)
  {
    (forall k :: FirstWithCandidate(routes, positions, me, spans, k) ==>
       DecidedAt(routes, positions, me, spans[k], searchDist, c))
    && ((forall k :: 0 <= k < |spans| ==> NoCandidate(routes, positions, me, spans[k]))
        ==> c.found.None? && c.searchDist == searchDist)
  }

  /** Along the walked itinerary, the aircraft scan is decided by the first
      element with another aircraft in its window: the closest such
      aircraft is reported when its distance is below the search distance,
      and nothing otherwise; with no other aircraft in any window, nothing
      is reported. */
  lemma {:induction false} ClosestFromFirst(routes: seq<Route>, positions: map<AircraftId, real>,
                                            me: AircraftId, taxiRoutes: seq<string>, i: nat,
                                            current: RouteId, direction: bool, dist: real,
                                            res: real, searchDist: real)
    requires current < |routes| && Placed(routes, positions)
    requires ClosestFrom(routes, positions, me, taxiRoutes, i, current, direction, dist, res,
                         searchDist).Some?
    ensures ClosestDecided(routes, positions, me,
                           Walk(routes, taxiRoutes, i, current, direction, dist, res).spans,
                           searchDist,
                           ClosestFrom(routes, positions, me, taxiRoutes, i, current, direction,
                                       dist, res, searchDist).value)
    decreases |taxiRoutes| - i, 1
  {
    if i < |taxiRoutes| {
      var last := i + 1 >= |taxiRoutes|;
      var info := GetConnectionInfo(routes[current].connections,
                                    if last then "" else taxiRoutes[i + 1]).0;
      var endDist := if !last then info.distanceToBreakOut
                     else if direction then routes[current].length else 0.0;
      var hit := NearestFrom(routes[current].aircraftOnRoute, positions, me, dist, endDist,
                             direction, res, 0, None, searchDist);
      if hit.None? && !(res + Abs(endDist - dist) >= searchDist || last) {
        ClosestFromFirstNext(routes, positions, me, taxiRoutes, i, current, direction, dist,
                             res, searchDist);
      } else {
        ClosestFromFirstHere(routes, positions, me, taxiRoutes, i, current, direction, dist,
                             res, searchDist);
      }
    } else {
      assert Walk(routes, taxiRoutes, i, current, direction, dist, res).spans == [];
    }
  }

  /** The scan ends on the first element: with a hit there, or with the
      search distance reached at its end, or at the end of the itinerary. */
  lemma ClosestFromFirstHere(routes: seq<Route>, positions: map<AircraftId, real>,
                             me: AircraftId, taxiRoutes: seq<string>, i: nat,
                             current: RouteId, direction: bool, dist: real,
                             res: real, searchDist: real)
    requires current < |routes| && Placed(routes, positions) && i < |taxiRoutes|
    requires ClosestFrom(routes, positions, me, taxiRoutes, i, current, direction, dist, res,
                         searchDist).Some?
    requires var last := i + 1 >= |taxiRoutes|;
             var info := GetConnectionInfo(routes[current].connections,
                                           if last then "" else taxiRoutes[i + 1]).0;
             var endDist := if !last then info.distanceToBreakOut
                            else if direction then routes[current].length else 0.0;
             var hit := NearestFrom(routes[current].aircraftOnRoute, positions, me, dist, endDist,
                                    direction, res, 0, None, searchDist);
             !(hit.None? && !(res + Abs(endDist - dist) >= searchDist || last))
    ensures ClosestDecided(routes, positions, me,
                           Walk(routes, taxiRoutes, i, current, direction, dist, res).spans,
                           searchDist,
                           ClosestFrom(routes, positions, me, taxiRoutes, i, current, direction,
                                       dist, res, searchDist).value)
  {
    var c := ClosestFrom(routes, positions, me, taxiRoutes, i, current, direction, dist, res,
                         searchDist).value;
    var spans := Walk(routes, taxiRoutes, i, current, direction, dist, res).spans;
    var last := i + 1 >= |taxiRoutes|;
    var info := GetConnectionInfo(routes[current].connections,
                                  if last then "" else taxiRoutes[i + 1]).0;
    var endDist := if !last then info.distanceToBreakOut
                   else if direction then routes[current].length else 0.0;
    var occ := routes[current].aircraftOnRoute;
    var s0 := Span(current, direction, dist, endDist, res);
    assert spans[0] == s0;
    NearestFromSpec(occ, positions, me, dist, endDist, direction, res, 0, None, searchDist);
    var hit := NearestFrom(occ, positions, me, dist, endDist, direction, res, 0, None, searchDist);
    var res' := res + Abs(endDist - dist);
    if hit.Some? {
      ClosestFirstHit(routes, positions, me, spans, s0, searchDist, c);
    } else {
      if !last && info.nextPiece.Some? && info.nextPiece.value < |routes| {
        var got := GetConnectionInfo(routes[current].connections, taxiRoutes[i + 1]);
        var routes1 := routes[current := routes[current].(connections := got.1)];
        var rest := Walk(routes1, taxiRoutes, i + 1, info.nextPiece.value,
                         info.positiveEnteringNextPiece, info.distanceToBreakIn, res');
        assert spans == [s0] + rest.spans;
      }
      ClosestFirstBeyond(routes, positions, me, spans, s0, searchDist, c);
    }
  }

  /** No aircraft is found on the first element and the scan goes on to
      the next one, where the walk goes on too. */
  lemma {:induction false} ClosestFromFirstNext(routes: seq<Route>,
                                                positions: map<AircraftId, real>,
                                                me: AircraftId, taxiRoutes: seq<string>, i: nat,
                                                current: RouteId, direction: bool, dist: real,
                                                res: real, searchDist: real)
    requires current < |routes| && Placed(routes, positions) && i < |taxiRoutes|
    requires ClosestFrom(routes, positions, me, taxiRoutes, i, current, direction, dist, res,
                         searchDist).Some?
    requires var last := i + 1 >= |taxiRoutes|;
             var info := GetConnectionInfo(routes[current].connections,
                                           if last then "" else taxiRoutes[i + 1]).0;
             var endDist := if !last then info.distanceToBreakOut
                            else if direction then routes[current].length else 0.0;
             var hit := NearestFrom(routes[current].aircraftOnRoute, positions, me, dist, endDist,
                                    direction, res, 0, None, searchDist);
             hit.None? && !(res + Abs(endDist - dist) >= searchDist || last)
    ensures ClosestDecided(routes, positions, me,
                           Walk(routes, taxiRoutes, i, current, direction, dist, res).spans,
                           searchDist,
                           ClosestFrom(routes, positions, me, taxiRoutes, i, current, direction,
                                       dist, res, searchDist).value)
    decreases |taxiRoutes| - i, 0
  {
    var c := ClosestFrom(routes, positions, me, taxiRoutes, i, current, direction, dist, res,
                         searchDist).value;
    var spans := Walk(routes, taxiRoutes, i, current, direction, dist, res).spans;
    var name := taxiRoutes[i + 1];
    var got := GetConnectionInfo(routes[current].connections, name);
    var info := got.0;
    var routes1 := routes[current := routes[current].(connections := got.1)];
    var endDist := info.distanceToBreakOut;
    var occ := routes[current].aircraftOnRoute;
    var s0 := Span(current, direction, dist, endDist, res);
    var res' := res + Abs(endDist - dist);
    var next := info.nextPiece.value;
    assert Placed(routes1, positions);
    assert c == ClosestFrom(routes1, positions, me, taxiRoutes, i + 1, next,
                            info.positiveEnteringNextPiece, info.distanceToBreakIn, res',
                            searchDist).value;
    ClosestFromFirst(routes1, positions, me, taxiRoutes, i + 1, next,
                     info.positiveEnteringNextPiece, info.distanceToBreakIn, res', searchDist);
    var rest := Walk(routes1, taxiRoutes, i + 1, next, info.positiveEnteringNextPiece,
                     info.distanceToBreakIn, res');
    assert spans == [s0] + rest.spans;
    NearestFromSpec(occ, positions, me, dist, endDist, direction, res, 0, None, searchDist);
    forall j | 0 <= j < |occ|
      ensures !Candidate(positions, me, occ[j], dist, endDist, direction)
    {
      if Candidate(positions, me, occ[j], dist, endDist, direction) {
        WindowBound(positions[occ[j]], dist, endDist, direction);
      }
    }
    assert NoCandidate(routes, positions, me, s0);
    ClosestFirstShift(routes, routes1, positions, me, s0, rest.spans, searchDist, c);
  }

  /** A hit on the first span decides the scan there. */
  lemma ClosestFirstHit(routes: seq<Route>, positions: map<AircraftId, real>, me: AircraftId,
                        spans: seq<Span>, s0: Span, searchDist: real, c: Closest)
    requires s0.element < |routes| && |spans| > 0 && spans[0] == s0
    requires forall a :: a in routes[s0.element].aircraftOnRoute ==> a in positions
    requires var occ := routes[s0.element].aircraftOnRoute;
             var hit := NearestFrom(occ, positions, me, s0.dist, s0.endDist, s0.direction, s0.res,
                                    0, None, searchDist);
             hit.Some? && c.found == Some(hit.value.aircraft) && c.searchDist == hit.value.distance
             && hit.value.aircraft in occ && hit.value.distance < searchDist
             && Candidate(positions, me, hit.value.aircraft, s0.dist, s0.endDist, s0.direction)
             && hit.value.distance == Abs(positions[hit.value.aircraft] - s0.dist) + s0.res
             && forall j :: 0 <= j < |occ|
                  && Candidate(positions, me, occ[j], s0.dist, s0.endDist, s0.direction)
                  ==> hit.value.distance <= Abs(positions[occ[j]] - s0.dist) + s0.res
    ensures ClosestDecided(routes, positions, me, spans, searchDist, c)
  {
    var occ := routes[s0.element].aircraftOnRoute;
    var m :| 0 <= m < |occ| && occ[m] == c.found.value;
    assert !NoCandidate(routes, positions, me, spans[0]);
  }

  /** With no hit on the first span and the search distance reached at its
      end (or no further span), nothing is found. */
  lemma ClosestFirstBeyond(routes: seq<Route>, positions: map<AircraftId, real>, me: AircraftId,
                           spans: seq<Span>, s0: Span, searchDist: real, c: Closest)
    requires s0.element < |routes| && |spans| > 0 && spans[0] == s0
    requires forall k :: 0 <= k < |spans| ==> spans[k].element < |routes|
    requires c.found.None? && c.searchDist == searchDist
    requires var occ := routes[s0.element].aircraftOnRoute;
             forall j :: 0 <= j < |occ|
               && Candidate(positions, me, occ[j], s0.dist, s0.endDist, s0.direction)
               ==> searchDist <= Abs(positions[occ[j]] - s0.dist) + s0.res
    requires forall k :: 1 <= k < |spans| ==> spans[k].res >= searchDist
    ensures ClosestDecided(routes, positions, me, spans, searchDist, c)
  {
  }

  /** With no aircraft in the first span's window, the scan of the rest
      decides as it does from the second span on. */
  lemma ClosestFirstShift(routes: seq<Route>, routes1: seq<Route>,
                          positions: map<AircraftId, real>, me: AircraftId, s0: Span,
                          rest: seq<Span>, searchDist: real, c: Closest)
    requires |routes1| == |routes|
    requires forall r :: 0 <= r < |routes| ==> routes1[r].aircraftOnRoute == routes[r].aircraftOnRoute
    requires NoCandidate(routes, positions, me, s0)
    requires forall k :: 0 <= k < |rest| ==> rest[k].element < |routes|
    requires ClosestDecided(routes1, positions, me, rest, searchDist, c)
    ensures ClosestDecided(routes, positions, me, [s0] + rest, searchDist, c)
  {
    var spans := [s0] + rest;
    forall k | FirstWithCandidate(routes, positions, me, spans, k)
      ensures DecidedAt(routes, positions, me, spans[k], searchDist, c)
    {
      ShiftFirst(routes, routes1, positions, me, s0, rest, k);
      SameOccupancy(routes, routes1, positions, me, rest[k - 1], searchDist, c);
    }
    if forall k :: 0 <= k < |spans| ==> NoCandidate(routes, positions, me, spans[k]) {
      forall k | 0 <= k < |rest|
        ensures NoCandidate(routes1, positions, me, rest[k])
      {
        assert spans[k + 1] == rest[k];
        SameOccupancy(routes, routes1, positions, me, rest[k], searchDist, c);
      }
    }
  }

  /** The first span with a candidate after an empty first span is the
      first such span of the rest, one place earlier. */
  lemma ShiftFirst(routes: seq<Route>, routes1: seq<Route>,
                   positions: map<AircraftId, real>, me: AircraftId, s0: Span,
                   rest: seq<Span>, k: int)
    requires |routes1| == |routes|
    requires forall r :: 0 <= r < |routes| ==> routes1[r].aircraftOnRoute == routes[r].aircraftOnRoute
    requires NoCandidate(routes, positions, me, s0)
    requires FirstWithCandidate(routes, positions, me, [s0] + rest, k)
    ensures k > 0 && ([s0] + rest)[k] == rest[k - 1]
    ensures FirstWithCandidate(routes1, positions, me, rest, k - 1)
  {
    var spans := [s0] + rest;
    assert k > 0;
    assert spans[k] == rest[k - 1];
    assert routes1[rest[k - 1].element].aircraftOnRoute == routes[rest[k - 1].element].aircraftOnRoute;
    forall j | 0 <= j < k - 1
      ensures NoCandidate(routes1, positions, me, rest[j])
    {
      assert spans[j + 1] == rest[j];
      assert routes1[rest[j].element].aircraftOnRoute == routes[rest[j].element].aircraftOnRoute;
    }
  }

  /** Arenas with the same occupancy agree on the aircraft scan of a span. */
  lemma SameOccupancy(routes: seq<Route>, routes1: seq<Route>,
                      positions: map<AircraftId, real>, me: AircraftId, s: Span,
                      searchDist: real, c: Closest)
    requires |routes1| == |routes| && s.element < |routes|
    requires routes1[s.element].aircraftOnRoute == routes[s.element].aircraftOnRoute
    ensures NoCandidate(routes1, positions, me, s) == NoCandidate(routes, positions, me, s)
    ensures DecidedAt(routes1, positions, me, s, searchDist, c)
            == DecidedAt(routes, positions, me, s, searchDist, c)
  {
  }

  /** The hold scan of the span's element: the closest hold in its window. */
  function HoldOn(routes: seq<Route>, s: Span): Option<HoldHit>
    requires s.element < |routes|
  {
    NearestHoldFrom(GetHoldPoints(routes[s.element], s.direction), s.dist, s.endDist,
                    s.direction, 0, None)
  }

  /** Span k is the first span with a hold point in its window. */
  ghost predicate FirstWithHold(routes: seq<Route>, spans: seq<Span>, k: int)
  {
    0 <= k < |spans| && spans[k].element < |routes|
    && (forall j :: 0 <= j < k ==> spans[j].element < |routes| && HoldOn(routes, spans[j]).None?)
    && HoldOn(routes, spans[k]).Some?
  }

  /** No span has a hold point in its window. */
  ghost predicate NoHoldOn(routes: seq<Route>, spans: seq<Span>)
  {
    forall k :: 0 <= k < |spans| ==> spans[k].element < |routes| && HoldOn(routes, spans[k]).None?
  }

  /** The hold scan is decided by the first span with a hold point in its
      window: the distance is what was accumulated before that span plus
      the distance to the closest hold in it, and the type is that hold's.
      With no hold point in any window, the distance is all the spans
      cover, and the type is reset to NotSet exactly when that comes to 0
      (or it was NotSet already). */
  ghost predicate HoldDecided(routes: seq<Route>, spans: seq<Span>, res: real,
                              holdType: HoldPointType, h: HoldScan)
  {
    (forall k :: FirstWithHold(routes, spans, k) ==>
       h.distance == spans[k].res + HoldOn(routes, spans[k]).value.distance
       && h.holdType == HoldOn(routes, spans[k]).value.holdType)
    && (NoHoldOn(routes, spans) ==>
          h.distance == res + Covered(spans)
          && (h.holdType == NotSet <==> res + Covered(spans) == 0.0 || holdType == NotSet))
  }

  /** Along the walked itinerary, the hold scan is decided by the first
      element with a hold point in its window; when there is none, it
      returns the whole distance the itinerary covers, with NotSet only
      when that is 0. */
  lemma {:induction false} HoldFromFirst(routes: seq<Route>, taxiRoutes: seq<string>, i: nat,
                                         current: RouteId, direction: bool, dist: real,
                                         res: real, holdType: HoldPointType)
    requires current < |routes|
    requires HoldFrom(routes, taxiRoutes, i, current, direction, dist, res, holdType).Some?
    ensures HoldDecided(routes, Walk(routes, taxiRoutes, i, current, direction, dist, res).spans,
                        res, holdType,
                        HoldFrom(routes, taxiRoutes, i, current, direction, dist, res,
                                 holdType).value)
    decreases |taxiRoutes| - i, 1
  {
    if i < |taxiRoutes| {
      var last := i + 1 >= |taxiRoutes|;
      var info := GetConnectionInfo(routes[current].connections,
                                    if last then "" else taxiRoutes[i + 1]).0;
      var endDist := if !last then info.distanceToBreakOut
                     else if direction then routes[current].length else 0.0;
      var hit := NearestHoldFrom(GetHoldPoints(routes[current], direction), dist, endDist,
                                 direction, 0, None);
      if hit.None? && !last {
        HoldFromFirstNext(routes, taxiRoutes, i, current, direction, dist, res, holdType);
      } else {
        HoldFromFirstHere(routes, taxiRoutes, i, current, direction, dist, res, holdType);
      }
    } else {
      assert Walk(routes, taxiRoutes, i, current, direction, dist, res).spans == [];
    }
  }

  /** The hold scan ends on the first element: with a hold in its window,
      or at the end of the itinerary. */
  lemma HoldFromFirstHere(routes: seq<Route>, taxiRoutes: seq<string>, i: nat,
                          current: RouteId, direction: bool, dist: real,
                          res: real, holdType: HoldPointType)
    requires current < |routes| && i < |taxiRoutes|
    requires HoldFrom(routes, taxiRoutes, i, current, direction, dist, res, holdType).Some?
    requires var last := i + 1 >= |taxiRoutes|;
             var info := GetConnectionInfo(routes[current].connections,
                                           if last then "" else taxiRoutes[i + 1]).0;
             var endDist := if !last then info.distanceToBreakOut
                            else if direction then routes[current].length else 0.0;
             var hit := NearestHoldFrom(GetHoldPoints(routes[current], direction), dist, endDist,
                                        direction, 0, None);
             !(hit.None? && !last)
    ensures HoldDecided(routes, Walk(routes, taxiRoutes, i, current, direction, dist, res).spans,
                        res, holdType,
                        HoldFrom(routes, taxiRoutes, i, current, direction, dist, res,
                                 holdType).value)
  {
    var spans := Walk(routes, taxiRoutes, i, current, direction, dist, res).spans;
    var last := i + 1 >= |taxiRoutes|;
    var info := GetConnectionInfo(routes[current].connections,
                                  if last then "" else taxiRoutes[i + 1]).0;
    var endDist := if !last then info.distanceToBreakOut
                   else if direction then routes[current].length else 0.0;
    var s0 := Span(current, direction, dist, endDist, res);
    assert spans[0] == s0;
    var hit := HoldOn(routes, s0);
    if hit.Some? {
      assert !NoHoldOn(routes, spans);
      forall k | FirstWithHold(routes, spans, k)
        ensures k == 0
      {
      }
    } else {
      assert spans == [s0];
      assert spans[1..] == [];
    }
  }

  /** No hold point is in the first element's window and the scan goes on
      to the next element, where the walk goes on too. */
  lemma {:induction false} HoldFromFirstNext(routes: seq<Route>, taxiRoutes: seq<string>, i: nat,
                                             current: RouteId, direction: bool, dist: real,
                                             res: real, holdType: HoldPointType)
    requires current < |routes| && i < |taxiRoutes|
    requires HoldFrom(routes, taxiRoutes, i, current, direction, dist, res, holdType).Some?
    requires var last := i + 1 >= |taxiRoutes|;
             var info := GetConnectionInfo(routes[current].connections,
                                           if last then "" else taxiRoutes[i + 1]).0;
             var endDist := if !last then info.distanceToBreakOut
                            else if direction then routes[current].length else 0.0;
             var hit := NearestHoldFrom(GetHoldPoints(routes[current], direction), dist, endDist,
                                        direction, 0, None);
             hit.None? && !last
    ensures HoldDecided(routes, Walk(routes, taxiRoutes, i, current, direction, dist, res).spans,
                        res, holdType,
                        HoldFrom(routes, taxiRoutes, i, current, direction, dist, res,
                                 holdType).value)
    decreases |taxiRoutes| - i, 0
  {
    var h := HoldFrom(routes, taxiRoutes, i, current, direction, dist, res, holdType).value;
    var spans := Walk(routes, taxiRoutes, i, current, direction, dist, res).spans;
    var name := taxiRoutes[i + 1];
    var got := GetConnectionInfo(routes[current].connections, name);
    var info := got.0;
    var routes1 := routes[current := routes[current].(connections := got.1)];
    var endDist := info.distanceToBreakOut;
    var s0 := Span(current, direction, dist, endDist, res);
    var res' := res + Abs(endDist - dist);
    var next := info.nextPiece.value;
    assert h == HoldFrom(routes1, taxiRoutes, i + 1, next, info.positiveEnteringNextPiece,
                         info.distanceToBreakIn, res', holdType).value;
    HoldFromFirst(routes1, taxiRoutes, i + 1, next, info.positiveEnteringNextPiece,
                  info.distanceToBreakIn, res', holdType);
    var rest := Walk(routes1, taxiRoutes, i + 1, next, info.positiveEnteringNextPiece,
                     info.distanceToBreakIn, res');
    assert spans == [s0] + rest.spans;
    assert HoldOn(routes, s0).None?;
    HoldShift(routes, routes1, s0, rest.spans, res, holdType, h);
  }

  /** With no hold in the first span's window, the scan of the rest decides
      as it does from the second span on, one span's distance further. */
  lemma HoldShift(routes: seq<Route>, routes1: seq<Route>, s0: Span, rest: seq<Span>,
                  res: real, holdType: HoldPointType, h: HoldScan)
    requires |routes1| == |routes| && s0.element < |routes|
    requires forall r :: 0 <= r < |routes| ==>
               routes1[r].holdsPositive == routes[r].holdsPositive
               && routes1[r].holdsNegative == routes[r].holdsNegative
    requires HoldOn(routes, s0).None?
    requires forall k :: 0 <= k < |rest| ==> rest[k].element < |routes|
    requires HoldDecided(routes1, rest, res + Abs(s0.endDist - s0.dist), holdType, h)
    ensures HoldDecided(routes, [s0] + rest, res, holdType, h)
  {
    var spans := [s0] + rest;
    assert spans[1..] == rest;
    forall s: Span | s.element < |routes|
      ensures HoldOn(routes1, s) == HoldOn(routes, s)
    {
      assert GetHoldPoints(routes1[s.element], s.direction)
             == GetHoldPoints(routes[s.element], s.direction);
    }
    forall k | FirstWithHold(routes, spans, k)
      ensures h.distance == spans[k].res + HoldOn(routes, spans[k]).value.distance
              && h.holdType == HoldOn(routes, spans[k]).value.holdType
    {
      assert k > 0 && spans[k] == rest[k - 1];
      forall j | 0 <= j < k - 1
        ensures HoldOn(routes1, rest[j]).None?
      {
        assert spans[j + 1] == rest[j];
      }
      assert FirstWithHold(routes1, rest, k - 1);
    }
    if NoHoldOn(routes, spans) {
      forall k | 0 <= k < |rest|
        ensures HoldOn(routes1, rest[k]).None?
      {
        assert spans[k + 1] == rest[k];
      }
      assert NoHoldOn(routes1, rest);
    }
  }
}
