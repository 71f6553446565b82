/** The taxi network as a whole, as values: the arena of route elements
    indexed by `RouteId`, how two elements are connected, how the segments
    of the elements are linked across connections, and the numbering of
    all segments into the connection matrix the pathfinder searches. The
    `Airport` class changes its arena step by step and is proved to end in
    the states these functions describe. */
module Topology {
  import opened Wrappers
  import opened RouteBase
  import opened Segments
  import opened SegmentQueries

  // ---------------------------------------------------------------------
  // Connecting two elements
  // ---------------------------------------------------------------------

  /** Every element keeps its breakpoints sorted by distance. */
  predicate AllSorted(routes: seq<Route>)
  {
    forall r :: 0 <= r < |routes| ==> SortedBreakpoints(routes[r].breakpoints)
  }

  /** `ConnectRoute` on element `self`: a connection record toward `next`
      is stored under `next`'s name unless one is already there, `self`
      gets an OUT breakpoint at `myBreakOut`, and `next` (possibly `self`
      itself) an IN breakpoint at `nextBreakIn`. */
  function ConnectRouteSpec(routes: seq<Route>, self: RouteId, myBreakOut: real,
                            directionAllowed: bool, next: RouteId, nextBreakIn: real,
                            positiveEntering: bool): seq<Route>
    requires self < |routes| && next < |routes|
  {
    var me := routes[self];
    var key := routes[next].name;
    var info := ConnectionInfo(directionAllowed, myBreakOut, Some(next), nextBreakIn,
                               positiveEntering);
    var conns := if key in me.connections then me.connections else me.connections[key := info];
    var routes1 := routes[self := me.(connections := conns,
                       breakpoints := InsertSorted(me.breakpoints, BreakpointInfo(Out, next, myBreakOut)))];
    var peer := routes1[next];
    routes1[next := peer.(breakpoints := InsertSorted(peer.breakpoints, BreakpointInfo(In, self, nextBreakIn)))]
  }

  /** What `ConnectRoute` guarantees: the record under the peer's name is
      the new one unless a record was already stored (`insert` never
      overwrites); `self` gains exactly an OUT breakpoint and the peer
      exactly an IN breakpoint, both lists staying sorted; nothing else
      changes. */
  lemma ConnectRouteEffect(routes: seq<Route>, self: RouteId, myBreakOut: real,
                           directionAllowed: bool, next: RouteId, nextBreakIn: real,
                           positiveEntering: bool)
    requires self < |routes| && next < |routes| && AllSorted(routes)
    ensures var r := ConnectRouteSpec(routes, self, myBreakOut, directionAllowed, next,
                                      nextBreakIn, positiveEntering);
            var key := routes[next].name;
            var outBp := BreakpointInfo(Out, next, myBreakOut);
            var inBp := BreakpointInfo(In, self, nextBreakIn);
            |r| == |routes| && AllSorted(r)
            && (key !in routes[self].connections ==>
                  r[self].connections == routes[self].connections[key := ConnectionInfo(
                    directionAllowed, myBreakOut, Some(next), nextBreakIn, positiveEntering)])
            && (key in routes[self].connections ==>
                  r[self].connections == routes[self].connections)
            && (self != next ==>
                  multiset(r[self].breakpoints) == multiset(routes[self].breakpoints) + multiset{outBp}
                  && multiset(r[next].breakpoints) == multiset(routes[next].breakpoints) + multiset{inBp}
                  && r[next] == routes[next].(breakpoints := r[next].breakpoints))
            && (self == next ==>
                  multiset(r[self].breakpoints)
                  == multiset(routes[self].breakpoints) + multiset{outBp, inBp})
            && r[self] == routes[self].(connections := r[self].connections,
                                        breakpoints := r[self].breakpoints)
            && forall k :: 0 <= k < |routes| && k != self && k != next ==> r[k] == routes[k]
  {
    var me := routes[self];
    var outBp := BreakpointInfo(Out, next, myBreakOut);
    var inBp := BreakpointInfo(In, self, nextBreakIn);
    InsertSortedAdds(me.breakpoints, outBp);
    InsertSortedSorted(me.breakpoints, outBp);
    var mid := InsertSorted(me.breakpoints, outBp);
    var peerBps := if self == next then mid else routes[next].breakpoints;
    InsertSortedAdds(peerBps, inBp);
    InsertSortedSorted(peerBps, inBp);
  }

  /** `Airport::Connect` on elements `first` and `second`: each side is
      connected toward the other only when it may be travelled in its own
      direction argument, and the sign of entering the peer is the negation
      of the peer's own direction argument. */
  function ConnectSpec(routes: seq<Route>, first: RouteId, direction1: bool, dist1: real,
                       second: RouteId, direction2: bool, dist2: real): seq<Route>
    requires first < |routes| && second < |routes|
  {
    var r1 := if AllowTravelInDirection(routes[first], direction1)
              then ConnectRouteSpec(routes, first, dist1, direction1, second, dist2, !direction2)
              else routes;
    if AllowTravelInDirection(r1[second], direction2)
    then ConnectRouteSpec(r1, second, dist2, direction2, first, dist1, !direction1)
    else r1
  }

  /** A connection from `first` toward `second` is recorded exactly when
      `first` allows `direction1` (and no record was there before), with
      entering sign `!direction2`; likewise from `second`; an element that
      allows neither leaves the arena unchanged. */
  lemma ConnectEffect(routes: seq<Route>, first: RouteId, direction1: bool, dist1: real,
                      second: RouteId, direction2: bool, dist2: real)
    requires first < |routes| && second < |routes| && first != second && AllSorted(routes)
    ensures var r := ConnectSpec(routes, first, direction1, dist1, second, direction2, dist2);
            var name1, name2 := routes[first].name, routes[second].name;
            var allow1 := AllowTravelInDirection(routes[first], direction1);
            var allow2 := AllowTravelInDirection(routes[second], direction2);
            |r| == |routes| && AllSorted(r)
            && (allow1 && name2 !in routes[first].connections ==>
                  name2 in r[first].connections
                  && r[first].connections[name2]
                     == ConnectionInfo(direction1, dist1, Some(second), dist2, !direction2))
            && (!allow1 ==> r[first].connections == routes[first].connections)
            && (allow2 && name1 !in routes[second].connections ==>
                  name1 in r[second].connections
                  && r[second].connections[name1]
                     == ConnectionInfo(direction2, dist2, Some(first), dist1, !direction1))
            && (!allow2 ==> r[second].connections == routes[second].connections)
            && (!allow1 && !allow2 ==> r == routes)
            && |r[first].breakpoints| == |routes[first].breakpoints|
                                         + (if allow1 then 1 else 0) + (if allow2 then 1 else 0)
            && |r[second].breakpoints| == |routes[second].breakpoints|
                                          + (if allow1 then 1 else 0) + (if allow2 then 1 else 0)
            && forall k :: 0 <= k < |routes| && k != first && k != second ==> r[k] == routes[k]
  {
    var allow1 := AllowTravelInDirection(routes[first], direction1);
    var r1 := if allow1
              then ConnectRouteSpec(routes, first, dist1, direction1, second, dist2, !direction2)
              else routes;
    if allow1 {
      ConnectRouteEffect(routes, first, dist1, direction1, second, dist2, !direction2);
      assert |r1[first].breakpoints| == |routes[first].breakpoints| + 1 by {
        assert |multiset(r1[first].breakpoints)| == |multiset(routes[first].breakpoints)| + 1;
      }
      assert |r1[second].breakpoints| == |routes[second].breakpoints| + 1 by {
        assert |multiset(r1[second].breakpoints)| == |multiset(routes[second].breakpoints)| + 1;
      }
    }
    assert r1[second].oneWayIndicator == routes[second].oneWayIndicator;
    if AllowTravelInDirection(r1[second], direction2) {
      var r := ConnectRouteSpec(r1, second, dist2, direction2, first, dist1, !direction1);
      ConnectRouteEffect(r1, second, dist2, direction2, first, dist1, !direction1);
      assert |r[first].breakpoints| == |r1[first].breakpoints| + 1 by {
        assert |multiset(r[first].breakpoints)| == |multiset(r1[first].breakpoints)| + 1;
      }
      assert |r[second].breakpoints| == |r1[second].breakpoints| + 1 by {
        assert |multiset(r[second].breakpoints)| == |multiset(r1[second].breakpoints)| + 1;
      }
    }
  }

  // ---------------------------------------------------------------------
  // Slicing every element
  // ---------------------------------------------------------------------

  /** The segments `CreateSegments` builds for element `id`. */
  function SegmentsOf(id: RouteId, r: Route): seq<SegmentInfo>
  {
    Created(id, r.name, Boundaries(r.breakpoints, r.length), r.oneWayIndicator)
  }

  /** `CreateSegments` called on the elements `ids`, in order: each call
      appends the element's segments to those it already has. */
  function CreateAll(routes: seq<Route>, ids: seq<RouteId>): (r: seq<Route>)
    ensures |r| == |routes|
    decreases |ids|
  {
    if |ids| == 0 then routes
    else
      var r := CreateAll(routes, ids[..|ids| - 1]);
      var id := ids[|ids| - 1];
      if id < |r| then r[id := r[id].(segments := r[id].segments + SegmentsOf(id, r[id]))] else r
  }

  /** Every segment an element holds belongs to that element. */
  predicate Owned(routes: seq<Route>)
  {
    forall r, j :: 0 <= r < |routes| && 0 <= j < |routes[r].segments| ==>
      routes[r].segments[j].route == r
  }

  /** Slicing changes only segment lists, and the new segments belong to
      the element they are added to. */
  lemma {:induction false} CreateAllKeeps(routes: seq<Route>, ids: seq<RouteId>)
    requires Owned(routes)
    ensures var r := CreateAll(routes, ids);
            Owned(r)
            && forall k :: 0 <= k < |routes| ==> r[k] == routes[k].(segments := r[k].segments)
    decreases |ids|
  {
    if |ids| > 0 {
      CreateAllKeeps(routes, ids[..|ids| - 1]);
      var r := CreateAll(routes, ids[..|ids| - 1]);
      var id := ids[|ids| - 1];
      if id < |r| {
        var segs := r[id].segments + SegmentsOf(id, r[id]);
        forall j | 0 <= j < |segs|
          ensures segs[j].route == id
        {
          if j >= |r[id].segments| {
            var k := j - |r[id].segments|;
            assert segs[j] == SegmentsOf(id, r[id])[k];
          }
        }
      }
    }
  }

  // ---------------------------------------------------------------------
  // Linking segments across connections
  // ---------------------------------------------------------------------

  /** Segment `k` with `name` appended to its in list. */
  function AppendIn(segs: seq<SegmentInfo>, k: nat, name: string): seq<SegmentInfo>
    requires k < |segs|
  {
    segs[k := segs[k].(inSegment := segs[k].inSegment + [name])]
  }

  /** Segment `k` with `name` appended to its out list. */
  function AppendOut(segs: seq<SegmentInfo>, k: nat, name: string): seq<SegmentInfo>
    requires k < |segs|
  {
    segs[k := segs[k].(outSegment := segs[k].outSegment + [name])]
  }

  /** One breakpoint `b` of element `self` processed by
      `PopulateIntraRouteConnection`. For an IN breakpoint the peer's record
      toward `self` is read (and default-inserted when missing), the segment
      of `self` starting at the breakpoint in the entering direction is
      found, and the peer's segment breaking out there is added to its in
      list. For an OUT breakpoint the record toward the peer is read (and
      default-inserted), the segment of `self` ending at the breakpoint in
      the allowed direction is found, and the peer's segment breaking in is
      added to its out list. None: the segment was not found, and the
      simulator would index its segment list at -1. */
  function PopulateStep(routes: seq<Route>, self: RouteId, b: BreakpointInfo)
    : (res: Option<seq<Route>>)
    requires self < |routes|
    ensures res.Some? ==> |res.value| == |routes|
  {
    if b.peer >= |routes| then None
    else if b.bpType == In then
      var peer := routes[b.peer];
      var got := GetConnectionInfo(peer.connections, routes[self].name);
      var info := got.0;
      var routes1 := routes[b.peer := peer.(connections := got.1)];
      var segs := routes1[self].segments;
      var idx := FindFrom(segs, StartingAt(info.positiveEnteringNextPiece, b.distanceOnCurrentRoute), 0);
      if idx.None? then None
      else
        var name := GetBreakoutSegmentName(routes1[b.peer].segments,
                                           info.directionAllowedToEnterNextRoute,
                                           info.distanceToBreakOut);
        Some(routes1[self := routes1[self].(segments := AppendIn(segs, idx.value, name))])
    else
      var got := GetConnectionInfo(routes[self].connections, routes[b.peer].name);
      var conn := got.0;
      var routes1 := routes[self := routes[self].(connections := got.1)];
      var segs := routes1[self].segments;
      var idx := FindFrom(segs, EndingAt(conn.directionAllowedToEnterNextRoute, b.distanceOnCurrentRoute), 0);
      if idx.None? then None
      else
        var name := GetBreakinSegmentName(routes1[b.peer].segments,
                                          conn.positiveEnteringNextPiece, conn.distanceToBreakIn);
        Some(routes1[self := routes1[self].(segments := AppendOut(segs, idx.value, name))])
  }

  /** The breakpoints `bps[i..]` of `self` processed in order. */
  function PopulateFrom(routes: seq<Route>, self: RouteId, bps: seq<BreakpointInfo>, i: nat)
    : (res: Option<seq<Route>>)
    requires self < |routes|
    ensures res.Some? ==> |res.value| == |routes|
    decreases |bps| - i
  {
    if i >= |bps| then Some(routes)
    else
      var step := PopulateStep(routes, self, bps[i]);
      if step.None? then None else PopulateFrom(step.value, self, bps, i + 1)
  }

  /** `PopulateIntraRouteConnection` of the elements `ids[k..]`, in order. */
  function PopulateAll(routes: seq<Route>, ids: seq<RouteId>, k: nat): (res: Option<seq<Route>>)
    ensures res.Some? ==> |res.value| == |routes|
    decreases |ids| - k
  {
    if k >= |ids| then Some(routes)
    else if ids[k] >= |routes| then None
    else
      var one := PopulateFrom(routes, ids[k], routes[ids[k]].breakpoints, 0);
      if one.None? then None else PopulateAll(one.value, ids, k + 1)
  }

  /** `after` is `before` with in and out lists only extended at their end. */
  predicate SegmentsExtend(before: seq<SegmentInfo>, after: seq<SegmentInfo>)
  {
    |after| == |before|
    && forall k :: 0 <= k < |before| ==>
         after[k] == before[k].(inSegment := after[k].inSegment, outSegment := after[k].outSegment)
         && before[k].inSegment <= after[k].inSegment
         && before[k].outSegment <= after[k].outSegment
  }

  /** `after` is `before` with connection records only added under new names,
      and segment lists only extended; nothing else of any element changes. */
  predicate Extends(before: seq<Route>, after: seq<Route>)
  {
    |after| == |before|
    && forall r :: 0 <= r < |before| ==>
         after[r] == before[r].(connections := after[r].connections, segments := after[r].segments)
         && (forall key :: key in before[r].connections ==>
               key in after[r].connections && after[r].connections[key] == before[r].connections[key])
         && SegmentsExtend(before[r].segments, after[r].segments)
  }

  lemma ExtendsTransitive(a: seq<Route>, b: seq<Route>, c: seq<Route>)
    requires Extends(a, b) && Extends(b, c)
    ensures Extends(a, c)
  {
    forall r | 0 <= r < |a|
      ensures SegmentsExtend(a[r].segments, c[r].segments)
    {
      var sa, sb, sc := a[r].segments, b[r].segments, c[r].segments;
      forall k | 0 <= k < |sa|
        ensures sa[k].inSegment <= sc[k].inSegment && sa[k].outSegment <= sc[k].outSegment
      {
        assert sa[k].inSegment <= sb[k].inSegment <= sc[k].inSegment;
        assert sa[k].outSegment <= sb[k].outSegment <= sc[k].outSegment;
      }
    }
  }

  lemma PopulateStepExtends(routes: seq<Route>, self: RouteId, b: BreakpointInfo)
    requires self < |routes| && PopulateStep(routes, self, b).Some?
    ensures Extends(routes, PopulateStep(routes, self, b).value)
  {
    var owner := if b.bpType == In then b.peer else self;
    var other := if b.bpType == In then routes[self].name else routes[b.peer].name;
    var got := GetConnectionInfo(routes[owner].connections, other);
    var routes1 := routes[owner := routes[owner].(connections := got.1)];
    RecordExtends(routes, owner, got.1);
    var segs := routes1[self].segments;
    var info := got.0;
    var q := if b.bpType == In then StartingAt(info.positiveEnteringNextPiece, b.distanceOnCurrentRoute)
             else EndingAt(info.directionAllowedToEnterNextRoute, b.distanceOnCurrentRoute);
    var idx := FindFrom(segs, q, 0).value;
    var segs' := if b.bpType == In
                 then AppendIn(segs, idx, GetBreakoutSegmentName(routes1[b.peer].segments,
                                                                  info.directionAllowedToEnterNextRoute,
                                                                  info.distanceToBreakOut))
                 else AppendOut(segs, idx, GetBreakinSegmentName(routes1[b.peer].segments,
                                                                  info.positiveEnteringNextPiece,
                                                                  info.distanceToBreakIn));
    assert PopulateStep(routes, self, b).value == routes1[self := routes1[self].(segments := segs')];
    SegmentsExtendRoute(routes1, self, segs');
    ExtendsTransitive(routes, routes1, routes1[self := routes1[self].(segments := segs')]);
  }

  /** Adding connection records under new names extends the arena. */
  lemma RecordExtends(routes: seq<Route>, r: RouteId, conns: map<string, ConnectionInfo>)
    requires r < |routes|
    requires forall key :: key in routes[r].connections ==>
               key in conns && conns[key] == routes[r].connections[key]
    ensures Extends(routes, routes[r := routes[r].(connections := conns)])
  {
    var after := routes[r := routes[r].(connections := conns)];
    forall i | 0 <= i < |routes|
      ensures SegmentsExtend(routes[i].segments, after[i].segments)
    {
      assert after[i].segments == routes[i].segments;
    }
  }

  /** Replacing one element's segments by an extension of them extends the
      arena. */
  lemma SegmentsExtendRoute(routes: seq<Route>, r: RouteId, segs: seq<SegmentInfo>)
    requires r < |routes| && SegmentsExtend(routes[r].segments, segs)
    ensures Extends(routes, routes[r := routes[r].(segments := segs)])
  {
    var after := routes[r := routes[r].(segments := segs)];
    forall i | 0 <= i < |routes|
      ensures SegmentsExtend(routes[i].segments, after[i].segments)
    {
      if i != r {
        assert after[i].segments == routes[i].segments;
      }
    }
  }

  /** Linking only adds records under new names and extends in and out
      lists; it never changes a segment's name, sign, ends or length, a
      breakpoint, or a record already stored. */
  lemma {:induction false} PopulateFromExtends(routes: seq<Route>, self: RouteId,
                                               bps: seq<BreakpointInfo>, i: nat)
    requires self < |routes| && PopulateFrom(routes, self, bps, i).Some?
    ensures Extends(routes, PopulateFrom(routes, self, bps, i).value)
    decreases |bps| - i
  {
    if i < |bps| {
      var step := PopulateStep(routes, self, bps[i]).value;
      PopulateStepExtends(routes, self, bps[i]);
      PopulateFromExtends(step, self, bps, i + 1);
      ExtendsTransitive(routes, step, PopulateFrom(step, self, bps, i + 1).value);
    }
  }

  lemma {:induction false} PopulateAllExtends(routes: seq<Route>, ids: seq<RouteId>, k: nat)
    requires PopulateAll(routes, ids, k).Some?
    ensures Extends(routes, PopulateAll(routes, ids, k).value)
    decreases |ids| - k
  {
    if k < |ids| {
      var one := PopulateFrom(routes, ids[k], routes[ids[k]].breakpoints, 0).value;
      PopulateFromExtends(routes, ids[k], routes[ids[k]].breakpoints, 0);
      PopulateAllExtends(one, ids, k + 1);
      ExtendsTransitive(routes, one, PopulateAll(one, ids, k + 1).value);
    }
  }

  /** Lookups only read names, signs and ends, which extending keeps. */
  lemma {:induction false} FindFromExtended(before: seq<SegmentInfo>, after: seq<SegmentInfo>,
                                            q: Query, i: nat)
    requires SegmentsExtend(before, after)
    ensures FindFrom(after, q, i) == FindFrom(before, q, i)
    decreases |before| - i
  {
    if i < |before| {
      assert Matches(after[i], q) == Matches(before[i], q);
      FindFromExtended(before, after, q, i + 1);
    }
  }

  lemma LookupExtended(before: seq<SegmentInfo>, after: seq<SegmentInfo>, q: Query)
    requires SegmentsExtend(before, after)
    ensures Lookup(after, q) == Lookup(before, q)
  {
    FindFromExtended(before, after, q, 0);
  }

  /** After an OUT breakpoint toward a peer whose record is already stored
      has been processed, the segment of `self` ending at the breakpoint in
      the record's allowed direction lists, as the last of its out list, the
      peer's segment that starts at the record's break-in distance. */
  lemma PopulateStepLinksOut(routes: seq<Route>, self: RouteId, b: BreakpointInfo)
    requires self < |routes| && b.peer < |routes| && b.bpType == Out
    requires routes[b.peer].name in routes[self].connections
    requires PopulateStep(routes, self, b).Some?
    ensures var conn := routes[self].connections[routes[b.peer].name];
            var r := PopulateStep(routes, self, b).value;
            var q := EndingAt(conn.directionAllowedToEnterNextRoute, b.distanceOnCurrentRoute);
            exists k :: 0 <= k < |r[self].segments| && Matches(r[self].segments[k], q)
              && GetBreakinSegmentName(routes[b.peer].segments, conn.positiveEnteringNextPiece,
                                       conn.distanceToBreakIn) in r[self].segments[k].outSegment
  {
    var conn := routes[self].connections[routes[b.peer].name];
    var r := PopulateStep(routes, self, b).value;
    var q := EndingAt(conn.directionAllowedToEnterNextRoute, b.distanceOnCurrentRoute);
    var idx := FindFrom(routes[self].segments, q, 0).value;
    var name := GetBreakinSegmentName(routes[b.peer].segments, conn.positiveEnteringNextPiece,
                                      conn.distanceToBreakIn);
    assert r[self].segments[idx].outSegment == routes[self].segments[idx].outSegment + [name];
    assert Matches(r[self].segments[idx], q);
  }

  /** After an IN breakpoint from a peer whose record toward `self` is
      already stored has been processed, the segment of `self` starting at
      the breakpoint in the entering direction lists, in its in list, the
      peer's segment that ends at the record's break-out distance. */
  lemma PopulateStepLinksIn(routes: seq<Route>, self: RouteId, b: BreakpointInfo)
    requires self < |routes| && b.peer < |routes| && b.bpType == In
    requires routes[self].name in routes[b.peer].connections
    requires PopulateStep(routes, self, b).Some?
    ensures var info := routes[b.peer].connections[routes[self].name];
            var r := PopulateStep(routes, self, b).value;
            var q := StartingAt(info.positiveEnteringNextPiece, b.distanceOnCurrentRoute);
            exists k :: 0 <= k < |r[self].segments| && Matches(r[self].segments[k], q)
              && GetBreakoutSegmentName(routes[b.peer].segments,
                                        info.directionAllowedToEnterNextRoute,
                                        info.distanceToBreakOut) in r[self].segments[k].inSegment
  {
    var info := routes[b.peer].connections[routes[self].name];
    var r := PopulateStep(routes, self, b).value;
    var q := StartingAt(info.positiveEnteringNextPiece, b.distanceOnCurrentRoute);
    var idx := FindFrom(routes[self].segments, q, 0).value;
    var name := GetBreakoutSegmentName(routes[b.peer].segments,
                                       info.directionAllowedToEnterNextRoute,
                                       info.distanceToBreakOut);
    assert r[self].segments[idx].inSegment == routes[self].segments[idx].inSegment + [name];
    assert Matches(r[self].segments[idx], q);
  }

  // ---------------------------------------------------------------------
  // Numbering the segments and the connection matrix
  // ---------------------------------------------------------------------

  /** Runways, then taxiways, then arcs, then gates, each list in the order
      the elements were added. */
  function Concat(routes: seq<Route>, ids: seq<RouteId>): (segs: seq<SegmentInfo>)
    requires forall k :: 0 <= k < |ids| ==> ids[k] < |routes|
  {
    if |ids| == 0 then [] else Concat(routes, ids[..|ids| - 1]) + routes[ids[|ids| - 1]].segments
  }

  /** Every numbered segment belongs to an element of the arena. */
  lemma {:induction false} ConcatOwned(routes: seq<Route>, ids: seq<RouteId>)
    requires forall k :: 0 <= k < |ids| ==> ids[k] < |routes|
    requires Owned(routes)
    ensures forall k :: 0 <= k < |Concat(routes, ids)| ==> Concat(routes, ids)[k].route < |routes|
    decreases |ids|
  {
    if |ids| > 0 {
      ConcatOwned(routes, ids[..|ids| - 1]);
      var front := Concat(routes, ids[..|ids| - 1]);
      var id := ids[|ids| - 1];
      forall k | 0 <= k < |Concat(routes, ids)|
        ensures Concat(routes, ids)[k].route < |routes|
      {
        if k >= |front| {
          assert Concat(routes, ids)[k] == routes[id].segments[k - |front|];
        }
      }
    }
  }

  /** An entry of the connection matrix: the INT_MAX of the simulator is an
      infinite weight, meaning "no edge". */
  datatype Weight = Finite(value: real) | Infinite

  /** Entry [i][j] of the matrix of the numbered segments: 0 on the
      diagonal, the length of segment i when segment j is listed among the
      segments i leads into, no edge otherwise. */
  function EdgeWeight(segs: seq<SegmentInfo>, i: nat, j: nat): Weight
    requires i < |segs| && j < |segs|
  {
    if i == j then Finite(0.0)
    else if segs[j].name in segs[i].outSegment then Finite(segs[i].length)
    else Infinite
  }

  /** The dense matrix of the numbered segments. */
  function Matrix(segs: seq<SegmentInfo>): (m: seq<seq<Weight>>)
    ensures |m| == |segs| && forall i :: 0 <= i < |m| ==> |m[i]| == |segs|
  {
    seq(|segs|, i requires 0 <= i < |segs| =>
      seq(|segs|, j requires 0 <= j < |segs| => EdgeWeight(segs, i, j)))
  }

  /** The name-to-id table: each name to the first id carrying it. */
  ghost predicate NameTable(segs: seq<SegmentInfo>, nameToId: map<string, nat>)
  {
    (forall name :: name in nameToId <==> exists k :: 0 <= k < |segs| && segs[k].name == name)
    && forall name :: name in nameToId ==>
         nameToId[name] < |segs| && segs[nameToId[name]].name == name
         && forall j :: 0 <= j < nameToId[name] ==> segs[j].name != name
  }

  /** The id-to-name table: ids 0..N-1, each to its segment's name. */
  ghost predicate IdTable(segs: seq<SegmentInfo>, idToName: map<nat, string>)
  {
    (forall k: nat :: k in idToName <==> k < |segs|)
    && forall k :: k in idToName ==> k < |segs| && idToName[k] == segs[k].name
  }

  /** Linking keeps every segment with the element it belongs to. */
  lemma ExtendsOwned(before: seq<Route>, after: seq<Route>)
    requires Extends(before, after) && Owned(before)
    ensures Owned(after)
  {
    forall r, j | 0 <= r < |after| && 0 <= j < |after[r].segments|
      ensures after[r].segments[j].route == r
    {
      assert SegmentsExtend(before[r].segments, after[r].segments);
    }
  }

  /** Numbering one more segment: it gets the next id, and its name gets
      that id unless the name already has one (`insert` never overwrites). */
  lemma TablesAppend(segs: seq<SegmentInfo>, idToName: map<nat, string>,
                     nameToId: map<string, nat>, s: SegmentInfo)
    requires IdTable(segs, idToName) && NameTable(segs, nameToId)
    ensures IdTable(segs + [s], idToName[|segs| := s.name])
    ensures NameTable(segs + [s], if s.name in nameToId then nameToId
                                  else nameToId[s.name := |segs|])
  {
    var segs' := segs + [s];
    var m' := if s.name in nameToId then nameToId else nameToId[s.name := |segs|];
    forall name | name in m'
      ensures exists k :: 0 <= k < |segs'| && segs'[k].name == name
    {
      if name in nameToId {
        assert segs'[nameToId[name]].name == name;
      } else {
        assert segs'[|segs|].name == name;
      }
    }
    forall name | exists k :: 0 <= k < |segs'| && segs'[k].name == name
      ensures name in m'
    {
      var k :| 0 <= k < |segs'| && segs'[k].name == name;
      if k < |segs| {
        assert segs[k].name == name;
      }
    }
  }

  /** With pairwise distinct segment names, the two tables are inverse to
      each other. */
  lemma TablesInverse(segs: seq<SegmentInfo>, idToName: map<nat, string>,
                      nameToId: map<string, nat>)
    requires IdTable(segs, idToName) && NameTable(segs, nameToId)
    requires forall i, j :: 0 <= i < j < |segs| ==> segs[i].name != segs[j].name
    ensures forall k :: k in idToName ==> idToName[k] in nameToId && nameToId[idToName[k]] == k
    ensures forall name :: name in nameToId ==>
              nameToId[name] in idToName && idToName[nameToId[name]] == name
  {
    forall k | k in idToName
      ensures idToName[k] in nameToId && nameToId[idToName[k]] == k
    {
      var name := idToName[k];
      assert segs[k].name == name;
    }
  }
}
