/** Slicing one route element into directed segments.
    The distinct breakpoint distances cut the element into slices; each
    slice becomes a positive segment, a negative segment, or both, depending
    on the element's one-way indicator, and consecutive segments of the same
    sign are chained to each other in the direction of travel. */
module Segments {
  import opened Wrappers
  import opened RouteBase
  import Utils

  function Abs(x: real): real { if x < 0.0 then -x else x }
  function Min(a: real, b: real): real { if a <= b then a else b }
  function Max(a: real, b: real): real { if a <= b then b else a }

  function Last(s: seq<real>): real
    requires |s| > 0
  {
    s[|s| - 1]
  }

  predicate SortedBreakpoints(bps: seq<BreakpointInfo>)
  {
    forall i, j :: 0 <= i < j < |bps| ==>
      bps[i].distanceOnCurrentRoute <= bps[j].distanceOnCurrentRoute
  }

  predicate StrictlyIncreasing(d: seq<real>)
  {
    forall i, j :: 0 <= i < j < |d| ==> d[i] < d[j]
  }

  // ---------------------------------------------------------------------
  // Breakpoints
  // ---------------------------------------------------------------------

  /** The breakpoint list after `b` is added to the sorted list `bps` and
      the list is re-sorted by distance: `b` goes after every breakpoint
      not farther than it, one of the orders the unstable sort of the
      simulator may produce among equal distances. */
  function InsertSorted(bps: seq<BreakpointInfo>, b: BreakpointInfo): seq<BreakpointInfo>
  {
    if |bps| == 0 then [b]
    else if bps[0].distanceOnCurrentRoute <= b.distanceOnCurrentRoute
    then [bps[0]] + InsertSorted(bps[1..], b)
    else [b] + bps
  }

  /** Inserting adds exactly `b`. */
  lemma {:induction false} InsertSortedAdds(bps: seq<BreakpointInfo>, b: BreakpointInfo)
    ensures multiset(InsertSorted(bps, b)) == multiset(bps) + multiset{b}
    ensures |InsertSorted(bps, b)| == |bps| + 1
  {
    if |bps| > 0 && bps[0].distanceOnCurrentRoute <= b.distanceOnCurrentRoute {
      InsertSortedAdds(bps[1..], b);
      assert bps == [bps[0]] + bps[1..];
    }
  }

  /** Inserting into a sorted list keeps it sorted. */
  lemma {:induction false} InsertSortedSorted(bps: seq<BreakpointInfo>, b: BreakpointInfo)
    requires SortedBreakpoints(bps)
    ensures SortedBreakpoints(InsertSorted(bps, b))
  {
    if |bps| > 0 && bps[0].distanceOnCurrentRoute <= b.distanceOnCurrentRoute {
      InsertSortedSorted(bps[1..], b);
      InsertSortedAdds(bps[1..], b);
      var rest := InsertSorted(bps[1..], b);
      forall k | 0 <= k < |rest|
        ensures bps[0].distanceOnCurrentRoute <= rest[k].distanceOnCurrentRoute
      {
        assert rest[k] in multiset(rest);
        assert rest[k] == b || rest[k] in multiset(bps[1..]);
      }
    }
  }

  /** `InsertBreakpoint`: the breakpoint is pushed and the list re-sorted by
      distance. The list is sorted before every insertion (it only ever grows
      through this operation), so the sort places the new breakpoint among
      the old ones. */
  method InsertBreakpoint(bps: seq<BreakpointInfo>, b: BreakpointInfo)
    returns (r: seq<BreakpointInfo>)
    requires SortedBreakpoints(bps)
    ensures r == InsertSorted(bps, b)
    ensures SortedBreakpoints(r)
    ensures multiset(r) == multiset(bps) + multiset{b}
  {
    var i := 0;
    while i < |bps| && bps[i].distanceOnCurrentRoute <= b.distanceOnCurrentRoute
      invariant 0 <= i <= |bps|
      invariant InsertSorted(bps, b) == bps[..i] + InsertSorted(bps[i..], b)
    {
      assert bps[i..] == [bps[i]] + bps[i + 1..];
      assert bps[..i + 1] == bps[..i] + [bps[i]];
      i := i + 1;
    }
    r := bps[..i] + [b] + bps[i..];
    InsertSortedAdds(bps, b);
    InsertSortedSorted(bps, b);
  }

  // ---------------------------------------------------------------------
  // Boundaries
  // ---------------------------------------------------------------------

  /** The boundary list after the breakpoints `bps` have been scanned: it
      starts at 0 and gets every breakpoint distance that differs from the
      last boundary so far. */
  function BoundaryPrefix(bps: seq<BreakpointInfo>): (d: seq<real>)
    ensures |d| >= 1 && d[0] == 0.0
  {
    if |bps| == 0 then [0.0]
    else
      var p := BoundaryPrefix(bps[..|bps| - 1]);
      var x := bps[|bps| - 1].distanceOnCurrentRoute;
      if x != Last(p) then p + [x] else p
  }

  /** The boundaries of the slices of an element of length `length`: the
      scanned breakpoint distances, closed by the length unless it is
      already the last boundary. */
  function Boundaries(bps: seq<BreakpointInfo>, length: real): (d: seq<real>)
    ensures |d| >= 1 && d[0] == 0.0 && Last(d) == length
  {
    var p := BoundaryPrefix(bps);
    if length != Last(p) then p + [length] else p
  }

  /** Each boundary is 0, the length or a breakpoint distance, and every
      breakpoint distance is a boundary. */
  lemma {:induction false} BoundaryPrefixContents(bps: seq<BreakpointInfo>)
    ensures forall x :: x in BoundaryPrefix(bps) <==>
              x == 0.0 || exists k :: 0 <= k < |bps| && bps[k].distanceOnCurrentRoute == x
  {
    if |bps| > 0 {
      var q := bps[..|bps| - 1];
      BoundaryPrefixContents(q);
      forall x
        ensures x in BoundaryPrefix(bps) <==>
                x == 0.0 || exists k :: 0 <= k < |bps| && bps[k].distanceOnCurrentRoute == x
      {
        if exists k :: 0 <= k < |q| && q[k].distanceOnCurrentRoute == x {
          var k :| 0 <= k < |q| && q[k].distanceOnCurrentRoute == x;
          assert bps[k] == q[k];
        }
        if exists k :: 0 <= k < |bps| && bps[k].distanceOnCurrentRoute == x {
          var k :| 0 <= k < |bps| && bps[k].distanceOnCurrentRoute == x;
          if k < |q| {
            assert q[k] == bps[k];
          }
        }
      }
    }
  }

  lemma BoundariesContents(bps: seq<BreakpointInfo>, length: real)
    ensures forall x :: x in Boundaries(bps, length) <==>
              x == 0.0 || x == length
              || exists k :: 0 <= k < |bps| && bps[k].distanceOnCurrentRoute == x
  {
    BoundaryPrefixContents(bps);
  }

  /** Breakpoints sorted by distance and lying within [0, length] give
      strictly increasing boundaries from 0 to the length. */
  lemma {:induction false} BoundaryPrefixIncreasing(bps: seq<BreakpointInfo>)
    requires SortedBreakpoints(bps)
    requires forall k :: 0 <= k < |bps| ==> 0.0 <= bps[k].distanceOnCurrentRoute
    ensures StrictlyIncreasing(BoundaryPrefix(bps))
    ensures |bps| > 0 ==> Last(BoundaryPrefix(bps)) == bps[|bps| - 1].distanceOnCurrentRoute
  {
    if |bps| > 0 {
      var q := bps[..|bps| - 1];
      BoundaryPrefixIncreasing(q);
      var p := BoundaryPrefix(q);
      var x := bps[|bps| - 1].distanceOnCurrentRoute;
      assert Last(p) <= x by {
        if |q| > 0 {
          assert Last(p) == q[|q| - 1].distanceOnCurrentRoute == bps[|bps| - 2].distanceOnCurrentRoute;
        }
      }
    }
  }

  lemma BoundariesIncreasing(bps: seq<BreakpointInfo>, length: real)
    requires 0.0 <= length
    requires SortedBreakpoints(bps)
    requires forall k :: 0 <= k < |bps| ==> 0.0 <= bps[k].distanceOnCurrentRoute <= length
    ensures StrictlyIncreasing(Boundaries(bps, length))
    ensures Boundaries(bps, length)[0] == 0.0 && Last(Boundaries(bps, length)) == length
  {
    BoundaryPrefixIncreasing(bps);
    var p := BoundaryPrefix(bps);
    assert Last(p) <= length by {
      if |bps| > 0 {
        assert Last(p) == bps[|bps| - 1].distanceOnCurrentRoute;
      }
    }
  }

  // ---------------------------------------------------------------------
  // Segment layout
  // ---------------------------------------------------------------------

  /** "<element>|<slice>+" or "<element>|<slice>-". */
  function SegmentName(routeName: string, slice: nat, positive: bool): string
  {
    routeName + "|" + Utils.NatToString(slice) + (if positive then "+" else "-")
  }

  /** Segment of slice `i` (between boundaries d[i] and d[i+1]) in one
      direction, before any chaining. */
  function Slice(id: RouteId, routeName: string, d: seq<real>, i: nat, positive: bool)
    : SegmentInfo
    requires i + 1 < |d|
  {
    SegmentInfo(id, SegmentName(routeName, i, positive), Abs(d[i] - d[i + 1]), positive,
                if positive then Min(d[i], d[i + 1]) else Max(d[i], d[i + 1]),
                if positive then Max(d[i], d[i + 1]) else Min(d[i], d[i + 1]), [], [])
  }

  /** Number of segments of an element with `n` slices. */
  function SegmentCount(n: nat, indicator: OneWayIndicator): nat
  {
    if indicator == 0 then 2 * n else n
  }

  /** Slice and sign of the segment at index `k`: two-way elements
      interleave + and - segments of each slice, one-way elements have one
      segment per slice. */
  function SliceOf(indicator: OneWayIndicator, k: nat): nat
  {
    if indicator == 0 then k / 2 else k
  }

  function SignOf(indicator: OneWayIndicator, k: nat): bool
  {
    if indicator == 0 then k % 2 == 0 else indicator == 1
  }

  /** The slice the segment of slice `i` and sign `positive` leads into, in
      its direction of travel, when there is one among the `n` slices. */
  function Downstream(i: nat, positive: bool, n: nat): Option<nat>
  {
    if positive then (if i + 1 < n then Some(i + 1) else None)
    else (if 1 <= i < n then Some(i - 1) else None)
  }

  /** The slice it is entered from. */
  function Upstream(i: nat, positive: bool, n: nat): Option<nat>
  {
    Downstream(i, !positive, n)
  }

  function NamesOf(routeName: string, o: Option<nat>, positive: bool): seq<string>
  {
    if o.Some? then [SegmentName(routeName, o.value, positive)] else []
  }

  /** The segment of slice `i` and sign `positive` among `|d| - 1` slices,
      with its in list (the segment it is entered from) and its out list
      (the segment it leads into) filled in when marked done. */
  function Chained(id: RouteId, routeName: string, d: seq<real>, i: nat, positive: bool,
                   inDone: bool, outDone: bool): SegmentInfo
    requires i + 1 < |d|
  {
    var n := |d| - 1;
    Slice(id, routeName, d, i, positive).(
      inSegment := if inDone then NamesOf(routeName, Upstream(i, positive, n), positive) else [],
      outSegment := if outDone then NamesOf(routeName, Downstream(i, positive, n), positive) else [])
  }

  /** The segment at index `k` of a created element, with its chaining
      inside the element. */
  function CreatedAt(id: RouteId, routeName: string, d: seq<real>, indicator: OneWayIndicator,
                     k: nat): SegmentInfo
    requires |d| >= 1 && k < SegmentCount(|d| - 1, indicator)
  {
    Chained(id, routeName, d, SliceOf(indicator, k), SignOf(indicator, k), true, true)
  }

  /** The segments `CreateSegments` builds for an element. */
  function Created(id: RouteId, routeName: string, d: seq<real>, indicator: OneWayIndicator)
    : (segs: seq<SegmentInfo>)
    requires |d| >= 1
    ensures |segs| == SegmentCount(|d| - 1, indicator)
  {
    seq(SegmentCount(|d| - 1, indicator), k requires 0 <= k < SegmentCount(|d| - 1, indicator) =>
      CreatedAt(id, routeName, d, indicator, k))
  }

  /** `CreateSegments` for an element that has none yet: boundaries from the
      sorted breakpoints, one segment per slice and allowed direction, and
      the chaining of consecutive segments of the same sign. */
  method CreateSegments(id: RouteId, r: Route) returns (segs: seq<SegmentInfo>)
    ensures segs == Created(id, r.name, Boundaries(r.breakpoints, r.length), r.oneWayIndicator)
  {
    // 1. boundaries
    var bpDist := [0.0];
    var b := 0;
    while b < |r.breakpoints|
      invariant 0 <= b <= |r.breakpoints|
      invariant bpDist == BoundaryPrefix(r.breakpoints[..b])
    {
      assert r.breakpoints[..b + 1][..b] == r.breakpoints[..b];
      if r.breakpoints[b].distanceOnCurrentRoute != bpDist[|bpDist| - 1] {
        bpDist := bpDist + [r.breakpoints[b].distanceOnCurrentRoute];
      }
      b := b + 1;
    }
    assert r.breakpoints[..b] == r.breakpoints;
    if r.length != bpDist[|bpDist| - 1] {
      bpDist := bpDist + [r.length];
    }
    var d := bpDist;
    var indicator := r.oneWayIndicator;
    var n := |bpDist| - 1;
    // 2. one segment per slice and allowed direction
    segs := [];
    var i := 0;
    while i < n
      invariant 0 <= i <= n
      invariant |segs| == SegmentCount(i, indicator)
      invariant indicator == 0 ==> forall j :: 0 <= j < i ==>
                  segs[2 * j] == Chained(id, r.name, d, j, true, false, false)
                  && segs[2 * j + 1] == Chained(id, r.name, d, j, false, false, false)
      invariant indicator != 0 ==> forall j :: 0 <= j < i ==>
                  segs[j] == Chained(id, r.name, d, j, indicator == 1, false, false)
    {
      if indicator >= 0 {
        segs := segs + [Slice(id, r.name, bpDist, i, true)];
      }
      if indicator <= 0 {
        segs := segs + [Slice(id, r.name, bpDist, i, false)];
      }
      i := i + 1;
    }
    // 3. chaining inside the element
    if indicator == 0 {
      segs := ChainTwoWay(id, r.name, d, segs);
    } else if indicator == 1 {
      segs := ChainOneWay(id, r.name, d, indicator, segs);
    } else {
      segs := ChainOneWay(id, r.name, d, indicator, segs);
    }
  }

  /** The four chaining loops of a two-way element: the + segment at 2i
      feeds 2i+2, and the - segment at 2i+1 feeds 2i-1. */
  method ChainTwoWay(id: RouteId, routeName: string, d: seq<real>, segs0: seq<SegmentInfo>)
    returns (segs: seq<SegmentInfo>)
    requires |d| >= 1 && |segs0| == 2 * (|d| - 1)
    requires forall j :: 0 <= j < |d| - 1 ==>
               segs0[2 * j] == Chained(id, routeName, d, j, true, false, false)
               && segs0[2 * j + 1] == Chained(id, routeName, d, j, false, false, false)
    ensures segs == Created(id, routeName, d, 0)
  {
    segs := ChainTwoWayPositive(id, routeName, d, segs0);
    segs := ChainTwoWayNegative(id, routeName, d, segs);
    forall k | 0 <= k < |segs|
      ensures segs[k] == CreatedAt(id, routeName, d, 0, k)
    {
      var j := k / 2;
      assert k == 2 * j || k == 2 * j + 1;
    }
  }

  /** The first two loops: out and in lists of the + segments. */
  method ChainTwoWayPositive(id: RouteId, routeName: string, d: seq<real>,
                             segs0: seq<SegmentInfo>)
    returns (segs: seq<SegmentInfo>)
    requires |d| >= 1 && |segs0| == 2 * (|d| - 1)
    requires forall j :: 0 <= j < |d| - 1 ==>
               segs0[2 * j] == Chained(id, routeName, d, j, true, false, false)
               && segs0[2 * j + 1] == Chained(id, routeName, d, j, false, false, false)
    ensures |segs| == |segs0|
    ensures forall j :: 0 <= j < |d| - 1 ==>
              segs[2 * j] == Chained(id, routeName, d, j, true, true, true)
              && segs[2 * j + 1] == Chained(id, routeName, d, j, false, false, false)
  {
    var n := |d| - 1;
    segs := segs0;
    var i := 0;
    while i < n - 1
      invariant 0 <= i <= n && |segs| == 2 * n
      invariant forall j :: 0 <= j < n ==>
                  segs[2 * j] == Chained(id, routeName, d, j, true, false, j < i)
                  && segs[2 * j + 1] == Chained(id, routeName, d, j, false, false, false)
    {
      assert segs[2 * (i + 1)].name == SegmentName(routeName, i + 1, true);
      segs := segs[2 * i := segs[2 * i].(outSegment := segs[2 * i].outSegment + [segs[2 * i + 2].name])];
      i := i + 1;
    }
    i := 1;
    while i < n
      invariant 1 <= i && (n >= 1 ==> i <= n) && |segs| == 2 * n
      invariant forall j :: 0 <= j < n ==>
                  segs[2 * j] == Chained(id, routeName, d, j, true, j == 0 || j < i, true)
                  && segs[2 * j + 1] == Chained(id, routeName, d, j, false, false, false)
    {
      assert segs[2 * (i - 1)].name == SegmentName(routeName, i - 1, true);
      segs := segs[2 * i := segs[2 * i].(inSegment := segs[2 * i].inSegment + [segs[2 * i - 2].name])];
      i := i + 1;
    }
  }

  /** The last two loops: in and out lists of the - segments. */
  method ChainTwoWayNegative(id: RouteId, routeName: string, d: seq<real>,
                             segs0: seq<SegmentInfo>)
    returns (segs: seq<SegmentInfo>)
    requires |d| >= 1 && |segs0| == 2 * (|d| - 1)
    requires forall j :: 0 <= j < |d| - 1 ==>
               segs0[2 * j] == Chained(id, routeName, d, j, true, true, true)
               && segs0[2 * j + 1] == Chained(id, routeName, d, j, false, false, false)
    ensures |segs| == |segs0|
    ensures forall j :: 0 <= j < |d| - 1 ==>
              segs[2 * j] == Chained(id, routeName, d, j, true, true, true)
              && segs[2 * j + 1] == Chained(id, routeName, d, j, false, true, true)
  {
    var n := |d| - 1;
    segs := segs0;
    var i := 0;
    while i < n - 1
      invariant 0 <= i <= n && |segs| == 2 * n
      invariant forall j :: 0 <= j < n ==>
                  segs[2 * j] == Chained(id, routeName, d, j, true, true, true)
                  && segs[2 * j + 1] == Chained(id, routeName, d, j, false, j < i, false)
    {
      assert segs[2 * (i + 1) + 1].name == SegmentName(routeName, i + 1, false);
      segs := segs[2 * i + 1 := segs[2 * i + 1].(inSegment := segs[2 * i + 1].inSegment + [segs[2 * i + 3].name])];
      i := i + 1;
    }
    segs := ChainTwoWayNegativeOut(id, routeName, d, segs);
  }

  /** The fourth loop: out lists of the - segments. */
  method ChainTwoWayNegativeOut(id: RouteId, routeName: string, d: seq<real>,
                                segs0: seq<SegmentInfo>)
    returns (segs: seq<SegmentInfo>)
    requires |d| >= 1 && |segs0| == 2 * (|d| - 1)
    requires forall j :: 0 <= j < |d| - 1 ==>
               segs0[2 * j] == Chained(id, routeName, d, j, true, true, true)
               && segs0[2 * j + 1] == Chained(id, routeName, d, j, false, true, false)
    ensures |segs| == |segs0|
    ensures forall j :: 0 <= j < |d| - 1 ==>
              segs[2 * j] == Chained(id, routeName, d, j, true, true, true)
              && segs[2 * j + 1] == Chained(id, routeName, d, j, false, true, true)
  {
    var n := |d| - 1;
    segs := segs0;
    var i := 1;
    while i < n
      invariant 1 <= i && (n >= 1 ==> i <= n) && |segs| == 2 * n
      invariant forall j :: 0 <= j < n ==>
                  segs[2 * j] == Chained(id, routeName, d, j, true, true, true)
                  && segs[2 * j + 1] == Chained(id, routeName, d, j, false, true, j == 0 || j < i)
    {
      assert segs[2 * (i - 1) + 1].name == SegmentName(routeName, i - 1, false);
      segs := segs[2 * i + 1 := segs[2 * i + 1].(outSegment := segs[2 * i + 1].outSegment + [segs[2 * i - 1].name])];
      i := i + 1;
    }
  }

  /** The two chaining loops of a one-way element: + segment i feeds i+1,
      - segment i feeds i-1. */
  method ChainOneWay(id: RouteId, routeName: string, d: seq<real>, indicator: OneWayIndicator,
                     segs0: seq<SegmentInfo>)
    returns (segs: seq<SegmentInfo>)
    requires indicator != 0
    requires |d| >= 1 && |segs0| == |d| - 1
    requires forall j :: 0 <= j < |segs0| ==>
               segs0[j] == Chained(id, routeName, d, j, indicator == 1, false, false)
    ensures segs == Created(id, routeName, d, indicator)
  {
    var n := |d| - 1;
    var positive := indicator == 1;
    segs := segs0;
    var i := 0;
    while i < n - 1
      invariant 0 <= i <= n && |segs| == n
      invariant forall j :: 0 <= j < n ==>
                  segs[j] == Chained(id, routeName, d, j, positive, !positive && j < i,
                                     positive && j < i)
    {
      if indicator == 1 {
        segs := segs[i := segs[i].(outSegment := segs[i].outSegment + [segs[i + 1].name])];
      } else {
        segs := segs[i := segs[i].(inSegment := segs[i].inSegment + [segs[i + 1].name])];
      }
      i := i + 1;
    }
    i := 1;
    while i < n
      invariant 1 <= i && (n >= 1 ==> i <= n) && |segs| == n
      invariant forall j :: 0 <= j < n ==>
                  segs[j] == Chained(id, routeName, d, j, positive, !positive || j == 0 || j < i,
                                     positive || j == 0 || j < i)
    {
      if indicator == 1 {
        segs := segs[i := segs[i].(inSegment := segs[i].inSegment + [segs[i - 1].name])];
      } else {
        segs := segs[i := segs[i].(outSegment := segs[i].outSegment + [segs[i - 1].name])];
      }
      i := i + 1;
    }
  }
}
