/** The airport: the arena of route elements it owns, the lists of its
    runways, taxiways, arcs and gates in the order they were added, the
    lookup of elements by name, the hold points, and, once built, the
    numbered segments and the connection matrix itineraries are searched
    on. Every element is a record of the arena; the methods of the
    simulator's element classes that change an element are methods here
    that replace that record. */
module Airports {
  import opened Wrappers
  import opened RouteBase
  import opened Segments
  import opened SegmentQueries
  import opened Topology
  import opened Pathfinder
  import HoldPoints
  import Gates
  import opened Motion

  /** Where a landing aircraft is put on its runway. */
  datatype LandingPositionInfo = LandingPositionInfo(runway: RouteId, direction: bool,
                                                     distance: real)

  /** The touch-down markings of a runway, as laid out. */
  datatype RunwayDetails = RunwayDetails(
    indicatorToRunwayEnd: real,
    mainNumber: int,
    indicatorInterval: real,
    indicatorLength: real,
    mainToNormalRatio: real,
    numOfIndicators: int)

  /** `after` is `before` with every element listed in `ids` reset and the
      others untouched. */
  predicate ResetOn(before: seq<Route>, after: seq<Route>, ids: seq<RouteId>)
  {
    |after| == |before|
    && forall r :: 0 <= r < |after| ==>
         after[r] == if r in ids then Gates.ResetRoute(before[r]) else before[r]
  }

  /** Two reset loops one after the other reset what either lists. */
  lemma ResetOnCompose(a: seq<Route>, b: seq<Route>, c: seq<Route>,
                       ids1: seq<RouteId>, ids2: seq<RouteId>)
    requires ResetOn(a, b, ids1) && ResetOn(b, c, ids2)
    ensures ResetOn(a, c, ids1 + ids2)
  {
    forall r | 0 <= r < |c|
      ensures c[r] == if r in ids1 + ids2 then Gates.ResetRoute(a[r]) else a[r]
    {
      Gates.ResetIdempotent(a[r]);
    }
  }

  /** One round of the itinerary loop: the next owner name is appended
      unless it equals the last one. */
  lemma CollapseStep(s: seq<string>, i: nat)
    requires i < |s|
    ensures var c := Collapse(s[..i]);
            Collapse(s[..i + 1]) == if c != [] && c[|c| - 1] == s[i] then c else c + [s[i]]
  {
    assert s[..i + 1][..i] == s[..i];
  }

  /** Every segment id of `path` is numbered. */
  predicate OnSegments(path: seq<nat>, segs: seq<SegmentInfo>)
  {
    forall k :: 0 <= k < |path| ==> path[k] < |segs|
  }

  /** The name of the element numbered segment `v` belongs to, as the
      itinerary loop of `Airport::Dijkstra` reads it: the element of the
      first segment carrying `v`'s name. */
  function OwnerIn(routes: seq<Route>, segs: seq<SegmentInfo>, idToName: map<nat, string>,
                   v: nat): (name: string)
    requires IdTable(segs, idToName) && v < |segs|
    requires forall k :: 0 <= k < |segs| ==> segs[k].route < |routes|
  {
    var owner := SegmentRoute(segs, idToName[v]);
    routes[owner.value].name
  }

  /** The owner of a numbered segment is the element of a segment with the
      same name; of the segment itself when segment names are unique. */
  lemma OwnerInSpec(routes: seq<Route>, segs: seq<SegmentInfo>, idToName: map<nat, string>,
                    v: nat)
    requires IdTable(segs, idToName) && v < |segs|
    requires forall k :: 0 <= k < |segs| ==> segs[k].route < |routes|
    ensures exists k :: 0 <= k < |segs| && segs[k].name == segs[v].name
                        && OwnerIn(routes, segs, idToName, v) == routes[segs[k].route].name
    ensures (forall k :: 0 <= k < |segs| && segs[k].name == segs[v].name ==> k == v)
            ==> OwnerIn(routes, segs, idToName, v) == routes[segs[v].route].name
  {
  }

  /** The owner names of the segments along `path`. */
  function OwnersIn(routes: seq<Route>, segs: seq<SegmentInfo>, idToName: map<nat, string>,
                    path: seq<nat>): (names: seq<string>)
    requires IdTable(segs, idToName) && OnSegments(path, segs)
    requires forall k :: 0 <= k < |segs| ==> segs[k].route < |routes|
    ensures |names| == |path|
    ensures forall k :: 0 <= k < |path| ==> names[k] == OwnerIn(routes, segs, idToName, path[k])
    decreases |path|
  {
    if path == [] then []
    else
      OwnersIn(routes, segs, idToName, path[..|path| - 1])
      + [OwnerIn(routes, segs, idToName, path[|path| - 1])]
  }

  /** `routeList` is the itinerary of a path of the graph from `src` to
      `dst`: the elements its segments belong to, each run of segments of
      one element named once. It starts with the element of `src`, ends with
      that of `dst`, and never names an element twice in a row. */
  ghost predicate Routed(routes: seq<Route>, segs: seq<SegmentInfo>, idToName: map<nat, string>,
                         graph: seq<seq<Weight>>, src: nat, dst: nat, routeList: seq<string>)
  {
    IdTable(segs, idToName) && (forall k :: 0 <= k < |segs| ==> segs[k].route < |routes|)
    && src < |segs| && dst < |segs|
    && (exists path :: IsPath(graph, path) && path[0] == src && path[|path| - 1] == dst
                       && OnSegments(path, segs)
                       && routeList == Collapse(OwnersIn(routes, segs, idToName, path)))
    && NoAdjacentRepeats(routeList)
    && |routeList| >= 1 && routeList[0] == OwnerIn(routes, segs, idToName, src)
    && routeList[|routeList| - 1] == OwnerIn(routes, segs, idToName, dst)
  }

  /** What an itinerary found by `GetRoute` shows without its path: it
      names the element of `src` first and that of `dst` last, and never
      names an element twice in a row. */
  ghost predicate Joins(routes: seq<Route>, segs: seq<SegmentInfo>, idToName: map<nat, string>,
                        src: nat, dst: nat, routeList: seq<string>)
  {
    IdTable(segs, idToName) && (forall k :: 0 <= k < |segs| ==> segs[k].route < |routes|)
    && src < |segs| && dst < |segs|
    && NoAdjacentRepeats(routeList)
    && |routeList| >= 1 && routeList[0] == OwnerIn(routes, segs, idToName, src)
    && routeList[|routeList| - 1] == OwnerIn(routes, segs, idToName, dst)
  }

  lemma RoutedJoins(routes: seq<Route>, segs: seq<SegmentInfo>, idToName: map<nat, string>,
                    graph: seq<seq<Weight>>, src: nat, dst: nat, routeList: seq<string>)
    requires Routed(routes, segs, idToName, graph, src, dst, routeList)
    ensures Joins(routes, segs, idToName, src, dst, routeList)
  {
  }

  /** A path of the matrix built over `segs` only visits numbered
      segments. */
  lemma PathOnSegments(graph: seq<seq<Weight>>, path: seq<nat>, segs: seq<SegmentInfo>)
    requires |graph| == |segs| && |path| >= 1 && path[|path| - 1] < |segs| && IsPath(graph, path)
    ensures OnSegments(path, segs)
  {
    forall k | 0 <= k < |path|
      ensures path[k] < |segs|
    {
      if k < |path| - 1 {
        assert Edge(graph, path[k], path[k + 1]);
      }
    }
  }

  /** Collapsing the owners along a path from `src` to `dst` gives an
      itinerary that joins the owners of `src` and `dst`. */
  lemma CollapsedPathRouted(routes: seq<Route>, segs: seq<SegmentInfo>,
                            idToName: map<nat, string>, graph: seq<seq<Weight>>, src: nat,
                            dst: nat, path: seq<nat>)
    requires IdTable(segs, idToName) && (forall k :: 0 <= k < |segs| ==> segs[k].route < |routes|)
    requires IsPath(graph, path) && path[0] == src && path[|path| - 1] == dst
    requires OnSegments(path, segs)
    ensures Routed(routes, segs, idToName, graph, src, dst,
                   Collapse(OwnersIn(routes, segs, idToName, path)))
  {
    var names := OwnersIn(routes, segs, idToName, path);
    CollapseNoAdjacentRepeats(names);
    CollapseSameElements(names);
    assert names[0] == OwnerIn(routes, segs, idToName, src);
    assert names[|names| - 1] == OwnerIn(routes, segs, idToName, dst);
  }

  /** The itinerary loop of `Airport::Dijkstra`: the owner of each segment
      along the path is appended unless it is the one appended last. */
  method Itinerary(routes: seq<Route>, segs: seq<SegmentInfo>, idToName: map<nat, string>,
                   path: seq<nat>) returns (routeList: seq<string>)
    requires IdTable(segs, idToName) && OnSegments(path, segs)
    requires forall k :: 0 <= k < |segs| ==> segs[k].route < |routes|
    ensures routeList == Collapse(OwnersIn(routes, segs, idToName, path))
  {
    ghost var names := OwnersIn(routes, segs, idToName, path);
    routeList := [];
    var i := 0;
    while i < |path|
      invariant 0 <= i <= |path|
      invariant routeList == Collapse(names[..i])
    {
      var owner := SegmentRoute(segs, idToName[path[i]]);
      var name := routes[owner.value].name;
      assert name == names[i];
      if routeList == [] || routeList[|routeList| - 1] != name {
        routeList := routeList + [name];
      }
      CollapseStep(names, i);
      i := i + 1;
    }
    assert names[..i] == names;
  }

  /** Breakpoints, segments and gate data of every element are as they
      were. */
  predicate SameLayout(before: seq<Route>, after: seq<Route>)
  {
    |after| == |before|
    && forall r :: 0 <= r < |after| ==>
         after[r].breakpoints == before[r].breakpoints
         && after[r].segments == before[r].segments && after[r].gate == before[r].gate
  }

  /** Adding connection records leaves the layout as it was. */
  lemma GrowKeepsLayout(before: seq<Route>, after: seq<Route>)
    requires ConnectionsGrow(before, after)
    ensures SameLayout(before, after)
  {
    forall r | 0 <= r < |after|
      ensures after[r].breakpoints == before[r].breakpoints
              && after[r].segments == before[r].segments && after[r].gate == before[r].gate
    {
      assert RouteConnectionsGrow(before[r], after[r]);
    }
  }

  /** A leg changes only connection records and occupancy: breakpoints,
      segments and gate data stay as they were. */
  lemma LegKeepsLayout(routes: seq<Route>, aircraft: AircraftId, pos: Position, delta: real)
    requires pos.current < |routes| && |pos.taxiRoutes| >= 1
    ensures var l := LegOf(routes, aircraft, pos, delta);
            !l.Broken? ==> SameLayout(routes, l.routes)
  {
  }

  /** One leg of `RouteBase::ComputePosition` on the arena `routes`: the
      new distance, the bound (with the connection record toward the next
      element of the itinerary default-inserted), and either a stop on the
      element or the transfer of the aircraft to the next one. A missing
      next piece is excluded. */
  method TakeLeg(routes: seq<Route>, aircraft: AircraftId, pos: Position, delta: real)
    returns (leg: Leg)
    requires pos.current < |routes| && |pos.taxiRoutes| >= 1
    requires !LegOf(routes, aircraft, pos, delta).Broken?
    ensures leg == LegOf(routes, aircraft, pos, delta)
  {
    var newDist := Moving(pos, delta);
    var cur := routes[pos.current];
    if |pos.taxiRoutes| == 1 {
      var bound := if pos.direction then cur.length else 0.0;
      if Short(newDist, bound, pos.direction) {
        return Stay(routes, pos.(dist := newDist));
      }
      return Stay(routes, pos.(dist := bound, taxiRoutes := []));
    }
    var got := GetConnectionInfo(cur.connections, pos.taxiRoutes[1]);
    var info := got.0;
    var arena := routes[pos.current := cur.(connections := got.1)];
    var bound := info.distanceToBreakOut;
    if Short(newDist, bound, pos.direction) {
      return Stay(arena, pos.(dist := newDist));
    }
    if info.directionAllowedToEnterNextRoute != pos.direction {
      return Stay(arena, pos);
    }
    var residual := if pos.direction then newDist - bound else bound - newDist;
    var next := info.nextPiece.value;
    arena := arena[pos.current := ClearAircraft(arena[pos.current], aircraft)];
    arena := arena[next := InsertAircraft(arena[next], aircraft)];
    leg := Enter(arena, Position(info.distanceToBreakIn, info.positiveEnteringNextPiece, next,
                                 pos.taxiRoutes[1..]), residual);
  }

  /** Every id is an index of the arena. */
  predicate InArena(ids: seq<RouteId>, n: nat)
  {
    forall k :: 0 <= k < |ids| ==> ids[k] < n
  }

  /** The three touch-down distances of the positive direction: the first
      marking, the end of the main markings, the end of all markings. */
  function TouchDownRange(d: RunwayDetails): (t: seq<real>)
    ensures |t| == 3 && t[0] == d.indicatorToRunwayEnd
  {
    [d.indicatorToRunwayEnd,
     d.indicatorToRunwayEnd + (d.mainNumber - 1) as real * d.indicatorInterval
       + d.indicatorLength * d.mainToNormalRatio / 2.0,
     d.indicatorToRunwayEnd + (d.numOfIndicators - 1) as real * d.indicatorInterval
       + d.indicatorLength / 2.0]
  }

  /** `id` with `name` (the default-inserted value) when `name` has no id. */
  function IdOf(nameToId: map<string, nat>, name: string): nat
  {
    if name in nameToId then nameToId[name] else 0
  }

  /** The two gate selections of the airport: gates of one exact size,
      and gates nobody is assigned to. */
  datatype GateTest = ExactSize(size: int) | Available

  predicate Passes(t: GateTest, g: GateInfo)
  {
    match t
    case ExactSize(size) => g.size == size
    case Available => Gates.IsAvailable(g)
  }

  /** The gates of `ids` whose gate data pass `t`, in order. */
  function FilterGates(routes: seq<Route>, ids: seq<RouteId>, t: GateTest)
    : (res: seq<RouteId>)
    requires forall k :: 0 <= k < |ids| ==> ids[k] < |routes| && routes[ids[k]].gate.Some?
    ensures |res| <= |ids|
    ensures forall k :: 0 <= k < |res| ==> res[k] < |routes| && routes[res[k]].gate.Some?
    decreases |ids|
  {
    if |ids| == 0 then []
    else
      var front := FilterGates(routes, ids[..|ids| - 1], t);
      var g := ids[|ids| - 1];
      if Passes(t, routes[g].gate.value) then front + [g] else front
  }

  /** A gate is selected exactly when it is one of `ids` and passes `t`. */
  lemma {:induction false} FilterGatesSpec(routes: seq<Route>, ids: seq<RouteId>, t: GateTest)
    requires forall k :: 0 <= k < |ids| ==> ids[k] < |routes| && routes[ids[k]].gate.Some?
    ensures forall g :: g in FilterGates(routes, ids, t) <==>
              g in ids && g < |routes| && routes[g].gate.Some? && Passes(t, routes[g].gate.value)
    decreases |ids|
  {
    if |ids| > 0 {
      var front := ids[..|ids| - 1];
      FilterGatesSpec(routes, front, t);
      assert ids == front + [ids[|ids| - 1]];
    }
  }

  /** The selection depends only on the gate data of the listed gates. */
  lemma {:induction false} FilterGatesFrame(routes: seq<Route>, routes': seq<Route>,
                                            ids: seq<RouteId>, t: GateTest)
    requires forall k :: 0 <= k < |ids| ==> ids[k] < |routes| && routes[ids[k]].gate.Some?
    requires forall k :: 0 <= k < |ids| ==> ids[k] < |routes'|
                                            && routes'[ids[k]].gate == routes[ids[k]].gate
    ensures FilterGates(routes, ids, t) == FilterGates(routes', ids, t)
    decreases |ids|
  {
    if |ids| > 0 {
      FilterGatesFrame(routes, routes', ids[..|ids| - 1], t);
    }
  }

  /** The window test of `GetActiveRunwayInfo`: the wind, or the wind
      shifted by a full turn either way, lies within 90 degrees below
      (inclusive) or above (exclusive) the runway heading. */
  predicate Active(runwayNumber: int, wind: real)
  {
    var low := (runwayNumber * 10 - 90) as real;
    var up := (runwayNumber * 10 + 90) as real;
    (low <= wind < up) || (low <= wind - 360.0 < up) || (low <= wind + 360.0 < up)
  }

  /** For a wind direction in [0, 360), exactly one of the two directions
      of a runway (numbers n and n + 18) is in use. */
  lemma ExactlyOneDirectionActive(n: int, wind: real)
    requires 0 <= n <= 17 && 0.0 <= wind < 360.0
    ensures Active(n, wind) != Active(n + 18, wind)
  {
  }

  /** The runway directions of `ids` whose window contains the wind. */
  function ActiveRunwayInfo(routes: seq<Route>, ids: seq<RouteId>, wind: real)
    : (res: seq<RunwayInfo>)
    requires InArena(ids, |routes|)
    decreases |ids|
  {
    if |ids| == 0 then []
    else
      ActiveRunwayInfo(routes, ids[..|ids| - 1], wind)
      + ActiveOf(routes[ids[|ids| - 1]].runwayInfo, wind)
  }

  function ActiveOf(infos: seq<RunwayInfo>, wind: real): (res: seq<RunwayInfo>)
    decreases |infos|
  {
    if |infos| == 0 then []
    else
      ActiveOf(infos[..|infos| - 1], wind)
      + (if Active(infos[|infos| - 1].runwayNumber, wind) then [infos[|infos| - 1]] else [])
  }

  /** A runway direction is returned exactly when it belongs to one of the
      runways and passes the window test. */
  lemma {:induction false} ActiveRunwayInfoSpec(routes: seq<Route>, ids: seq<RouteId>,
                                                wind: real)
    requires InArena(ids, |routes|)
    ensures forall info :: info in ActiveRunwayInfo(routes, ids, wind) <==>
              Active(info.runwayNumber, wind)
              && exists k :: 0 <= k < |ids| && info in routes[ids[k]].runwayInfo
    decreases |ids|
  {
    if |ids| > 0 {
      var front := ids[..|ids| - 1];
      var last := ids[|ids| - 1];
      ActiveRunwayInfoSpec(routes, front, wind);
      ActiveOfSpec(routes[last].runwayInfo, wind);
      forall info: RunwayInfo | Active(info.runwayNumber, wind)
                    && (exists k :: 0 <= k < |ids| && info in routes[ids[k]].runwayInfo)
        ensures info in ActiveRunwayInfo(routes, ids, wind)
      {
        var k :| 0 <= k < |ids| && info in routes[ids[k]].runwayInfo;
        if k < |ids| - 1 {
          assert front[k] == ids[k];
        }
      }
      forall info: RunwayInfo | info in ActiveRunwayInfo(routes, ids, wind)
        ensures exists k :: 0 <= k < |ids| && info in routes[ids[k]].runwayInfo
      {
        if info in ActiveRunwayInfo(routes, front, wind) {
          var k :| 0 <= k < |front| && info in routes[front[k]].runwayInfo;
          assert ids[k] == front[k];
        } else {
          assert info in routes[ids[|ids| - 1]].runwayInfo;
        }
      }
    }
  }

  lemma {:induction false} ActiveOfSpec(infos: seq<RunwayInfo>, wind: real)
    ensures forall info :: info in ActiveOf(infos, wind) <==>
              info in infos && Active(info.runwayNumber, wind)
    decreases |infos|
  {
    if |infos| > 0 {
      var front := infos[..|infos| - 1];
      ActiveOfSpec(front, wind);
      assert infos == front + [infos[|infos| - 1]];
    }
  }

  /** The first hold point kept for `runway` with type `t`, or the
      value-initialised hold point when there is none. */
  function FirstHold(holdpoints: seq<HoldPoint>, runway: string, t: HoldPointType)
    : (hp: HoldPoint)
    ensures (forall k :: 0 <= k < |holdpoints| ==>
               !(holdpoints[k].holdForTakeOffRunway == runway && holdpoints[k].holdType == t))
            ==> hp == EmptyHoldPoint
    ensures (exists k :: 0 <= k < |holdpoints|
               && holdpoints[k].holdForTakeOffRunway == runway && holdpoints[k].holdType == t)
            ==> (exists k :: 0 <= k < |holdpoints| && hp == holdpoints[k]
                   && hp.holdForTakeOffRunway == runway && hp.holdType == t
                   && forall j :: 0 <= j < k ==>
                        !(holdpoints[j].holdForTakeOffRunway == runway
                          && holdpoints[j].holdType == t))
    decreases |holdpoints|
  {
    if |holdpoints| == 0 then EmptyHoldPoint
    else if holdpoints[0].holdForTakeOffRunway == runway && holdpoints[0].holdType == t
    then holdpoints[0]
    else
      var hp := FirstHold(holdpoints[1..], runway, t);
      assert forall k :: 1 <= k < |holdpoints| ==> holdpoints[k] == holdpoints[1..][k - 1];
      hp
  }

  /** The element of the first segment called `name`, if any. */
  function SegmentRoute(segs: seq<SegmentInfo>, name: string): (r: Option<RouteId>)
    ensures r.Some? <==> exists k :: 0 <= k < |segs| && segs[k].name == name
    ensures r.Some? ==> exists k :: 0 <= k < |segs| && segs[k].name == name
                                    && segs[k].route == r.value
    decreases |segs|
  {
    if |segs| == 0 then None
    else if segs[0].name == name then Some(segs[0].route)
    else
      var r := SegmentRoute(segs[1..], name);
      assert forall k :: 1 <= k < |segs| ==> segs[k] == segs[1..][k - 1];
      r
  }

  class Airport {
    /** The arena of route elements. */
    var routes: seq<Route>
    /** `str_2_ptr_`: element by name. */
    var routeIds: map<string, RouteId>
    var runways: seq<RouteId>
    var taxiways: seq<RouteId>
    var arcways: seq<RouteId>
    var gates: seq<RouteId>
    var holdpoints: seq<HoldPoint>
    var callingNameToInternalName: map<string, string>
    var displayRoadText: bool
    /** The numbered segments: segment `i` is matrix row and column `i`. */
    var segments: seq<SegmentInfo>
    var idToName: map<nat, string>
    var nameToId: map<string, nat>
    var matrix: seq<seq<Weight>>
    /** false: day (west flow), true: night. */
    const mode: bool
    var windDirection: real

    /** Runways, then taxiways, then arcs, then gates. */
    function Order(): seq<RouteId>
      reads this`runways, this`taxiways, this`arcways, this`gates
    {
      runways + taxiways + arcways + gates
    }

    /** The listed elements, the named elements and the owners of the
        numbered segments are elements of the arena; gates carry gate data;
        breakpoints are sorted; every element holds only its own segments. */
    predicate Valid()
      reads this`routes, this`routeIds, this`runways, this`taxiways, this`arcways, this`gates,
            this`segments
    {
      (forall name :: name in routeIds ==> routeIds[name] < |routes|)
      && InArena(runways, |routes|) && InArena(taxiways, |routes|) && InArena(arcways, |routes|)
      && (forall k :: 0 <= k < |gates| ==> gates[k] < |routes| && routes[gates[k]].gate.Some?)
      && AllSorted(routes)
      && Owned(routes)
      && (forall k :: 0 <= k < |segments| ==> segments[k].route < |routes|)
    }

    lemma OrderInArena()
      requires Valid()
      ensures InArena(Order(), |routes|)
    {
      var o := Order();
      forall k | 0 <= k < |o|
        ensures o[k] < |routes|
      {
        if k >= |runways| + |taxiways| + |arcways| {
          assert o[k] == gates[k - |runways| - |taxiways| - |arcways|];
        } else if k >= |runways| + |taxiways| {
          assert o[k] == arcways[k - |runways| - |taxiways|];
        } else if k >= |runways| {
          assert o[k] == taxiways[k - |runways|];
        }
      }
    }

    /** The matrix and the id-to-name table describe the numbered segments. */
    ghost predicate Built()
      reads this`matrix, this`segments, this`idToName
    {
      matrix == Matrix(segments) && Named()
    }

    /** The id-to-name table names the numbered segments. */
    ghost predicate Named()
      reads this`segments, this`idToName
    {
      IdTable(segments, idToName)
    }

    /** An airport with no elements; the layout is added with the methods
        below. */
    constructor (mode: bool)
      ensures Valid() && this.mode == mode
      ensures routes == [] && routeIds == map[] && Order() == [] && holdpoints == []
      ensures segments == [] && idToName == map[] && nameToId == map[] && matrix == []
      ensures callingNameToInternalName == map[] && !displayRoadText && windDirection == 0.0
    {
      routes := [];
      routeIds := map[];
      runways, taxiways, arcways, gates := [], [], [], [];
      holdpoints := [];
      callingNameToInternalName := map[];
      displayRoadText := false;
      segments := [];
      idToName := map[];
      nameToId := map[];
      matrix := [];
      this.mode := mode;
      windDirection := 0.0;
    }

    // -------------------------------------------------------------------
    // Layout
    // -------------------------------------------------------------------

    /** `str_2_ptr_[name]`, or none. */
    function GetRoutePtr(name: string): (r: Option<RouteId>)
      reads this`routeIds
    {
      if name in routeIds then Some(routeIds[name]) else None
    }

    /** `AddRunway`: a new runway with its two directions, numbered from its
        heading, is appended to the arena and the runway list and becomes
        the element of its name. */
    method AddRunway(name: string, startDirection: real, length: real, width: real,
                     taxiSpeedLimit: real, details: RunwayDetails, letter: string)
      requires Valid()
      modifies this`routes, this`runways, this`routeIds
      ensures Valid()
      ensures var id := |old(routes)|;
              routes == old(routes) + [NewRoute(name, Runway, length, width, taxiSpeedLimit).(
                runwayInfo := RunwayInfos(id, name, startDirection, length, letter,
                                          TouchDownRange(details)))]
              && runways == old(runways) + [id]
              && GetRoutePtr(name) == Some(id)
              && forall other :: other != name ==> GetRoutePtr(other) == old(GetRoutePtr(other))
    {
      var id := |routes|;
      var r := NewRoute(name, Runway, length, width, taxiSpeedLimit);
      routes := routes + [r.(runwayInfo := RunwayInfos(id, name, startDirection, length, letter,
                                                       TouchDownRange(details)))];
      runways := runways + [id];
      routeIds := routeIds[name := id];
    }

    /** `AddTaxiway`. */
    method AddTaxiway(name: string, length: real, width: real, taxiSpeedLimit: real)
      requires Valid()
      modifies this`routes, this`taxiways, this`routeIds
      ensures Valid()
      ensures var id := |old(routes)|;
              routes == old(routes) + [NewRoute(name, Taxiway, length, width, taxiSpeedLimit)]
              && taxiways == old(taxiways) + [id]
              && GetRoutePtr(name) == Some(id)
              && forall other :: other != name ==> GetRoutePtr(other) == old(GetRoutePtr(other))
    {
      var id := |routes|;
      routes := routes + [NewRoute(name, Taxiway, length, width, taxiSpeedLimit)];
      taxiways := taxiways + [id];
      routeIds := routeIds[name := id];
    }

    /** `AddArcway`: the length is the arc length of the layout. */
    method AddArcway(name: string, length: real, width: real, taxiSpeedLimit: real)
      requires Valid()
      modifies this`routes, this`arcways, this`routeIds
      ensures Valid()
      ensures var id := |old(routes)|;
              routes == old(routes) + [NewRoute(name, Arcway, length, width, taxiSpeedLimit)]
              && arcways == old(arcways) + [id]
              && GetRoutePtr(name) == Some(id)
              && forall other :: other != name ==> GetRoutePtr(other) == old(GetRoutePtr(other))
    {
      var id := |routes|;
      routes := routes + [NewRoute(name, Arcway, length, width, taxiSpeedLimit)];
      arcways := arcways + [id];
      routeIds := routeIds[name := id];
    }

    /** `AddGate`: a gate of the given size, with nobody assigned. */
    method AddGate(name: string, length: real, width: real, taxiSpeedLimit: real, size: int)
      requires Valid()
      modifies this`routes, this`gates, this`routeIds
      ensures Valid()
      ensures var id := |old(routes)|;
              routes == old(routes) + [NewRoute(name, Gate, length, width, taxiSpeedLimit).(
                gate := Some(GateInfo(size, map[], map[], [])))]
              && gates == old(gates) + [id]
              && GetRoutePtr(name) == Some(id)
              && forall other :: other != name ==> GetRoutePtr(other) == old(GetRoutePtr(other))
    {
      var id := |routes|;
      var r := NewRoute(name, Gate, length, width, taxiSpeedLimit);
      routes := routes + [r.(gate := Some(GateInfo(size, map[], map[], [])))];
      gates := gates + [id];
      routeIds := routeIds[name := id];
    }

    /** The layout's table from the calling name of a runway direction to
        its internal name. */
    method SetRunwayCallingName(callingName: string, internalName: string)
      modifies this`callingNameToInternalName
      ensures callingNameToInternalName == old(callingNameToInternalName)[callingName := internalName]
    {
      callingNameToInternalName := callingNameToInternalName[callingName := internalName];
    }

    /** `RouteBase::SetOneWayDirection` on element `id`. */
    method SetOneWayDirection(id: RouteId, direction: bool)
      requires Valid() && id < |routes|
      modifies this`routes
      ensures Valid()
      ensures routes == old(routes)[id := RouteBase.SetOneWayDirection(old(routes)[id], direction)]
    {
      routes := routes[id := RouteBase.SetOneWayDirection(routes[id], direction)];
    }

    /** `Gate::AddPushBackRoute` on gate `g`. */
    method AddPushBackRoute(g: RouteId, runway: string, route: RouteId)
      requires Valid() && g < |routes| && routes[g].gate.Some?
      modifies this`routes
      ensures Valid()
      ensures routes == old(routes)[g := old(routes)[g].(gate := Some(
                Gates.AddPushBackRoute(old(routes)[g].gate.value, runway, route)))]
    {
      routes := routes[g := routes[g].(gate := Some(
                  Gates.AddPushBackRoute(routes[g].gate.value, runway, route)))];
    }

    /** `Gate::AddTaxiToRunwayList` on gate `g`. */
    method AddTaxiToRunwayList(g: RouteId, runway: string, itinerary: seq<string>)
      requires Valid() && g < |routes| && routes[g].gate.Some?
      modifies this`routes
      ensures Valid()
      ensures routes == old(routes)[g := old(routes)[g].(gate := Some(
                Gates.AddTaxiToRunwayList(old(routes)[g].gate.value, runway, itinerary)))]
    {
      routes := routes[g := routes[g].(gate := Some(
                  Gates.AddTaxiToRunwayList(routes[g].gate.value, runway, itinerary)))];
    }

    /** `RouteBase::ConnectRoute` on element `self`: the record toward
        `next` is inserted (never overwriting), and the OUT and IN
        breakpoints are inserted in order. */
    method ConnectRoute(self: RouteId, myBreakOut: real, directionAllowed: bool, next: RouteId,
                        nextBreakIn: real, positiveEntering: bool)
      requires Valid() && self < |routes| && next < |routes|
      modifies this`routes
      ensures Valid()
      ensures routes == ConnectRouteSpec(old(routes), self, myBreakOut, directionAllowed, next,
                                         nextBreakIn, positiveEntering)
    {
      ConnectRouteEffect(routes, self, myBreakOut, directionAllowed, next, nextBreakIn,
                         positiveEntering);
      var me := routes[self];
      var key := routes[next].name;
      var conns := me.connections;
      if key !in conns {
        conns := conns[key := ConnectionInfo(directionAllowed, myBreakOut, Some(next), nextBreakIn,
                                             positiveEntering)];
      }
      var bps := InsertBreakpoint(me.breakpoints, BreakpointInfo(Out, next, myBreakOut));
      routes := routes[self := me.(connections := conns, breakpoints := bps)];
      var peer := routes[next];
      var peerBps := InsertBreakpoint(peer.breakpoints, BreakpointInfo(In, self, nextBreakIn));
      routes := routes[next := peer.(breakpoints := peerBps)];
    }

    /** `Airport::Connect`: each side is connected toward the other when it
        may be travelled in its own direction argument. */
    method Connect(name1: string, direction1: bool, dist1: real,
                   name2: string, direction2: bool, dist2: real)
      requires Valid() && name1 in routeIds && name2 in routeIds
      modifies this`routes
      ensures Valid()
      ensures routes == ConnectSpec(old(routes), routeIds[name1], direction1, dist1,
                                    routeIds[name2], direction2, dist2)
    {
      var first := routeIds[name1];
      var second := routeIds[name2];
      if AllowTravelInDirection(routes[first], direction1) {
        ConnectRoute(first, dist1, direction1, second, dist2, !direction2);
      }
      if AllowTravelInDirection(routes[second], direction2) {
        ConnectRoute(second, dist2, direction2, first, dist1, !direction1);
      }
    }

    /** `Airport::AddHoldPoint`: the point is added to the hold list of its
        element for its direction, and to the airport's list. The element's
        list goes through `RouteBase::AddHoldPoint` as written, whose sort
        of the positive-direction list can leave it out of order (see
        `HoldPoints.AsWrittenLeavesListUnsorted`). */
    method AddHoldPoint(hp: HoldPoint)
      requires Valid() && hp.route.Some? && hp.route.value < |routes|
      modifies this`routes, this`holdpoints
      ensures Valid()
      ensures holdpoints == old(holdpoints) + [hp]
      ensures var id := hp.route.value;
              var before := old(routes)[id];
              |routes| == |old(routes)|
              && routes == old(routes)[id := routes[id]]
              && routes[id] == before.(holdsPositive := routes[id].holdsPositive,
                                       holdsNegative := routes[id].holdsNegative)
              && multiset(GetHoldPoints(routes[id], hp.direction))
                 == multiset(GetHoldPoints(before, hp.direction)) + multiset{hp}
              && GetHoldPoints(routes[id], !hp.direction) == GetHoldPoints(before, !hp.direction)
              && (hp.direction ==> routes[id].holdsPositive
                                   == HoldPoints.SortFromAsWritten(before.holdsPositive + [hp], 0))
              && (!hp.direction ==> routes[id].holdsNegative == before.holdsNegative + [hp])
    {
      var id := hp.route.value;
      var r := routes[id];
      var vec := HoldPoints.AddHoldPointAsWritten(GetHoldPoints(r, hp.direction), hp);
      if hp.direction {
        routes := routes[id := r.(holdsPositive := vec)];
      } else {
        routes := routes[id := r.(holdsNegative := vec)];
      }
      holdpoints := holdpoints + [hp];
    }
  
    // -------------------------------------------------------------------
    // Segments and the connection matrix
    // -------------------------------------------------------------------

    /** `Airport::BuildConnectionMatrix`, run once on a complete layout:
        every listed element is sliced, the segments are linked across
        connections, then numbered 0..N-1 (runways, taxiways, arcs, gates)
        into the two id tables, and the dense matrix is filled. Linking
        indexes a segment list at -1 when a breakpoint has no matching
        segment; the layout must not do that. */
    method BuildConnectionMatrix()
      requires Valid()
      requires segments == [] && idToName == map[] && nameToId == map[]
      requires PopulateAll(CreateAll(routes, Order()), Order(), 0).Some?
      modifies this`routes, this`segments, this`idToName, this`nameToId, this`matrix
      ensures Valid() && Built()
      ensures routes == PopulateAll(CreateAll(old(routes), Order()), Order(), 0).value
      ensures segments == Concat(routes, Order())
      ensures NameTable(segments, nameToId)
    {
      OrderInArena();
      var order := runways + taxiways + arcways + gates;
      assert order == Order();
      LinkSegments(order);
      assert order == Order();
      NumberSegments(order);
      FillMatrix();
    }

    /** Steps 1 and 2 of `BuildConnectionMatrix`: slicing every listed
        element, then linking the segments across connections. */
    method LinkSegments(order: seq<RouteId>)
      requires Valid() && InArena(order, |routes|)
      requires PopulateAll(CreateAll(routes, order), order, 0).Some?
      modifies this`routes
      ensures Valid()
      ensures routes == PopulateAll(CreateAll(old(routes), order), order, 0).value
    {
      CreateAllSegments(order);
      PopulateAllConnections(order);
    }

    /** Step 1 of `BuildConnectionMatrix`: `CreateSegments` on every listed
        element, appending to the segments it has. */
    method CreateAllSegments(order: seq<RouteId>)
      requires Valid() && InArena(order, |routes|)
      modifies this`routes
      ensures Valid()
      ensures routes == CreateAll(old(routes), order)
    {
      var k := 0;
      while k < |order|
        invariant 0 <= k <= |order| && |routes| == |old(routes)|
        invariant routes == CreateAll(old(routes), order[..k])
      {
        assert order[..k + 1][..k] == order[..k];
        var id := order[k];
        var created := CreateSegments(id, routes[id]);
        routes := routes[id := routes[id].(segments := routes[id].segments + created)];
        k := k + 1;
      }
      assert order[..k] == order;
      CreateAllKeeps(old(routes), order);
    }

    /** Step 2 of `BuildConnectionMatrix`. */
    method PopulateAllConnections(order: seq<RouteId>)
      requires Valid() && PopulateAll(routes, order, 0).Some?
      modifies this`routes
      ensures Valid()
      ensures routes == PopulateAll(old(routes), order, 0).value
    {
      var k := 0;
      while k < |order|
        invariant 0 <= k <= |order| && Valid()
        invariant PopulateAll(routes, order, k) == PopulateAll(old(routes), order, 0)
      {
        PopulateIntraRouteConnection(order[k]);
        k := k + 1;
      }
    }

    /** `RouteBase::PopulateIntraRouteConnection` on element `self`. */
    method PopulateIntraRouteConnection(self: RouteId)
      requires Valid() && self < |routes|
      requires PopulateFrom(routes, self, routes[self].breakpoints, 0).Some?
      modifies this`routes
      ensures Valid()
      ensures routes == PopulateFrom(old(routes), self, old(routes)[self].breakpoints, 0).value
    {
      var bps := routes[self].breakpoints;
      var i := 0;
      while i < |bps|
        invariant 0 <= i <= |bps| && |routes| == |old(routes)|
        invariant PopulateFrom(routes, self, bps, i) == PopulateFrom(old(routes), self, bps, 0)
      {
        routes := LinkBreakpoint(routes, self, bps[i]);
        i := i + 1;
      }
      PopulateFromExtends(old(routes), self, bps, 0);
      ExtendsOwned(old(routes), routes);
    }

    /** Steps 3.1 of `BuildConnectionMatrix`: the segments of the listed
        elements are copied in order, each getting the next id. */
    method NumberSegments(order: seq<RouteId>)
      requires Valid() && InArena(order, |routes|)
      requires segments == [] && idToName == map[] && nameToId == map[]
      modifies this`segments, this`idToName, this`nameToId
      ensures Valid()
      ensures segments == Concat(routes, order)
      ensures IdTable(segments, idToName) && NameTable(segments, nameToId)
    {
      var k := 0;
      while k < |order|
        invariant 0 <= k <= |order|
        invariant segments == Concat(routes, order[..k])
        invariant IdTable(segments, idToName) && NameTable(segments, nameToId)
      {
        assert order[..k + 1][..k] == order[..k];
        NumberSegmentsOf(routes[order[k]].segments);
        k := k + 1;
      }
      assert order[..k] == order;
      ConcatOwned(routes, order);
    }

    /** The copy loop of `BuildConnectionMatrix` for one element. */
    method NumberSegmentsOf(segs: seq<SegmentInfo>)
      requires IdTable(segments, idToName) && NameTable(segments, nameToId)
      modifies this`segments, this`idToName, this`nameToId
      ensures segments == old(segments) + segs
      ensures IdTable(segments, idToName) && NameTable(segments, nameToId)
    {
      var numbered: seq<SegmentInfo>, ids: map<nat, string>, names: map<string, nat>
        := segments, idToName, nameToId;
      var j := 0;
      while j < |segs|
        invariant 0 <= j <= |segs|
        invariant numbered == old(segments) + segs[..j]
        invariant IdTable(numbered, ids) && NameTable(numbered, names)
      {
        var s := segs[j];
        TablesAppend(numbered, ids, names, s);
        ids := ids[|numbered| := s.name];
        if s.name !in names {
          names := names[s.name := |numbered|];
        }
        numbered := numbered + [s];
        assert segs[..j + 1] == segs[..j] + [s];
        j := j + 1;
      }
      assert segs[..j] == segs;
      segments, idToName, nameToId := numbered, ids, names;
    }

    /** Step 3.2 of `BuildConnectionMatrix`: every entry starts as "no
        edge"; the diagonal is 0, and [i][j] is the length of segment i
        when segment j's name is among those i leads into. */
    method FillMatrix()
      modifies this`matrix
      ensures matrix == Matrix(segments)
    {
      var n := |segments|;
      matrix := seq(n, _ => seq(n, _ => Infinite));
      var i := 0;
      while i < n
        invariant 0 <= i <= n && |matrix| == n
        invariant forall a :: 0 <= a < i ==> matrix[a] == Matrix(segments)[a]
        invariant forall a :: i <= a < n ==> matrix[a] == seq(n, _ => Infinite)
      {
        var j := 0;
        while j < n
          invariant 0 <= j <= n && |matrix| == n && |matrix[i]| == n
          invariant forall a :: 0 <= a < i ==> matrix[a] == Matrix(segments)[a]
          invariant forall a :: i < a < n ==> matrix[a] == seq(n, _ => Infinite)
          invariant forall b :: 0 <= b < j ==> matrix[i][b] == EdgeWeight(segments, i, b)
          invariant forall b :: j <= b < n ==> matrix[i][b] == Infinite
        {
          if i == j {
            matrix := matrix[i := matrix[i][j := Finite(0.0)]];
          } else {
            var listed := Lists(segments[i].outSegment, segments[j].name);
            if listed {
              matrix := matrix[i := matrix[i][j := Finite(segments[i].length)]];
            }
          }
          j := j + 1;
        }
        assert matrix[i] == Matrix(segments)[i];
        i := i + 1;
      }
    }

    /** `GetSegmentRoute`: the element of the first numbered segment called
        `name`, or none. */
    function GetSegmentRoute(name: string): (r: Option<RouteId>)
      reads this`segments
    {
      SegmentRoute(segments, name)
    }

    // -------------------------------------------------------------------
    // Itineraries
    // -------------------------------------------------------------------

    /** `Airport::Dijkstra` from a segment to a different, reachable one:
        the itinerary is the sequence of elements the found segment path
        passes through, each run of segments of one element named once. It
        starts with the element of the source segment, ends with that of the
        destination segment, and never names an element twice in a row. */
    method Dijkstra(graph: seq<seq<Weight>>, src: nat, dst: nat) returns (routeList: seq<string>)
      requires Valid() && Named() && Square(graph) && |graph| == |segments|
      requires src < |graph| && dst < |graph| && src != dst && Reachable(graph, src, dst)
      ensures Routed(routes, segments, idToName, graph, src, dst, routeList)
    {
      var path := PathIds(graph, src, dst);
      PathOnSegments(graph, path, segments);
      routeList := Itinerary(routes, segments, idToName, path);
      CollapsedPathRouted(routes, segments, idToName, graph, src, dst, path);
    }

    /** The id of a segment name as `connection_matrix_name_to_id_[name]`
        reads it: a name without an id is given id 0 and recorded so. */
    method SegmentId(name: string) returns (id: nat)
      modifies this`nameToId
      ensures id == IdOf(old(nameToId), name)
      ensures nameToId == old(nameToId)[name := id]
    {
      if name !in nameToId {
        nameToId := nameToId[name := 0];
      }
      id := nameToId[name];
    }

    /** `Airport::GetRoute`: the segments at the start and end positions
        are looked up by name (a name without an id is given id 0 and
        recorded so), and the itinerary between them is searched. */
    method GetRoute(start: RouteId, startDirection: bool, startDist: real,
                    end: RouteId, endDirection: bool, endDist: real)
      returns (routeList: seq<string>)
      requires Valid() && Built() && start < |routes| && end < |routes|
      requires var id1 := IdOf(nameToId, GetSegmentName(routes[start].segments, startDirection,
                                                        startDist));
               var id2 := IdOf(nameToId, GetSegmentName(routes[end].segments, endDirection,
                                                        endDist));
               id1 < |matrix| && id2 < |matrix| && id1 != id2 && Reachable(matrix, id1, id2)
      modifies this`nameToId
      ensures var name1 := GetSegmentName(routes[start].segments, startDirection, startDist);
              var name2 := GetSegmentName(routes[end].segments, endDirection, endDist);
              var id1 := IdOf(old(nameToId), name1);
              var id2 := IdOf(old(nameToId), name2);
              nameToId == old(nameToId)[name1 := id1][name2 := id2]
              && Routed(routes, segments, idToName, matrix, id1, id2, routeList)
    {
      var name1 := GetSegmentName(routes[start].segments, startDirection, startDist);
      var name2 := GetSegmentName(routes[end].segments, endDirection, endDist);
      var id1 := SegmentId(name1);
      var id2 := SegmentId(name2);
      routeList := Dijkstra(matrix, id1, id2);
    }

    // -------------------------------------------------------------------
    // Motion along an itinerary
    // -------------------------------------------------------------------

    /** `RouteBase::ComputePosition` called on the element the aircraft is
        on (`pos.current`) for a travelled distance `delta`: the arena and
        the position are those of the specification `Advance`. */
    method ComputePosition(aircraft: AircraftId, pos: Position, delta: real) returns (pos': Position)
      requires Valid() && pos.current < |routes|
      requires Advance(routes, aircraft, pos, delta).Some?
      modifies this`routes
      ensures Valid()
      ensures Advance(old(routes), aircraft, pos, delta) == Some(Moved(routes, pos'))
      ensures |routes| == |old(routes)| && pos'.current < |routes|
      decreases |pos.taxiRoutes|
    {
      if |pos.taxiRoutes| == 0 {
        return pos;
      }
      var leg := TakeLeg(routes, aircraft, pos, delta);
      LegKeepsLayout(routes, aircraft, pos, delta);
      StoreArena(leg.routes);
      if leg.Enter? {
        pos' := ComputePosition(aircraft, leg.pos, leg.residual);
      } else {
        pos' := leg.pos;
      }
    }

    /** Replaces the arena by one with the same layout. */
    method StoreArena(arena: seq<Route>)
      requires Valid() && SameLayout(routes, arena)
      modifies this`routes
      ensures Valid() && routes == arena
    {
      routes := arena;
    }

    /** `RouteBase::InsertAircraft` on element `r`. */
    method InsertAircraft(r: RouteId, a: AircraftId)
      requires Valid() && r < |routes|
      modifies this`routes
      ensures Valid() && routes == old(routes)[r := RouteBase.InsertAircraft(old(routes)[r], a)]
    {
      StoreArena(routes[r := RouteBase.InsertAircraft(routes[r], a)]);
    }

    /** `RouteBase::ClearAircraft` on element `r`. */
    method ClearAircraft(r: RouteId, a: AircraftId)
      requires Valid() && r < |routes|
      modifies this`routes
      ensures Valid() && routes == old(routes)[r := RouteBase.ClearAircraft(old(routes)[r], a)]
    {
      StoreArena(routes[r := RouteBase.ClearAircraft(routes[r], a)]);
    }

    /** `RouteBase::GetConnectionInfo` on element `r`: the record under
        `name`, a zero record being inserted when there is none. */
    method GetConnectionInfo(r: RouteId, name: string) returns (info: ConnectionInfo)
      requires Valid() && r < |routes|
      modifies this`routes
      ensures Valid()
      ensures var got := RouteBase.GetConnectionInfo(old(routes)[r].connections, name);
              info == got.0 && routes == old(routes)[r := old(routes)[r].(connections := got.1)]
    {
      var got := RouteBase.GetConnectionInfo(routes[r].connections, name);
      StoreArena(routes[r := routes[r].(connections := got.1)]);
      info := got.0;
    }

    /** `RouteBase::ClosestAircraftInWay` called on the element `start` the
        querying aircraft `me` is on: the aircraft found, the lowered search
        distance and the records the scan inserts are those of the
        specification scan. */
    method ClosestAircraftInWay(positions: map<AircraftId, real>, me: AircraftId,
                                taxiRoutes: seq<string>, start: RouteId, searchDist: real,
                                direction: bool, dist: real)
      returns (found: Option<AircraftId>, searchDist': real)
      requires Valid() && start < |routes| && Placed(routes, positions)
      requires Motion.ClosestAircraftInWay(routes, positions, me, taxiRoutes, start, searchDist,
                                           direction, dist).Some?
      modifies this`routes
      ensures Valid()
      ensures Motion.ClosestAircraftInWay(old(routes), positions, me, taxiRoutes, start,
                                          searchDist, direction, dist)
              == Some(Closest(routes, found, searchDist'))
    {
      var c := Motion.ClosestAircraftInWay(routes, positions, me, taxiRoutes, start, searchDist,
                                           direction, dist).value;
      ClosestFromGrows(routes, positions, me, taxiRoutes, 0, start, direction, dist, 0.0,
                       searchDist);
      GrowKeepsLayout(routes, c.routes);
      StoreArena(c.routes);
      found, searchDist' := c.found, c.searchDist;
    }

    /** `RouteBase::GetDistanceToNextHold` called on the element `start` the
        aircraft is on: the distance, the type and the records the scan
        inserts are those of the specification scan. */
    method GetDistanceToNextHold(start: RouteId, taxiRoutes: seq<string>, dist: real,
                                 direction: bool, holdType: HoldPointType)
      returns (distance: real, holdType': HoldPointType)
      requires Valid() && start < |routes|
      requires Motion.GetDistanceToNextHold(routes, start, taxiRoutes, dist, direction,
                                            holdType).Some?
      modifies this`routes
      ensures Valid()
      ensures Motion.GetDistanceToNextHold(old(routes), start, taxiRoutes, dist, direction,
                                           holdType)
              == Some(HoldScan(routes, distance, holdType'))
    {
      var h := Motion.GetDistanceToNextHold(routes, start, taxiRoutes, dist, direction,
                                            holdType).value;
      HoldFromGrows(routes, taxiRoutes, 0, start, direction, dist, 0.0, holdType);
      GrowKeepsLayout(routes, h.routes);
      StoreArena(h.routes);
      distance, holdType' := h.distance, h.holdType;
    }

    // -------------------------------------------------------------------
    // Queries
    // -------------------------------------------------------------------

    /** `GetGatesWithExactSize`: the gates of exactly that size, in the
        order they were added. */
    function GetGatesWithExactSize(size: int): (res: seq<RouteId>)
      requires Valid()
      reads this`routes, this`routeIds, this`runways, this`taxiways, this`arcways, this`gates,
            this`segments
      ensures forall g :: g in res <==>
                g in gates && g < |routes| && routes[g].gate.Some?
                && routes[g].gate.value.size == size
      ensures forall k :: 0 <= k < |res| ==> res[k] < |routes| && routes[res[k]].gate.Some?
    {
      FilterGatesSpec(routes, gates, ExactSize(size));
      FilterGates(routes, gates, ExactSize(size))
    }

    /** `GetAvailableGates`: the gates nobody is assigned to. */
    function GetAvailableGates(): (res: seq<RouteId>)
      requires Valid()
      reads this`routes, this`routeIds, this`runways, this`taxiways, this`arcways, this`gates,
            this`segments
      ensures forall g :: g in res <==>
                g in gates && g < |routes| && routes[g].gate.Some?
                && Gates.IsAvailable(routes[g].gate.value)
      ensures forall k :: 0 <= k < |res| ==> res[k] < |routes| && routes[res[k]].gate.Some?
    {
      FilterGatesSpec(routes, gates, Available);
      FilterGates(routes, gates, Available)
    }

    /** `GetActiveRunwayInfo`: the directions of all runways whose window
        contains the wind direction. */
    function GetActiveRunwayInfo(): (res: seq<RunwayInfo>)
      requires Valid()
      reads this
      ensures forall info :: info in res <==>
                Active(info.runwayNumber, windDirection)
                && exists k :: 0 <= k < |runways| && info in routes[runways[k]].runwayInfo
    {
      ActiveRunwayInfoSpec(routes, runways, windDirection);
      ActiveRunwayInfo(routes, runways, windDirection)
    }

    /** `GetHoldPoint`: the first take-off hold point for the runway, or the
        empty hold point. */
    function GetHoldPoint(takeOffRunway: string): (hp: HoldPoint)
      reads this`holdpoints
      ensures hp == EmptyHoldPoint
              || (hp in holdpoints && hp.holdType == TakeOff
                  && hp.holdForTakeOffRunway == takeOffRunway)
      ensures (exists k :: 0 <= k < |holdpoints| && holdpoints[k].holdType == TakeOff
                           && holdpoints[k].holdForTakeOffRunway == takeOffRunway)
              <==> hp.holdType == TakeOff
    {
      FirstHold(holdpoints, takeOffRunway, TakeOff)
    }

    /** `GetLineUpPoint`: the first line-up point for the runway, or the
        empty hold point. */
    function GetLineUpPoint(takeOffRunway: string): (hp: HoldPoint)
      reads this`holdpoints
      ensures hp == EmptyHoldPoint
              || (hp in holdpoints && hp.holdType == LineUp
                  && hp.holdForTakeOffRunway == takeOffRunway)
      ensures (exists k :: 0 <= k < |holdpoints| && holdpoints[k].holdType == LineUp
                           && holdpoints[k].holdForTakeOffRunway == takeOffRunway)
              <==> hp.holdType == LineUp
    {
      FirstHold(holdpoints, takeOffRunway, LineUp)
    }

    /** `GetLandingPositionInfo`: by day aircraft land in the positive
        direction and are put 400 along the runway, by night in the negative
        direction at 2300. */
    function GetLandingPositionInfo(runway: RouteId): (info: LandingPositionInfo)
      ensures info.runway == runway && info.direction == !mode
      ensures info.distance == if mode then 2300.0 else 400.0
    {
      LandingPositionInfo(runway, !mode, if mode then 2300.0 else 400.0)
    }

    /** `GetRunwayInternalName`: the internal name of a calling name; an
        unknown calling name is recorded with the empty name. */
    method GetRunwayInternalName(callingName: string) returns (name: string)
      modifies this`callingNameToInternalName
      ensures callingName in old(callingNameToInternalName) ==>
                name == old(callingNameToInternalName)[callingName]
                && callingNameToInternalName == old(callingNameToInternalName)
      ensures callingName !in old(callingNameToInternalName) ==>
                name == "" && callingNameToInternalName
                              == old(callingNameToInternalName)[callingName := ""]
    {
      if callingName !in callingNameToInternalName {
        callingNameToInternalName := callingNameToInternalName[callingName := ""];
      }
      name := callingNameToInternalName[callingName];
    }

    method SetWindDirection(windDirection: real)
      modifies this`windDirection
      ensures this.windDirection == windDirection
    {
      this.windDirection := windDirection;
    }

    /** `FlipRoadText`. */
    method FlipRoadText()
      modifies this`displayRoadText
      ensures displayRoadText == !old(displayRoadText)
    {
      displayRoadText := !displayRoadText;
    }

    // -------------------------------------------------------------------
    // Occupancy and gate bookkeeping
    // -------------------------------------------------------------------

    /** `Airport::Reset`: road names hidden, and runways, taxiways, gates
        and arcs (in that order) reset: no aircraft on any of them and
        nobody assigned to any gate. */
    method Reset()
      requires Valid()
      modifies this`routes, this`displayRoadText
      ensures Valid() && !displayRoadText
      ensures ResetOn(old(routes), routes, runways + taxiways + gates + arcways)
    {
      displayRoadText := false;
      assert InArena(gates, |routes|) by {
        forall k | 0 <= k < |gates|
          ensures gates[k] < |routes|
        {
        }
      }
      ghost var r0 := routes;
      ResetAll(runways);
      ghost var r1 := routes;
      ResetAll(taxiways);
      ResetOnCompose(r0, r1, routes, runways, taxiways);
      ghost var r2 := routes;
      ResetAll(gates);
      ResetOnCompose(r0, r2, routes, runways + taxiways, gates);
      ghost var r3 := routes;
      ResetAll(arcways);
      ResetOnCompose(r0, r3, routes, runways + taxiways + gates, arcways);
    }

    /** One of the reset loops of `Airport::Reset`. */
    method ResetAll(ids: seq<RouteId>)
      requires Valid() && InArena(ids, |routes|)
      modifies this`routes
      ensures Valid()
      ensures ResetOn(old(routes), routes, ids)
    {
      var k := 0;
      while k < |ids|
        invariant 0 <= k <= |ids| && Valid()
        invariant ResetOn(old(routes), routes, ids[..k])
      {
        var id := ids[k];
        Gates.ResetIdempotent(old(routes)[id]);
        routes := routes[id := Gates.ResetRoute(routes[id])];
        assert ids[..k + 1] == ids[..k] + [id];
        k := k + 1;
      }
      assert ids[..k] == ids;
    }

    /** `Gate::AssignAircraft` on gate `g`. */
    method AssignAircraft(g: RouteId, a: AircraftId)
      requires Valid() && g < |routes| && routes[g].gate.Some?
      modifies this`routes
      ensures Valid()
      ensures routes == old(routes)[g := old(routes)[g].(gate := Some(
                Gates.AssignAircraft(old(routes)[g].gate.value, a)))]
    {
      routes := routes[g := routes[g].(gate := Some(Gates.AssignAircraft(routes[g].gate.value, a)))];
    }

    /** `Gate::Free` on gate `g`: the first entry of `a` among the
        assignees is erased, if there is one. */
    method Free(g: RouteId, a: AircraftId)
      requires Valid() && g < |routes| && routes[g].gate.Some?
      modifies this`routes
      ensures Valid()
      ensures var gi := old(routes)[g].gate.value;
              routes == old(routes)[g := old(routes)[g].(gate := Some(
                gi.(assignedAircraft := Gates.RemoveFirst(gi.assignedAircraft, a))))]
    {
      var assignees := routes[g].gate.value.assignedAircraft;
      var i := 0;
      while i < |assignees|
        invariant 0 <= i <= |assignees| && a !in assignees[..i]
      {
        if assignees[i] == a {
          break;
        }
        assert assignees[..i + 1] == assignees[..i] + [assignees[i]];
        i := i + 1;
      }
      Gates.RemoveFirstAt(assignees, a, i);
      if i < |assignees| {
        assignees := assignees[..i] + assignees[i + 1..];
      }
      routes := routes[g := routes[g].(gate := Some(
                  routes[g].gate.value.(assignedAircraft := assignees)))];
    }
  }

  /** The index loop of `PopulateIntraRouteConnection`: the first segment
      matching `q`, or -1. */
  method FindSegment(segs: seq<SegmentInfo>, q: Query) returns (index: int)
    ensures FindFrom(segs, q, 0).Some? ==> index == FindFrom(segs, q, 0).value
    ensures FindFrom(segs, q, 0).None? ==> index == -1
  {
    index := -1;
    var i := 0;
    while i < |segs|
      invariant 0 <= i <= |segs|
      invariant FindFrom(segs, q, i) == FindFrom(segs, q, 0)
    {
      if Matches(segs[i], q) {
        index := i;
        return;
      }
      i := i + 1;
    }
  }

  /** The scan of an out list for a name, stopping at the first match. */
  method Lists(names: seq<string>, name: string) returns (found: bool)
    ensures found <==> name in names
  {
    found := false;
    var k := 0;
    while k < |names|
      invariant 0 <= k <= |names|
      invariant name !in names[..k]
    {
      if names[k] == name {
        found := true;
        return;
      }
      assert names[..k + 1] == names[..k] + [names[k]];
      k := k + 1;
    }
    assert names[..k] == names;
  }

  /** The body of the loop of `PopulateIntraRouteConnection` for breakpoint
      `b` of element `self`. */
  method LinkBreakpoint(routes: seq<Route>, self: RouteId, b: BreakpointInfo)
    returns (routes': seq<Route>)
    requires self < |routes| && PopulateStep(routes, self, b).Some?
    ensures routes' == PopulateStep(routes, self, b).value
  {
    routes' := routes;
    if b.bpType == In {
      var got := GetConnectionInfo(routes'[b.peer].connections, routes'[self].name);
      var info := got.0;
      routes' := routes'[b.peer := routes'[b.peer].(connections := got.1)];
      var segs := routes'[self].segments;
      var index := FindSegment(segs, StartingAt(info.positiveEnteringNextPiece,
                                                b.distanceOnCurrentRoute));
      var name := GetBreakoutSegmentName(routes'[b.peer].segments,
                                         info.directionAllowedToEnterNextRoute,
                                         info.distanceToBreakOut);
      routes' := routes'[self := routes'[self].(segments := AppendIn(segs, index, name))];
    } else {
      var got := GetConnectionInfo(routes'[self].connections, routes'[b.peer].name);
      var conn := got.0;
      routes' := routes'[self := routes'[self].(connections := got.1)];
      var segs := routes'[self].segments;
      var index := FindSegment(segs, EndingAt(conn.directionAllowedToEnterNextRoute,
                                              b.distanceOnCurrentRoute));
      var name := GetBreakinSegmentName(routes'[b.peer].segments,
                                        conn.positiveEnteringNextPiece, conn.distanceToBreakIn);
      routes' := routes'[self := routes'[self].(segments := AppendOut(segs, index, name))];
    }
  }
}
