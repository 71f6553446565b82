/** The shortest-itinerary search over the connection matrix: a Dijkstra
    variant that picks, among the unvisited segments of smallest distance,
    the one with the highest id, records a predecessor only the first time a
    segment is relaxed, and rebuilds the id path from the destination back to
    the source. */
module Pathfinder {
  import opened Topology

  /** The matrix is n by n. */
  predicate Square(graph: seq<seq<Weight>>)
  {
    forall i :: 0 <= i < |graph| ==> |graph[i]| == |graph|
  }

  /** An edge the search follows: a weight strictly between 0 and INT_MAX.
      The diagonal (0) and "no edge" (INT_MAX) are not followed. */
  predicate Edge(graph: seq<seq<Weight>>, i: nat, j: nat)
  {
    i < |graph| && j < |graph[i]| && graph[i][j].Finite? && graph[i][j].value > 0.0
  }

  predicate IsPath(graph: seq<seq<Weight>>, p: seq<nat>)
  {
    |p| >= 1 && forall k :: 0 <= k < |p| - 1 ==> Edge(graph, p[k], p[k + 1])
  }

  ghost predicate Reachable(graph: seq<seq<Weight>>, src: nat, dst: nat)
  {
    exists p :: IsPath(graph, p) && p[0] == src && p[|p| - 1] == dst
  }

  /** `a <= b` on distances, INT_MAX being the largest. */
  predicate LessEq(a: Weight, b: Weight)
  {
    b.Infinite? || (a.Finite? && a.value <= b.value)
  }

  predicate Less(a: Weight, b: Weight)
  {
    a.Finite? && (b.Infinite? || a.value < b.value)
  }

  /** `FindIndexOfMinimumValue`: an unvisited index of smallest distance,
      and, because the comparison is `<=`, the last such index. */
  method FindIndexOfMinimumValue(dist: seq<Weight>, visited: seq<bool>) returns (index: nat)
    requires |visited| == |dist|
    requires exists i :: 0 <= i < |dist| && !visited[i]
    ensures index < |dist| && !visited[index]
    ensures forall i :: 0 <= i < |dist| && !visited[i] ==> LessEq(dist[index], dist[i])
    ensures forall i :: index < i < |dist| && !visited[i] ==> Less(dist[index], dist[i])
  {
    var n := |dist|;
    var minDist := Infinite;
    ghost var found := false;
    index := 0;
    var i := 0;
    while i < n
      invariant 0 <= i <= n
      invariant found ==> index < i && !visited[index] && minDist == dist[index]
      invariant !found ==> minDist == Infinite && forall k :: 0 <= k < i ==> visited[k]
      invariant forall k :: 0 <= k < i && !visited[k] ==> LessEq(minDist, dist[k])
      invariant found ==> forall k :: index < k < i && !visited[k] ==> Less(minDist, dist[k])
    {
      if !visited[i] && LessEq(dist[i], minDist) {
        minDist := dist[i];
        index := i;
        found := true;
      }
      i := i + 1;
    }
  }

  /** Whether visiting `index` lowers the distance of `j`. */
  predicate Relaxes(graph: seq<seq<Weight>>, dist: seq<Weight>, visited: seq<bool>,
                    index: nat, j: nat)
    requires |dist| == |visited| && index < |dist|
  {
    j < |visited| && !visited[j] && Edge(graph, index, j) && dist[index].Finite?
    && Less(Finite(dist[index].value + graph[index][j].value), dist[j])
  }

  /** The inner loop of `Dijkstra` for the segment `index` just visited:
      only unvisited successors over an edge, from a finite distance, are
      relaxed; no distance increases; a predecessor is written only where
      none was written before. */
  method Relax(graph: seq<seq<Weight>>, dist: seq<Weight>, visited: seq<bool>, from: seq<int>,
               index: nat)
    returns (dist': seq<Weight>, from': seq<int>)
    requires Square(graph) && |dist| == |visited| == |from| == |graph| && index < |graph|
    requires visited[index]
    ensures |dist'| == |from'| == |graph|
    ensures forall j :: 0 <= j < |graph| ==>
              if Relaxes(graph, dist, visited, index, j)
              then dist'[j] == Finite(dist[index].value + graph[index][j].value)
              else dist'[j] == dist[j]
    ensures forall j :: 0 <= j < |graph| ==> LessEq(dist'[j], dist[j])
    ensures forall j :: 0 <= j < |graph| ==>
              from'[j] == if from[j] == -1 && Relaxes(graph, dist, visited, index, j)
                          then index else from[j]
  {
    var n := |graph|;
    dist' := dist;
    from' := from;
    var j := 0;
    while j < n
      invariant 0 <= j <= n
      invariant |dist'| == |from'| == n
      invariant dist'[index] == dist[index]
      invariant forall k :: 0 <= k < n ==>
                  if k < j && Relaxes(graph, dist, visited, index, k)
                  then dist'[k] == Finite(dist[index].value + graph[index][k].value)
                  else dist'[k] == dist[k]
      invariant forall k :: 0 <= k < n ==>
                  from'[k] == if k < j && from[k] == -1 && Relaxes(graph, dist, visited, index, k)
                              then index else from[k]
    {
      if !visited[j] && Edge(graph, index, j) && dist'[index].Finite?
         && Less(Finite(dist'[index].value + graph[index][j].value), dist'[j]) {
        dist' := dist'[j := Finite(dist'[index].value + graph[index][j].value)];
        if from'[j] == -1 {
          from' := from'[j := index];
        }
      }
      j := j + 1;
    }
  }

  /** The ids 0 .. n-1. */
  function Range(n: nat): (r: set<int>)
    ensures forall v :: v in r <==> 0 <= v < n
    ensures |r| == n
  {
    if n == 0 then {} else
      assert n - 1 !in Range(n - 1);
      Range(n - 1) + {n - 1}
  }

  /** Fewer than n visited ids leave an unvisited one; n of them are all. */
  lemma Pigeon(visitedSet: set<int>, n: nat)
    requires forall v :: v in visitedSet ==> 0 <= v < n
    ensures |visitedSet| < n ==> exists v :: 0 <= v < n && v !in visitedSet
    ensures |visitedSet| == n ==> forall v :: 0 <= v < n ==> v in visitedSet
  {
    assert visitedSet <= Range(n);
    if |visitedSet| < n {
      assert Range(n) - visitedSet != {};
      var v :| v in Range(n) - visitedSet;
    } else if |visitedSet| == n {
      assert visitedSet == Range(n);
    }
  }

  /** Every segment on a path from a segment of finite distance gets a
      finite distance, once every visited segment of finite distance has
      finite-distance successors and all segments are visited. */
  lemma {:induction false} PathFinite(graph: seq<seq<Weight>>, dist: seq<Weight>, p: seq<nat>)
    requires IsPath(graph, p) && p[0] < |dist| && dist[p[0]].Finite?
    requires forall u: nat, v: nat :: u < |dist| && dist[u].Finite? && Edge(graph, u, v) ==>
               v < |dist| && dist[v].Finite?
    ensures p[|p| - 1] < |dist| && dist[p[|p| - 1]].Finite?
    decreases |p|
  {
    if |p| > 1 {
      assert Edge(graph, p[0], p[1]);
      PathFinite(graph, dist, p[1..]);
      assert p[1..][|p| - 2] == p[|p| - 1];
    }
  }

  function Reverse(s: seq<nat>): (r: seq<nat>)
    ensures |r| == |s| && forall k :: 0 <= k < |s| ==> r[k] == s[|s| - 1 - k]
  {
    if |s| == 0 then [] else Reverse(s[1..]) + [s[0]]
  }

  /** The first loop of `Airport::Dijkstra`: after n rounds every segment
      is visited; the source keeps distance 0 and no predecessor; every
      other segment of finite distance has a predecessor, visited before it,
      of finite distance and joined to it by an edge; and every successor of
      a segment of finite distance has a finite distance. */
  method Explore(graph: seq<seq<Weight>>, src: nat)
    returns (dist: seq<Weight>, from: seq<int>, ghost rank: map<int, nat>)
    requires Square(graph) && src < |graph|
    ensures |dist| == |from| == |graph|
    ensures dist[src] == Finite(0.0) && from[src] == -1
    ensures forall v :: 0 <= v < |graph| ==> v in rank
    ensures forall j :: 0 <= j < |graph| && from[j] != -1 ==>
              0 <= from[j] < |graph| && dist[from[j]].Finite? && Edge(graph, from[j], j)
              && from[j] in rank && rank[from[j]] < rank[j]
    ensures forall j :: 0 <= j < |graph| && j != src && dist[j].Finite? ==> from[j] != -1
    ensures forall u: nat, v: nat :: u < |graph| && dist[u].Finite? && Edge(graph, u, v) ==>
              v < |graph| && dist[v].Finite?
  {
    var n := |graph|;
    dist := seq(n, k => if k == src then Finite(0.0) else Infinite);
    var visited := seq(n, k => false);
    from := seq(n, k => -1);
    ghost var V: set<int> := {};
    rank := map[];
    var i := 0;
    while i < n
      invariant 0 <= i <= n
      invariant ExploreInv(graph, src, dist, from, visited, V, rank, i)
    {
      Pigeon(V, n);
      var index := FindIndexOfMinimumValue(dist, visited);
      ghost var oldDist, oldFrom, oldVisited, oldV, oldRank := dist, from, visited, V, rank;
      visited := visited[index := true];
      V := V + {index};
      rank := rank[index := i];
      dist, from := Relax(graph, dist, visited, from, index);
      ExploreStep(graph, src, oldDist, dist, oldFrom, from, oldVisited, visited, oldV, V,
                  oldRank, rank, index, i);
      i := i + 1;
    }
    Pigeon(V, n);
  }

  /** The invariant of the first loop of `Airport::Dijkstra` after `i`
      rounds: `V` holds the `i` segments visited so far, `rank` the round in
      which each was visited. */
  ghost predicate ExploreInv(graph: seq<seq<Weight>>, src: nat, dist: seq<Weight>,
                             from: seq<int>, visited: seq<bool>, V: set<int>,
                             rank: map<int, nat>, i: nat)
  {
    var n := |graph|;
    Square(graph) && src < n
    && |dist| == |visited| == |from| == n
    && (forall v :: 0 <= v < n ==> (visited[v] <==> v in V))
    && (forall v :: v in V ==> 0 <= v < n)
    && |V| == i
    && rank.Keys == V && (forall v :: v in V ==> rank[v] < i)
    && (i == 0 ==> forall v :: 0 <= v < n && v != src ==> dist[v] == Infinite)
    && (i > 0 ==> src in V)
    && dist[src] == Finite(0.0) && from[src] == -1
    && (forall j :: 0 <= j < n && from[j] != -1 ==>
          0 <= from[j] < n && from[j] in V && dist[from[j]].Finite?
          && Edge(graph, from[j], j) && (j in V ==> rank[from[j]] < rank[j]))
    && (forall j :: 0 <= j < n && j != src && dist[j].Finite? ==> from[j] != -1)
    && ((exists u :: u in V && dist[u].Infinite?) ==>
          forall v :: 0 <= v < n && v !in V ==> dist[v].Infinite?)
    && (forall u: nat, v: nat :: u in V && dist[u].Finite? && Edge(graph, u, v) ==>
          v < n && dist[v].Finite?)
  }

  /** One round keeps the invariant: the picked segment is an unvisited one
      of smallest distance (the source in the first round), and `Relax`
      updates distances and predecessors from it. */
  lemma ExploreStep(graph: seq<seq<Weight>>, src: nat, dist: seq<Weight>, dist': seq<Weight>,
                    from: seq<int>, from': seq<int>, visited: seq<bool>, visited': seq<bool>,
                    V: set<int>, V': set<int>, rank: map<int, nat>, rank': map<int, nat>,
                    index: nat, i: nat)
    requires ExploreInv(graph, src, dist, from, visited, V, rank, i)
    requires index < |graph| && !visited[index]
    requires forall v :: 0 <= v < |graph| && !visited[v] ==> LessEq(dist[index], dist[v])
    requires visited' == visited[index := true] && V' == V + {index} && rank' == rank[index := i]
    requires Step(graph, dist, dist', from, from', visited', index)
    ensures ExploreInv(graph, src, dist', from', visited', V', rank', i + 1)
  {
    var n := |graph|;
    if i == 0 {
      assert LessEq(dist[index], dist[src]);
    }
    VisitBookkeeping(n, visited, visited', V, V', rank, rank', index, i);
    assert forall v :: 0 <= v < n && v !in V ==> LessEq(dist[index], dist[v]);
    StepKeepsPredecessors(graph, src, dist, dist', from, from', visited', V, V', rank, rank',
                          index, i);
    StepKeepsInfiniteTail(graph, dist, dist', from, from', visited', V, V', rank, rank',
                          index, i);
    StepKeepsFiniteSuccessors(graph, dist, dist', from, from', visited', V, V', rank, rank',
                              index, i);
  }

  /** The id part of `Airport::Dijkstra`: from a source segment to a
      different, reachable destination, the rebuilt id list starts at the
      source, ends at the destination, and follows matrix edges. */
  method PathIds(graph: seq<seq<Weight>>, src: nat, dst: nat) returns (path: seq<nat>)
    requires Square(graph) && src < |graph| && dst < |graph| && src != dst
    requires Reachable(graph, src, dst)
    ensures |path| >= 2 && path[0] == src && path[|path| - 1] == dst
    ensures IsPath(graph, path)
  {
    var n := |graph|;
    var dist, from, rank := Explore(graph, src);
    var p :| IsPath(graph, p) && p[0] == src && p[|p| - 1] == dst;
    PathFinite(graph, dist, p);

    var resultIds: seq<nat> := [dst];
    var prevId: nat := from[dst];
    while prevId != src
      invariant 0 <= prevId < n && dist[prevId].Finite?
      invariant |resultIds| >= 1 && resultIds[0] == dst
      invariant Edge(graph, prevId, resultIds[|resultIds| - 1])
      invariant forall k :: 0 <= k < |resultIds| - 1 ==> Edge(graph, resultIds[k + 1], resultIds[k])
      decreases rank[prevId]
    {
      resultIds := resultIds + [prevId];
      prevId := from[prevId];
    }
    resultIds := resultIds + [prevId];
    path := Reverse(resultIds);
    ReverseIsPath(graph, resultIds);
  }

  /** Visiting `index` in round `i` adds it to the visited set and gives it
      rank `i`. */
  lemma VisitBookkeeping(n: nat, visited: seq<bool>, visited': seq<bool>, V: set<int>,
                         V': set<int>, rank: map<int, nat>, rank': map<int, nat>,
                         index: nat, i: nat)
    requires |visited| == n && index < n && !visited[index]
    requires forall v :: 0 <= v < n ==> (visited[v] <==> v in V)
    requires forall v :: v in V ==> 0 <= v < n
    requires |V| == i && rank.Keys == V && (forall v :: v in V ==> rank[v] < i)
    requires visited' == visited[index := true] && V' == V + {index} && rank' == rank[index := i]
    ensures Visit(n, visited', V, V', rank, rank', index, i)
    ensures |V'| == i + 1 && rank'.Keys == V' && (forall v :: v in V' ==> rank'[v] < i + 1)
    ensures forall v :: v in V' ==> 0 <= v < n
  {
  }

  /** A list whose every element is reached by an edge from the next one,
      reversed, is a path. */
  lemma ReverseIsPath(graph: seq<seq<Weight>>, back: seq<nat>)
    requires |back| >= 1
    requires forall k :: 0 <= k < |back| - 1 ==> Edge(graph, back[k + 1], back[k])
    ensures IsPath(graph, Reverse(back))
  {
    var path := Reverse(back);
    forall k | 0 <= k < |path| - 1
      ensures Edge(graph, path[k], path[k + 1])
    {
      var m := |back| - 2 - k;
      assert path[k] == back[m + 1] && path[k + 1] == back[m];
    }
  }

  /** Whether the search from `src` reaches `dst`: the first loop of
      `Airport::Dijkstra` gives `dst` a finite distance exactly when a path
      leads there. */
  method Reaches(graph: seq<seq<Weight>>, src: nat, dst: nat) returns (b: bool)
    requires Square(graph) && src < |graph| && dst < |graph|
    ensures b <==> Reachable(graph, src, dst)
  {
    var dist, from, rank := Explore(graph, src);
    b := dist[dst].Finite?;
    if b {
      FiniteReachable(graph, src, dist, from, rank, dst);
    } else if Reachable(graph, src, dst) {
      var p :| IsPath(graph, p) && p[0] == src && p[|p| - 1] == dst;
      PathFinite(graph, dist, p);
    }
  }

  /** Following the predecessors back from a segment of finite distance
      ends at the source, so the segment is reachable from it. */
  lemma {:induction false} FiniteReachable(graph: seq<seq<Weight>>, src: nat, dist: seq<Weight>,
                                           from: seq<int>, rank: map<int, nat>, j: nat)
    requires |dist| == |from| == |graph| && src < |graph|
    requires forall v :: 0 <= v < |graph| ==> v in rank
    requires forall k :: 0 <= k < |graph| && from[k] != -1 ==>
               0 <= from[k] < |graph| && dist[from[k]].Finite? && Edge(graph, from[k], k)
               && from[k] in rank && rank[from[k]] < rank[k]
    requires forall k :: 0 <= k < |graph| && k != src && dist[k].Finite? ==> from[k] != -1
    requires j < |graph| && dist[j].Finite?
    ensures Reachable(graph, src, j)
    decreases rank[j]
  {
    if j == src {
      assert IsPath(graph, [src]);
    } else {
      var f: nat := from[j];
      FiniteReachable(graph, src, dist, from, rank, f);
      var p :| IsPath(graph, p) && p[0] == src && p[|p| - 1] == f;
      var q := p + [j];
      assert forall k :: 0 <= k < |q| - 1 ==> Edge(graph, q[k], q[k + 1]) by {
        forall k | 0 <= k < |q| - 1
          ensures Edge(graph, q[k], q[k + 1])
        {
          if k < |p| - 1 {
            assert q[k] == p[k] && q[k + 1] == p[k + 1];
          }
        }
      }
      assert IsPath(graph, q) && q[0] == src && q[|q| - 1] == j;
    }
  }

  /** What one outer step of `Dijkstra` does to the distances and the
      predecessors, as `Relax` states it. */
  ghost predicate Step(graph: seq<seq<Weight>>, dist: seq<Weight>, dist': seq<Weight>,
                       from: seq<int>, from': seq<int>, visited': seq<bool>, index: nat)
  {
    var n := |graph|;
    Square(graph) && |dist| == |dist'| == |from| == |from'| == |visited'| == n && index < n
    && visited'[index]
    && (forall j :: 0 <= j < n ==>
          if Relaxes(graph, dist, visited', index, j)
          then dist'[j] == Finite(dist[index].value + graph[index][j].value)
          else dist'[j] == dist[j])
    && (forall j :: 0 <= j < n ==>
          from'[j] == if from[j] == -1 && Relaxes(graph, dist, visited', index, j)
                      then index else from[j])
  }

  /** The visited set grows by the picked segment, which gets the next rank. */
  ghost predicate Visit(n: nat, visited': seq<bool>, V: set<int>, V': set<int>,
                        rank: map<int, nat>, rank': map<int, nat>, index: nat, i: nat)
  {
    |visited'| == n && index < n && index !in V && V' == V + {index} && rank' == rank[index := i]
    && (forall v :: 0 <= v < n ==> (visited'[v] <==> v in V'))
    && (forall v :: v in V ==> 0 <= v < n)
    && rank.Keys == V && (forall v :: v in V ==> rank[v] < i)
  }

  /** Predecessors stay recorded once written, point to visited segments of
      finite distance over an edge, and to segments visited earlier. */
  lemma StepKeepsPredecessors(graph: seq<seq<Weight>>, src: nat,
                              dist: seq<Weight>, dist': seq<Weight>,
                              from: seq<int>, from': seq<int>, visited': seq<bool>,
                              V: set<int>, V': set<int>, rank: map<int, nat>,
                              rank': map<int, nat>, index: nat, i: nat)
    requires Step(graph, dist, dist', from, from', visited', index)
    requires Visit(|graph|, visited', V, V', rank, rank', index, i)
    requires src < |graph| && (i == 0 ==> index == src) && (i > 0 ==> src in V)
    requires dist[src] == Finite(0.0) && from[src] == -1
    requires forall j :: 0 <= j < |graph| && from[j] != -1 ==>
               0 <= from[j] < |graph| && from[j] in V && dist[from[j]].Finite?
               && Edge(graph, from[j], j) && (j in V ==> rank[from[j]] < rank[j])
    requires forall j :: 0 <= j < |graph| && j != src && dist[j].Finite? ==> from[j] != -1
    ensures src in V' && dist'[src] == Finite(0.0) && from'[src] == -1
    ensures forall j :: 0 <= j < |graph| && from'[j] != -1 ==>
              0 <= from'[j] < |graph| && from'[j] in V' && dist'[from'[j]].Finite?
              && Edge(graph, from'[j], j) && (j in V' ==> rank'[from'[j]] < rank'[j])
    ensures forall j :: 0 <= j < |graph| && j != src && dist'[j].Finite? ==> from'[j] != -1
  {
    var n := |graph|;
    assert !Relaxes(graph, dist, visited', index, index);
    assert forall j :: 0 <= j < n && dist[j].Finite? ==> dist'[j].Finite?;
    assert !Relaxes(graph, dist, visited', index, src);
  }

  /** Once a segment of infinite distance has been visited, every segment
      still unvisited has infinite distance. */
  lemma StepKeepsInfiniteTail(graph: seq<seq<Weight>>,
                              dist: seq<Weight>, dist': seq<Weight>,
                              from: seq<int>, from': seq<int>, visited': seq<bool>,
                              V: set<int>, V': set<int>, rank: map<int, nat>,
                              rank': map<int, nat>, index: nat, i: nat)
    requires Step(graph, dist, dist', from, from', visited', index)
    requires Visit(|graph|, visited', V, V', rank, rank', index, i)
    requires forall v :: 0 <= v < |graph| && v !in V ==> LessEq(dist[index], dist[v])
    requires (exists u :: u in V && dist[u].Infinite?) ==>
               forall v :: 0 <= v < |graph| && v !in V ==> dist[v].Infinite?
    ensures (exists u :: u in V' && dist'[u].Infinite?) ==>
              forall v :: 0 <= v < |graph| && v !in V' ==> dist'[v].Infinite?
  {
    var n := |graph|;
    assert forall j :: 0 <= j < n && visited'[j] ==> dist'[j] == dist[j];
    if dist[index].Infinite? {
      assert forall j :: 0 <= j < n ==> !Relaxes(graph, dist, visited', index, j);
    } else {
      assert forall u :: u in V ==> dist[u].Finite?;
      assert forall j :: 0 <= j < n && dist[j].Finite? ==> dist'[j].Finite?;
    }
  }

  /** Every visited segment of finite distance has successors of finite
      distance. */
  lemma StepKeepsFiniteSuccessors(graph: seq<seq<Weight>>,
                                  dist: seq<Weight>, dist': seq<Weight>,
                                  from: seq<int>, from': seq<int>, visited': seq<bool>,
                                  V: set<int>, V': set<int>, rank: map<int, nat>,
                                  rank': map<int, nat>, index: nat, i: nat)
    requires Step(graph, dist, dist', from, from', visited', index)
    requires Visit(|graph|, visited', V, V', rank, rank', index, i)
    requires (exists u :: u in V && dist[u].Infinite?) ==>
               forall v :: 0 <= v < |graph| && v !in V ==> dist[v].Infinite?
    requires forall u: nat, v: nat :: u in V && dist[u].Finite? && Edge(graph, u, v) ==>
               v < |graph| && dist[v].Finite?
    ensures forall u: nat, v: nat :: u in V' && dist'[u].Finite? && Edge(graph, u, v) ==>
              v < |graph| && dist'[v].Finite?
  {
    var n := |graph|;
    assert forall j :: 0 <= j < n && dist[j].Finite? ==> dist'[j].Finite?;
    assert forall j :: 0 <= j < n && visited'[j] ==> dist'[j] == dist[j];
    if dist[index].Finite? {
      assert forall u :: u in V ==> dist[u].Finite?;
      forall v: nat | Edge(graph, index, v)
        ensures v < n && dist'[v].Finite?
      {
        if v !in V' {
          assert !visited'[v];
        }
      }
    }
  }

  // ---------------------------------------------------------------------
  // Itinerary from the segment path
  // ---------------------------------------------------------------------

  predicate NoAdjacentRepeats(s: seq<string>)
  {
    forall k :: 0 <= k < |s| - 1 ==> s[k] != s[k + 1]
  }

  /** The itinerary loop of `Airport::Dijkstra`: an owner name is appended
      unless it is the one appended last. */
  function Collapse(s: seq<string>): (c: seq<string>)
    ensures |c| <= |s|
    ensures |s| > 0 ==> |c| > 0 && c[|c| - 1] == s[|s| - 1]
  {
    if |s| == 0 then []
    else
      var c := Collapse(s[..|s| - 1]);
      if |c| > 0 && c[|c| - 1] == s[|s| - 1] then c else c + [s[|s| - 1]]
  }

  /** The itinerary never names the same element twice in a row. */
  lemma {:induction false} CollapseNoAdjacentRepeats(s: seq<string>)
    ensures NoAdjacentRepeats(Collapse(s))
  {
    if |s| > 0 {
      CollapseNoAdjacentRepeats(s[..|s| - 1]);
    }
  }

  /** It names exactly the elements the segment path passes through, and
      starts with the first of them. */
  lemma {:induction false} CollapseSameElements(s: seq<string>)
    ensures forall x :: x in Collapse(s) <==> x in s
    ensures |s| > 0 ==> Collapse(s)[0] == s[0]
  {
    if |s| > 0 {
      var init := s[..|s| - 1];
      CollapseSameElements(init);
      assert s == init + [s[|s| - 1]];
    }
  }

  /** A list without adjacent repeats is its own itinerary, so collapsing
      twice is collapsing once. */
  lemma {:induction false} CollapseIdempotent(s: seq<string>)
    requires NoAdjacentRepeats(s)
    ensures Collapse(s) == s
  {
    if |s| > 0 {
      var init := s[..|s| - 1];
      CollapseIdempotent(init);
      assert s == init + [s[|s| - 1]];
    }
  }

  lemma CollapseTwice(s: seq<string>)
    ensures Collapse(Collapse(s)) == Collapse(s)
  {
    CollapseNoAdjacentRepeats(s);
    CollapseIdempotent(Collapse(s));
  }
}
