/** Keeping the hold points of one element and one direction of travel.
    A new hold point is appended, and the list for the positive direction is
    then re-sorted with a selection sort. The sort as written starts its
    inner scan at `i + i` instead of `i + 1`, so it can leave the list out of
    order; both the sort as written and the intended one are modelled. */
module HoldPoints {
  import opened Wrappers
  import opened RouteBase

  predicate SortedByDistance(v: seq<HoldPoint>)
  {
    forall i, j :: 0 <= i < j < |v| ==> v[i].distanceOnRoute <= v[j].distanceOnRoute
  }

  function Swap(v: seq<HoldPoint>, a: nat, b: nat): (w: seq<HoldPoint>)
    requires a < |v| && b < |v|
    ensures |w| == |v|
  {
    v[a := v[b]][b := v[a]]
  }

  /** The inner scan: starting from candidate `target`, every index from `j`
      on whose distance is strictly smaller than the candidate's becomes the
      candidate. */
  function ScanMinimum(v: seq<HoldPoint>, j: nat, target: nat): (t: nat)
    requires target < |v|
    ensures t < |v|
    ensures t == target || j <= t
    decreases |v| - j
  {
    if j >= |v| then target
    else ScanMinimum(v, j + 1, if v[j].distanceOnRoute < v[target].distanceOnRoute then j else target)
  }

  /** The outer loop of the sort as written, from position `i` on: the inner
      scan starts at `i + i`. */
  function SortFromAsWritten(v: seq<HoldPoint>, i: nat): (w: seq<HoldPoint>)
    ensures |w| == |v|
    decreases |v| - i
  {
    if i >= |v| then v
    else SortFromAsWritten(Swap(v, ScanMinimum(v, i + i, i), i), i + 1)
  }

  lemma SwapPermutes(v: seq<HoldPoint>, a: nat, b: nat)
    requires a < |v| && b < |v|
    ensures multiset(Swap(v, a, b)) == multiset(v)
  {
  }

  /** Whatever order it leaves, the sort as written only permutes the list. */
  lemma {:induction false} SortFromAsWrittenPermutes(v: seq<HoldPoint>, i: nat)
    ensures multiset(SortFromAsWritten(v, i)) == multiset(v)
    decreases |v| - i
  {
    if i < |v| {
      var t := ScanMinimum(v, i + i, i);
      SwapPermutes(v, t, i);
      SortFromAsWrittenPermutes(Swap(v, t, i), i + 1);
    }
  }

  /** `RouteBase::AddHoldPoint` as written, on the list kept for the new
      point's direction: the point is appended, and only a positive-direction
      list goes through the sort. */
  method AddHoldPointAsWritten(vec: seq<HoldPoint>, hp: HoldPoint) returns (r: seq<HoldPoint>)
    ensures multiset(r) == multiset(vec + [hp])
    ensures hp.direction ==> r == SortFromAsWritten(vec + [hp], 0)
    ensures !hp.direction ==> r == vec + [hp]
  {
    r := vec + [hp];
    if hp.direction {
      var n := |r|;
      var i := 0;
      while i < n
        invariant 0 <= i <= n == |r|
        invariant SortFromAsWritten(r, i) == SortFromAsWritten(vec + [hp], 0)
      {
        var targetIndex := ScanAsWritten(r, i);
        r := Swap(r, targetIndex, i);
        i := i + 1;
      }
      SortFromAsWrittenPermutes(vec + [hp], 0);
    }
  }

  /** The inner loop of the sort as written, for position `i`. */
  method ScanAsWritten(r: seq<HoldPoint>, i: nat) returns (targetIndex: nat)
    requires i < |r|
    ensures targetIndex == ScanMinimum(r, i + i, i)
  {
    targetIndex := i;
    var targetDistance := r[i].distanceOnRoute;
    var j := i + i;
    while j < |r|
      invariant i + i <= j
      invariant targetIndex < |r| && targetDistance == r[targetIndex].distanceOnRoute
      invariant ScanMinimum(r, j, targetIndex) == ScanMinimum(r, i + i, i)
      decreases |r| - j
    {
      if r[j].distanceOnRoute < targetDistance {
        targetDistance := r[j].distanceOnRoute;
        targetIndex := j;
      }
      j := j + 1;
    }
  }

  /** Three positive hold points x, y, z already in increasing order, and a
      new one w before all of them: the sort as written yields w, x, z, y,
      which is out of order. */
  lemma {:induction false} AsWrittenLeavesListUnsorted(x: HoldPoint, y: HoldPoint, z: HoldPoint,
                                                       w: HoldPoint)
    requires w.distanceOnRoute < x.distanceOnRoute < y.distanceOnRoute < z.distanceOnRoute
    ensures SortFromAsWritten([x, y, z, w], 0) == [w, x, z, y]
    ensures !SortedByDistance(SortFromAsWritten([x, y, z, w], 0))
  {
    var v := [x, y, z, w];
    assert ScanMinimum(v, 0, 0) == ScanMinimum(v, 1, 0) == ScanMinimum(v, 2, 0)
        == ScanMinimum(v, 3, 0) == ScanMinimum(v, 4, 3) == 3;
    var v1 := [w, y, z, x];
    assert Swap(v, 3, 0) == v1;
    assert ScanMinimum(v1, 2, 1) == ScanMinimum(v1, 3, 1) == ScanMinimum(v1, 4, 3) == 3;
    var v2 := [w, x, z, y];
    assert Swap(v1, 3, 1) == v2;
    assert ScanMinimum(v2, 4, 2) == 2 && Swap(v2, 2, 2) == v2;
    assert ScanMinimum(v2, 6, 3) == 3 && Swap(v2, 3, 3) == v2;
    assert SortFromAsWritten(v2, 2) == SortFromAsWritten(v2, 3) == SortFromAsWritten(v2, 4) == v2;
    assert SortFromAsWritten(v, 0) == SortFromAsWritten(v1, 1) == SortFromAsWritten(v2, 2);
    assert v2[2].distanceOnRoute > v2[3].distanceOnRoute;
  }

  /** The intended `AddHoldPoint`: the point is appended, and a
      positive-direction list is sorted by a selection sort whose inner scan
      starts at `i + 1`; the result holds exactly the old points and the new
      one, in increasing distance. The negative-direction list is kept in
      insertion order, as in the simulator. */
  method AddHoldPoint(vec: seq<HoldPoint>, hp: HoldPoint) returns (r: seq<HoldPoint>)
    ensures multiset(r) == multiset(vec + [hp])
    ensures hp.direction ==> SortedByDistance(r)
    ensures !hp.direction ==> r == vec + [hp]
  {
    r := vec + [hp];
    if hp.direction {
      var n := |r|;
      var i := 0;
      while i < n
        invariant 0 <= i <= n == |r|
        invariant multiset(r) == multiset(vec + [hp])
        invariant SortedByDistance(r[..i])
        invariant forall a, b :: 0 <= a < i <= b < n ==>
                    r[a].distanceOnRoute <= r[b].distanceOnRoute
      {
        var targetIndex := ScanMinimumFrom(r, i);
        SwapPermutes(r, targetIndex, i);
        SwapExtendsSorted(r, targetIndex, i);
        r := Swap(r, targetIndex, i);
        i := i + 1;
      }
      assert r[..n] == r;
    }
  }

  /** Swapping a smallest remaining point into position `i` extends the
      sorted prefix by one and keeps it below everything after it. */
  lemma SwapExtendsSorted(r: seq<HoldPoint>, t: nat, i: nat)
    requires i <= t < |r|
    requires SortedByDistance(r[..i])
    requires forall a, b :: 0 <= a < i <= b < |r| ==> r[a].distanceOnRoute <= r[b].distanceOnRoute
    requires forall k :: i <= k < |r| ==> r[t].distanceOnRoute <= r[k].distanceOnRoute
    ensures SortedByDistance(Swap(r, t, i)[..i + 1])
    ensures forall a, b :: 0 <= a < i + 1 <= b < |r| ==>
              Swap(r, t, i)[a].distanceOnRoute <= Swap(r, t, i)[b].distanceOnRoute
  {
    var w := Swap(r, t, i);
    assert forall k :: 0 <= k < |r| ==> w[k] == if k == i then r[t] else if k == t then r[i] else r[k];
  }

  /** The inner loop of the intended sort: an index of smallest distance
      among positions `i` and after. */
  method ScanMinimumFrom(r: seq<HoldPoint>, i: nat) returns (targetIndex: nat)
    requires i < |r|
    ensures i <= targetIndex < |r|
    ensures forall k :: i <= k < |r| ==> r[targetIndex].distanceOnRoute <= r[k].distanceOnRoute
  {
    targetIndex := i;
    var targetDistance := r[i].distanceOnRoute;
    var j := i + 1;
    while j < |r|
      invariant i + 1 <= j <= |r|
      invariant i <= targetIndex < |r| && targetDistance == r[targetIndex].distanceOnRoute
      invariant forall k :: i <= k < j ==> targetDistance <= r[k].distanceOnRoute
    {
      if r[j].distanceOnRoute < targetDistance {
        targetDistance := r[j].distanceOnRoute;
        targetIndex := j;
      }
      j := j + 1;
    }
  }
}
