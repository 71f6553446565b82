/** Looking up a segment of an element, and what the layout built by
    `CreateSegments` guarantees: segments of positive length in the
    documented order, chained in their direction of travel with every in
    list mirroring an out list, names that identify element, slice and
    sign, and lookups that find the slice a distance lies on. */
module SegmentQueries {
  import opened Wrappers
  import opened RouteBase
  import opened Segments
  import Utils

  /** The three ways segments of an element are looked up: the segment a
      distance lies on (`GetSegmentName`), the one ending at a break-out
      distance (`GetBreakoutSegmentName`) and the one starting at a break-in
      distance (`GetBreakinSegmentName`). */
  datatype Query =
    | Covering(direction: bool, distance: real)
    | EndingAt(direction: bool, distance: real)
    | StartingAt(direction: bool, distance: real)

  /** A positive segment covers (start, end], a negative one [end, start). */
  predicate Matches(s: SegmentInfo, q: Query)
  {
    s.direction == q.direction &&
    match q
    case Covering(dir, x) =>
      if dir then s.startDistance < x <= s.endDistance else s.endDistance <= x < s.startDistance
    case EndingAt(_, x) => s.endDistance == x
    case StartingAt(_, x) => s.startDistance == x
  }

  /** Index of the first segment from `i` on that matches. */
  function FindFrom(segs: seq<SegmentInfo>, q: Query, i: nat): (k: Option<nat>)
    ensures k.Some? ==> i <= k.value < |segs| && Matches(segs[k.value], q)
                        && forall j :: i <= j < k.value ==> !Matches(segs[j], q)
    ensures k.None? ==> forall j :: i <= j < |segs| ==> !Matches(segs[j], q)
    decreases |segs| - i
  {
    if i >= |segs| then None
    else if Matches(segs[i], q) then Some(i)
    else FindFrom(segs, q, i + 1)
  }

  /** Name of the first matching segment, or "" when none matches. */
  function Lookup(segs: seq<SegmentInfo>, q: Query): (name: string)
    ensures (forall j :: 0 <= j < |segs| ==> !Matches(segs[j], q)) ==> name == ""
    ensures (exists j :: 0 <= j < |segs| && Matches(segs[j], q)) ==>
              exists k :: 0 <= k < |segs| && Matches(segs[k], q) && name == segs[k].name
                          && forall j :: 0 <= j < k ==> !Matches(segs[j], q)
  {
    var k := FindFrom(segs, q, 0);
    if k.Some? then segs[k.value].name else ""
  }

  function GetSegmentName(segs: seq<SegmentInfo>, direction: bool, distance: real): string
  {
    Lookup(segs, Covering(direction, distance))
  }

  function GetBreakoutSegmentName(segs: seq<SegmentInfo>, direction: bool, distance: real)
    : string
  {
    Lookup(segs, EndingAt(direction, distance))
  }

  function GetBreakinSegmentName(segs: seq<SegmentInfo>, direction: bool, distance: real)
    : string
  {
    Lookup(segs, StartingAt(direction, distance))
  }

  /** When exactly one segment matches, the lookup yields its name. */
  lemma LookupUnique(segs: seq<SegmentInfo>, q: Query, idx: nat)
    requires idx < |segs| && Matches(segs[idx], q)
    requires forall j :: 0 <= j < |segs| && j != idx ==> !Matches(segs[j], q)
    ensures Lookup(segs, q) == segs[idx].name
  {
  }

  // ---------------------------------------------------------------------
  // Names
  // ---------------------------------------------------------------------

  /** A segment name determines its element name, slice and sign: the
      slice number is written in digits only, so the last '|' of the name
      is the one after the element name. */
  lemma SegmentNameInjective(r1: string, i: nat, p: bool, r2: string, j: nat, q: bool)
    requires SegmentName(r1, i, p) == SegmentName(r2, j, q)
    ensures r1 == r2 && i == j && p == q
  {
    var a, b := Utils.NatToString(i), Utils.NatToString(j);
    Utils.NatToStringDigits(i);
    Utils.NatToStringDigits(j);
    var s := SegmentName(r1, i, p);
    var t1 := r1 + "|" + a;
    var t2 := r2 + "|" + b;
    assert s == t1 + [if p then '+' else '-'] == t2 + [if q then '+' else '-'];
    assert t1 == s[..|s| - 1] == t2;
    BarPosition(r1, a, r2, b);
    assert r1 == t1[..|r1|] == t2[..|r2|] == r2;
    assert a == t1[|r1| + 1..] == t2[|r2| + 1..] == b;
    Utils.NatToStringInjective(i, j);
  }

  /** In "<r>|<digits>" the '|' after r is the last one. */
  lemma BarPosition(r1: string, a: string, r2: string, b: string)
    requires forall k :: 0 <= k < |a| ==> '0' <= a[k] <= '9'
    requires forall k :: 0 <= k < |b| ==> '0' <= b[k] <= '9'
    requires r1 + "|" + a == r2 + "|" + b
    ensures |r1| == |r2|
  {
    var t := r1 + "|" + a;
    assert t[|r1|] == '|';
    assert t[|r2|] == (r2 + "|" + b)[|r2|] == '|';
    forall k | |r1| < k < |t|
      ensures t[k] != '|'
    {
      assert t[k] == a[k - |r1| - 1];
    }
    forall k | |r2| < k < |t|
      ensures t[k] != '|'
    {
      assert t[k] == (r2 + "|" + b)[k] == b[k - |r2| - 1];
    }
  }

  // ---------------------------------------------------------------------
  // Layout of the created segments
  // ---------------------------------------------------------------------

  /** Index in the created list of the segment of `slice` with sign
      `positive`. */
  function IndexOf(indicator: OneWayIndicator, slice: nat, positive: bool): nat
  {
    if indicator == 0 then 2 * slice + (if positive then 0 else 1) else slice
  }

  /** Whether the element has a segment with sign `positive`. */
  predicate HasSign(indicator: OneWayIndicator, positive: bool)
  {
    if positive then indicator >= 0 else indicator <= 0
  }

  /** The created list holds, at `IndexOf(indicator, i, p)`, the segment of
      slice i and sign p, for every slice and every sign the element allows,
      and nothing else: seg0+, seg0-, seg1+, seg1-, ... on a two-way element,
      a single sign on a one-way element. */
  lemma CreatedOrder(id: RouteId, routeName: string, d: seq<real>, indicator: OneWayIndicator)
    requires |d| >= 1
    ensures var segs := Created(id, routeName, d, indicator);
            (forall k :: 0 <= k < |segs| ==>
               HasSign(indicator, segs[k].direction)
               && SliceOf(indicator, k) < |d| - 1
               && k == IndexOf(indicator, SliceOf(indicator, k), segs[k].direction))
            && (forall i, p :: 0 <= i < |d| - 1 && HasSign(indicator, p) ==>
                  IndexOf(indicator, i, p) < |segs|
                  && segs[IndexOf(indicator, i, p)].name == SegmentName(routeName, i, p)
                  && segs[IndexOf(indicator, i, p)].direction == p
                  && segs[IndexOf(indicator, i, p)].route == id)
  {
    var segs := Created(id, routeName, d, indicator);
    forall k | 0 <= k < |segs|
      ensures HasSign(indicator, segs[k].direction)
      ensures SliceOf(indicator, k) < |d| - 1
      ensures k == IndexOf(indicator, SliceOf(indicator, k), segs[k].direction)
    {
      assert segs[k] == CreatedAt(id, routeName, d, indicator, k);
    }
    forall i, p | 0 <= i < |d| - 1 && HasSign(indicator, p)
      ensures IndexOf(indicator, i, p) < |segs|
      ensures segs[IndexOf(indicator, i, p)].name == SegmentName(routeName, i, p)
      ensures segs[IndexOf(indicator, i, p)].direction == p
      ensures segs[IndexOf(indicator, i, p)].route == id
    {
      var k := IndexOf(indicator, i, p);
      assert SliceOf(indicator, k) == i && SignOf(indicator, k) == p;
      assert segs[k] == CreatedAt(id, routeName, d, indicator, k);
    }
  }

  /** On strictly increasing boundaries every created segment has positive
      length; a positive segment of slice i runs from d[i] up to d[i+1], a
      negative one from d[i+1] down to d[i]. */
  lemma CreatedGeometry(id: RouteId, routeName: string, d: seq<real>,
                        indicator: OneWayIndicator, k: nat)
    requires |d| >= 1 && StrictlyIncreasing(d)
    requires k < SegmentCount(|d| - 1, indicator)
    ensures var s := Created(id, routeName, d, indicator)[k];
            var i := SliceOf(indicator, k);
            i + 1 < |d| && s.length > 0.0
            && (s.direction ==> s.startDistance == d[i] < s.endDistance == d[i + 1]
                                && s.length == s.endDistance - s.startDistance)
            && (!s.direction ==> s.startDistance == d[i + 1] > s.endDistance == d[i]
                                 && s.length == s.startDistance - s.endDistance)
  {
    var i := SliceOf(indicator, k);
    assert i + 1 < |d|;
    assert d[i] < d[i + 1];
  }

  /** Chain shape: each segment leads into the next slice's segment of the
      same sign in its direction of travel (the + segment at 2i feeds 2i+2
      and the - segment at 2i+1 feeds 2i-1 on a two-way element; i feeds
      i+1, respectively i-1, on a one-way one) and is entered from the
      previous one; the segments at the two ends have no successor,
      respectively no predecessor, inside the element. */
  lemma CreatedChain(id: RouteId, routeName: string, d: seq<real>, indicator: OneWayIndicator,
                     k: nat)
    requires |d| >= 1 && k < SegmentCount(|d| - 1, indicator)
    ensures var segs := Created(id, routeName, d, indicator);
            var n := |d| - 1;
            var i := SliceOf(indicator, k);
            var p := segs[k].direction;
            (Downstream(i, p, n).Some? ==>
               IndexOf(indicator, Downstream(i, p, n).value, p) < |segs|
               && segs[k].outSegment == [segs[IndexOf(indicator, Downstream(i, p, n).value, p)].name])
            && (Downstream(i, p, n).None? ==> segs[k].outSegment == [])
            && (Upstream(i, p, n).Some? ==>
               IndexOf(indicator, Upstream(i, p, n).value, p) < |segs|
               && segs[k].inSegment == [segs[IndexOf(indicator, Upstream(i, p, n).value, p)].name])
            && (Upstream(i, p, n).None? ==> segs[k].inSegment == [])
  {
    CreatedOrder(id, routeName, d, indicator);
    var segs := Created(id, routeName, d, indicator);
    assert segs[k] == CreatedAt(id, routeName, d, indicator, k);
  }

  /** The two-way chain in terms of list positions. */
  lemma CreatedTwoWayChain(id: RouteId, routeName: string, d: seq<real>, i: nat)
    requires |d| >= 1 && i < |d| - 1
    ensures var segs := Created(id, routeName, d, 0);
            (i + 1 < |d| - 1 ==> segs[2 * i].outSegment == [segs[2 * i + 2].name]
                                 && segs[2 * i + 3].outSegment == [segs[2 * i + 1].name])
            && (i + 1 == |d| - 1 ==> segs[2 * i].outSegment == [])
            && (i == 0 ==> segs[1].outSegment == [])
  {
    var n := |d| - 1;
    var segs := Created(id, routeName, d, 0);
    TwoWayAt(id, routeName, d, i, true, 2 * i);
    TwoWayAt(id, routeName, d, i, false, 2 * i + 1);
    if i + 1 < n {
      TwoWayAt(id, routeName, d, i + 1, true, 2 * i + 2);
      TwoWayAt(id, routeName, d, i + 1, false, 2 * i + 3);
      assert segs[2 * i].outSegment == [SegmentName(routeName, i + 1, true)];
      assert segs[2 * i + 3].outSegment == [SegmentName(routeName, i, false)];
    }
  }

  /** On a two-way element slice i's + segment is at 2i and its - segment
      at 2i+1. */
  lemma TwoWayAt(id: RouteId, routeName: string, d: seq<real>, i: nat, p: bool, k: nat)
    requires |d| >= 1 && i < |d| - 1 && k == 2 * i + (if p then 0 else 1)
    ensures var segs := Created(id, routeName, d, 0);
            k < |segs| && segs[k].name == SegmentName(routeName, i, p)
            && segs[k].outSegment == NamesOf(routeName, Downstream(i, p, |d| - 1), p)
  {
    SliceSignOfIndex(0, i, p);
    CreatedFields(id, routeName, d, 0, k);
  }

  /** Element, name, sign and chaining of the segment at index k. */
  lemma CreatedFields(id: RouteId, routeName: string, d: seq<real>, indicator: OneWayIndicator,
                      k: nat)
    requires |d| >= 1 && k < SegmentCount(|d| - 1, indicator)
    ensures var s := Created(id, routeName, d, indicator)[k];
            var i := SliceOf(indicator, k);
            var p := SignOf(indicator, k);
            i + 1 < |d| && s.route == id && s.name == SegmentName(routeName, i, p)
            && s.direction == p
            && s.inSegment == NamesOf(routeName, Upstream(i, p, |d| - 1), p)
            && s.outSegment == NamesOf(routeName, Downstream(i, p, |d| - 1), p)
  {
    assert Created(id, routeName, d, indicator)[k] == CreatedAt(id, routeName, d, indicator, k);
  }

  /** Index k holds slice `SliceOf(k)` with sign `SignOf(k)`. */
  lemma IndexOfSliceSign(indicator: OneWayIndicator, k: nat)
    ensures IndexOf(indicator, SliceOf(indicator, k), SignOf(indicator, k)) == k
    ensures HasSign(indicator, SignOf(indicator, k))
  {
  }

  /** Slice i with an allowed sign p sits at `IndexOf(i, p)`. */
  lemma SliceSignOfIndex(indicator: OneWayIndicator, i: nat, p: bool)
    requires HasSign(indicator, p)
    ensures SliceOf(indicator, IndexOf(indicator, i, p)) == i
    ensures SignOf(indicator, IndexOf(indicator, i, p)) == p
  {
  }

  /** The one-way chain in terms of list positions. */
  lemma CreatedOneWayChain(id: RouteId, routeName: string, d: seq<real>,
                           indicator: OneWayIndicator, i: nat)
    requires indicator != 0 && |d| >= 1 && i + 1 < |d| - 1
    ensures var segs := Created(id, routeName, d, indicator);
            (indicator == 1 ==> segs[i].outSegment == [segs[i + 1].name])
            && (indicator == -1 ==> segs[i + 1].outSegment == [segs[i].name])
  {
    var segs := Created(id, routeName, d, indicator);
    assert segs[i] == Chained(id, routeName, d, i, indicator == 1, true, true);
    assert segs[i + 1] == Chained(id, routeName, d, i + 1, indicator == 1, true, true);
  }

  /** Every in list mirrors the out lists: m's name is in k's out list
      exactly when k's name is in m's in list. */
  lemma CreatedInMirrorsOut(id: RouteId, routeName: string, d: seq<real>,
                            indicator: OneWayIndicator, k: nat, m: nat)
    requires |d| >= 1
    requires k < SegmentCount(|d| - 1, indicator) && m < SegmentCount(|d| - 1, indicator)
    ensures var segs := Created(id, routeName, d, indicator);
            segs[m].name in segs[k].outSegment <==> segs[k].name in segs[m].inSegment
  {
    var segs := Created(id, routeName, d, indicator);
    var n := |d| - 1;
    var ik, pk := SliceOf(indicator, k), SignOf(indicator, k);
    var im, pm := SliceOf(indicator, m), SignOf(indicator, m);
    assert segs[k] == Chained(id, routeName, d, ik, pk, true, true);
    assert segs[m] == Chained(id, routeName, d, im, pm, true, true);
    var down, up := Downstream(ik, pk, n), Upstream(im, pm, n);
    assert segs[k].outSegment == NamesOf(routeName, down, pk);
    assert segs[m].inSegment == NamesOf(routeName, up, pm);
    if segs[m].name in segs[k].outSegment {
      SegmentNameInjective(routeName, im, pm, routeName, down.value, pk);
    }
    if segs[k].name in segs[m].inSegment {
      SegmentNameInjective(routeName, ik, pk, routeName, up.value, pm);
    }
  }

  // ---------------------------------------------------------------------
  // Lookups on the created segments
  // ---------------------------------------------------------------------

  /** A distance strictly inside slice i, or at its upper end when travelling
      +, respectively at its lower end when travelling -, lies on slice i's
      segment of that sign and on no other segment; on a joint d[i] of two
      slices the lookup therefore gives the upstream segment: slice i-1
      travelling +, slice i travelling -. A sign the element does not allow,
      or a distance off [0, length], gives "". */
  lemma GetSegmentNameOnCreated(id: RouteId, routeName: string, d: seq<real>,
                                indicator: OneWayIndicator, direction: bool, x: real)
    requires |d| >= 1 && StrictlyIncreasing(d)
    ensures var segs := Created(id, routeName, d, indicator);
            var name := GetSegmentName(segs, direction, x);
            (forall i :: 0 <= i < |d| - 1 && HasSign(indicator, direction)
                         && (if direction then d[i] < x <= d[i + 1] else d[i] <= x < d[i + 1])
                         ==> name == SegmentName(routeName, i, direction))
            && (!HasSign(indicator, direction) ==> name == "")
            && (x < d[0] || Last(d) < x ==> name == "")
            && (direction && x == d[0] ==> name == "")
            && (!direction && x == Last(d) ==> name == "")
  {
    forall i | 0 <= i < |d| - 1 && HasSign(indicator, direction)
               && (if direction then d[i] < x <= d[i + 1] else d[i] <= x < d[i + 1])
      ensures GetSegmentName(Created(id, routeName, d, indicator), direction, x)
              == SegmentName(routeName, i, direction)
    {
      CoveringFound(id, routeName, d, indicator, direction, x, i);
    }
    if !HasSign(indicator, direction) || x < d[0] || Last(d) < x
       || (direction && x == d[0]) || (!direction && x == Last(d)) {
      CoveringNone(id, routeName, d, indicator, direction, x);
    }
  }

  /** A distance inside slice i (in the sense of the direction of travel)
      is covered by slice i's segment of that sign and by no other. */
  lemma CoveringFound(id: RouteId, routeName: string, d: seq<real>,
                      indicator: OneWayIndicator, direction: bool, x: real, i: nat)
    requires |d| >= 1 && StrictlyIncreasing(d)
    requires i < |d| - 1 && HasSign(indicator, direction)
    requires if direction then d[i] < x <= d[i + 1] else d[i] <= x < d[i + 1]
    ensures GetSegmentName(Created(id, routeName, d, indicator), direction, x)
            == SegmentName(routeName, i, direction)
  {
    var segs := Created(id, routeName, d, indicator);
    var q := Covering(direction, x);
    var idx := IndexOf(indicator, i, direction);
    SliceSignOfIndex(indicator, i, direction);
    CreatedFields(id, routeName, d, indicator, idx);
    CreatedGeometry(id, routeName, d, indicator, idx);
    forall j | 0 <= j < |segs| && j != idx
      ensures !Matches(segs[j], q)
    {
      CoveringMissesOther(id, routeName, d, indicator, direction, x, i, j);
    }
    LookupUnique(segs, q, idx);
  }

  /** Any other segment misses a distance inside slice i. */
  lemma CoveringMissesOther(id: RouteId, routeName: string, d: seq<real>,
                            indicator: OneWayIndicator, direction: bool, x: real, i: nat, j: nat)
    requires |d| >= 1 && StrictlyIncreasing(d)
    requires i < |d| - 1 && HasSign(indicator, direction)
    requires if direction then d[i] < x <= d[i + 1] else d[i] <= x < d[i + 1]
    requires j < SegmentCount(|d| - 1, indicator) && j != IndexOf(indicator, i, direction)
    ensures !Matches(Created(id, routeName, d, indicator)[j], Covering(direction, x))
  {
    var sj := SliceOf(indicator, j);
    CreatedFields(id, routeName, d, indicator, j);
    CreatedGeometry(id, routeName, d, indicator, j);
    IndexOfSliceSign(indicator, j);
    if SignOf(indicator, j) == direction {
      assert sj != i;
      if sj < i {
        assert d[sj + 1] <= d[i];
      } else {
        assert d[i + 1] <= d[sj];
      }
    }
  }

  /** A sign the element does not allow, or a distance off the covered
      range, is covered by no segment. */
  lemma CoveringNone(id: RouteId, routeName: string, d: seq<real>,
                     indicator: OneWayIndicator, direction: bool, x: real)
    requires |d| >= 1 && StrictlyIncreasing(d)
    requires !HasSign(indicator, direction) || x < d[0] || Last(d) < x
             || (direction && x == d[0]) || (!direction && x == Last(d))
    ensures GetSegmentName(Created(id, routeName, d, indicator), direction, x) == ""
  {
    var segs := Created(id, routeName, d, indicator);
    var q := Covering(direction, x);
    forall j | 0 <= j < |segs|
      ensures !Matches(segs[j], q)
    {
      CreatedFields(id, routeName, d, indicator, j);
      IndexOfSliceSign(indicator, j);
      CreatedGeometry(id, routeName, d, indicator, j);
      var sj := SliceOf(indicator, j);
      assert d[0] <= d[sj] && d[sj + 1] <= Last(d);
    }
  }

  /** The segment ending at a boundary in the direction of travel: the +
      segment of slice i ends at d[i+1], the - segment of slice i at d[i]. */
  lemma BreakoutOnCreated(id: RouteId, routeName: string, d: seq<real>,
                          indicator: OneWayIndicator, i: nat, direction: bool)
    requires |d| >= 1 && StrictlyIncreasing(d)
    requires i < |d| - 1 && HasSign(indicator, direction)
    ensures var segs := Created(id, routeName, d, indicator);
            GetBreakoutSegmentName(segs, direction, if direction then d[i + 1] else d[i])
            == SegmentName(routeName, i, direction)
            && GetBreakinSegmentName(segs, direction, if direction then d[i] else d[i + 1])
            == SegmentName(routeName, i, direction)
  {
    var segs := Created(id, routeName, d, indicator);
    var qo := EndingAt(direction, if direction then d[i + 1] else d[i]);
    var qi := StartingAt(direction, if direction then d[i] else d[i + 1]);
    var idx := IndexOf(indicator, i, direction);
    SliceSignOfIndex(indicator, i, direction);
    CreatedFields(id, routeName, d, indicator, idx);
    CreatedGeometry(id, routeName, d, indicator, idx);
    forall j | 0 <= j < |segs| && j != idx
      ensures !Matches(segs[j], qo) && !Matches(segs[j], qi)
    {
      CreatedFields(id, routeName, d, indicator, j);
      IndexOfSliceSign(indicator, j);
      CreatedGeometry(id, routeName, d, indicator, j);
      var sj := SliceOf(indicator, j);
      if segs[j].direction == direction {
        assert sj != i;
      }
    }
    LookupUnique(segs, qo, idx);
    LookupUnique(segs, qi, idx);
  }
}
