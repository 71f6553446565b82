/** The bookkeeping a gate keeps besides being a route element: the
    aircraft assigned to it, and per take-off runway the element to push
    back onto and the itinerary to taxi to the runway. */
module Gates {
  import opened Wrappers
  import opened RouteBase

  /** `s` with its first occurrence of `a` erased; unchanged when `a` does
      not occur. */
  function RemoveFirst(s: seq<AircraftId>, a: AircraftId): (r: seq<AircraftId>)
  {
    if s == [] then []
    else if s[0] == a then s[1..]
    else [s[0]] + RemoveFirst(s[1..], a)
  }

  /** Erasing leaves a list without `a` as it is, and otherwise removes
      the first occurrence: everything before it stays, everything after it
      moves up by one. */
  lemma {:induction false} RemoveFirstAt(s: seq<AircraftId>, a: AircraftId, i: nat)
    requires i <= |s| && a !in s[..i] && (i < |s| ==> s[i] == a)
    ensures i == |s| ==> RemoveFirst(s, a) == s
    ensures i < |s| ==> RemoveFirst(s, a) == s[..i] + s[i + 1..]
  {
    if s != [] && s[0] != a {
      assert s[0] == s[..i][0];
      assert s[1..][..i - 1] == s[..i][1..];
      RemoveFirstAt(s[1..], a, i - 1);
      assert s == [s[0]] + s[1..];
      if i < |s| {
        assert s[..i] == [s[0]] + s[1..][..i - 1];
      }
    }
  }

  /** Erasing takes exactly one copy of `a` out of the multiset of
      assignees, or none when there is none. */
  lemma {:induction false} RemoveFirstCount(s: seq<AircraftId>, a: AircraftId)
    ensures multiset(RemoveFirst(s, a)) == multiset(s) - multiset{a}
  {
    if s != [] {
      assert s == [s[0]] + s[1..];
      assert multiset(s) == multiset{s[0]} + multiset(s[1..]);
      if s[0] != a {
        RemoveFirstCount(s[1..], a);
        assert RemoveFirst(s, a) == [s[0]] + RemoveFirst(s[1..], a);
      }
    }
  }

  /** Assigning an aircraft and then freeing it gives back the assignees
      there were before (as a multiset; in order when it was not assigned
      already). */
  lemma {:induction false} AssignThenFree(s: seq<AircraftId>, a: AircraftId)
    ensures multiset(RemoveFirst(s + [a], a)) == multiset(s)
    ensures a !in s ==> RemoveFirst(s + [a], a) == s
  {
    RemoveFirstCount(s + [a], a);
    if a !in s {
      assert (s + [a])[..|s|] == s;
      RemoveFirstAt(s + [a], a, |s|);
    }
  }

  /** `Gate::AssignAircraft`. */
  function AssignAircraft(g: GateInfo, a: AircraftId): (g': GateInfo)
    ensures g'.assignedAircraft == g.assignedAircraft + [a]
    ensures g' == g.(assignedAircraft := g'.assignedAircraft)
  {
    g.(assignedAircraft := g.assignedAircraft + [a])
  }

  /** `Gate::IsAvailable`: nobody is assigned. */
  predicate IsAvailable(g: GateInfo)
  {
    |g.assignedAircraft| == 0
  }

  /** `Gate::AddPushBackRoute`: stores (or replaces) the element to push
      back onto for `runway`. */
  function AddPushBackRoute(g: GateInfo, runway: string, route: RouteId): GateInfo
  {
    g.(pushBackRoute := g.pushBackRoute[runway := route])
  }

  /** `Gate::GetPushBackRoute`: the element stored for `runway`, or none. */
  function GetPushBackRoute(g: GateInfo, runway: string): Option<RouteId>
  {
    if runway in g.pushBackRoute then Some(g.pushBackRoute[runway]) else None
  }

  /** The element stored last for a runway is the one read back for it, and
      storing for one runway leaves the others as they were. */
  lemma PushBackRoundTrip(g: GateInfo, runway: string, route: RouteId, other: string)
    ensures GetPushBackRoute(AddPushBackRoute(g, runway, route), runway) == Some(route)
    ensures other != runway ==>
              GetPushBackRoute(AddPushBackRoute(g, runway, route), other)
              == GetPushBackRoute(g, other)
  {
  }

  /** `Gate::AddTaxiToRunwayList`. */
  function AddTaxiToRunwayList(g: GateInfo, runway: string, itinerary: seq<string>): GateInfo
  {
    g.(taxiToRunwayRoute := g.taxiToRunwayRoute[runway := itinerary])
  }

  /** `Gate::GetTaxiToRunwayList`: the stored itinerary, or an empty one. */
  function GetTaxiToRunwayList(g: GateInfo, runway: string): seq<string>
  {
    if runway in g.taxiToRunwayRoute then g.taxiToRunwayRoute[runway] else []
  }

  /** The itinerary stored last for a runway is read back for it; nothing
      stored reads as empty; other runways are untouched. */
  lemma TaxiToRunwayRoundTrip(g: GateInfo, runway: string, itinerary: seq<string>, other: string)
    ensures GetTaxiToRunwayList(AddTaxiToRunwayList(g, runway, itinerary), runway) == itinerary
    ensures runway !in g.taxiToRunwayRoute ==> GetTaxiToRunwayList(g, runway) == []
    ensures other != runway ==>
              GetTaxiToRunwayList(AddTaxiToRunwayList(g, runway, itinerary), other)
              == GetTaxiToRunwayList(g, other)
  {
  }

  /** `Gate::Reset` after `RouteBase::Reset`: no aircraft on the element
      and none assigned to the gate. */
  function ResetRoute(r: Route): (r': Route)
    ensures r'.aircraftOnRoute == []
    ensures r'.gate.Some? <==> r.gate.Some?
    ensures r.gate.Some? ==> r'.gate.value == r.gate.value.(assignedAircraft := [])
    ensures r' == r.(aircraftOnRoute := [], gate := r'.gate)
  {
    r.(aircraftOnRoute := [],
       gate := if r.gate.Some? then Some(r.gate.value.(assignedAircraft := [])) else None)
  }

  /** Resetting twice is resetting once. */
  lemma ResetIdempotent(r: Route)
    ensures ResetRoute(ResetRoute(r)) == ResetRoute(r)
  {
  }
}
