# Ground control: a verified model of the taxi-network engine

This project models the core of an airport ground-control simulator. An
airport is a network of named route elements: runways, straight taxiways,
arcs and gates. Each element has a length, a one-way indicator, a taxi speed
limit, connection records toward its neighbours, breakpoints where those
connections leave and join it, hold points for each direction, and the set
of aircraft on it.

The engine has five parts, and the model follows them module by module:

- **Wiring and slicing** (`RouteBase`, `Segments`, `SegmentQueries`, `Topology`).
  - Elements are connected in pairs, and the connections are recorded as
    breakpoints kept sorted by distance.
  - Each element is sliced into directed segments at its breakpoints. The
    segments are chained inside the element and linked across connections.
  - All segments are numbered into a dense weight matrix.
- **Pathfinding** (`Pathfinder`, `Airports`). A Dijkstra search over the
  segment matrix. The segment path it finds is turned into an itinerary of
  element names.
- **Motion** (`Motion`, `Airports`).
  - `ComputePosition` walks an aircraft along its itinerary. It moves the
    aircraft between the occupancy sets of the elements it leaves and enters.
  - Two look-ahead scanners search the itinerary: one for the closest
    aircraft in the way, one for the next hold point.
- **The aircraft and its state machine** (`Aircrafts`, `States`,
  `Departure`, `StateMachines`).
  - There are eleven states, from the landing countdown to the take-off roll.
  - Each state has entry, update and exit steps that change the aircraft,
    the airport and the state's own fields.
  - A machine moves between the states by name.
- **Helpers** (`Gates`, `HoldPoints`, `Utils`): gate bookkeeping, the
  hold-point list, unit conversions, and the clock text.

## How the model is built

**The airport.** The `Airport` class holds the element records in an arena.
- Its `routes` field is a sequence of `Route` values, indexed by element id.
  An element reference of the simulator is such an id.
- The methods of an element that change it become `Airport` methods, which
  replace one record of the arena.
- Read-only element functions become Dafny functions on `Route` values.
- The aircraft is a class with the simulator's fields.
- Each of the stateful states is a class with its own fields: Initial has a
  timer, MaintainSpeed has its current and next element, Idle has a timer,
  and PushBack has its speed.

**Reals and undefined behaviour.**
- Distances and speeds are `real`.
- The `INT_MAX` "no edge" weight of the matrix is a distinguished
  `Infinite` weight.
- Where a state's entry, update or exit dereferences a null element
  reference or reads past the end of a list, the model's method returns
  `defined == false`. Its contract says exactly when that happens.
- The airport's construction steps and its position and look-ahead
  computations instead require the condition under which the simulator's
  code is defined. Each of them is listed under "## Left out".

**Inputs from outside.**
- The clearance flags that the controller's buttons set are aircraft fields
  the environment changes between updates.
- The positions of the other aircraft are a `traffic` map passed to the
  update.
- The time step `dt` is a parameter.

## Model

| member | source | states |
|---|---|---|
| RouteBase.NewRoute | RouteBase.h:328 | a new element has no connections, breakpoints, segments, hold points or aircraft, and may be travelled in both directions |
| RouteBase.AllowTravelSomeDirection | RouteBase.cpp:452-461 | every element can be travelled at least one way; it can be travelled both ways exactly when its one-way indicator is 0, and a one-way element only in its own direction |
| RouteBase.SetOneWayDirection | RouteBase.cpp:463-469 | afterwards the element may be travelled exactly in the given direction, and nothing else of it changes |
| RouteBase.GetConnectionInfo | RouteBase.h:228-230 | returns the stored record, or a zero record that is then inserted under the name; every other record is kept |
| RouteBase.GetConnectedRouteBreakOutAt | RouteBase.cpp:471-479 | exactly the next pieces of the connections that break out at the given distance |
| RouteBase.InsertAircraft | RouteBase.cpp:259-261 | the occupancy becomes the old set plus the aircraft, stays free of duplicates, and nothing else changes |
| RouteBase.ClearAircraft | RouteBase.cpp:263-267 | the occupancy becomes the old set minus the aircraft, stays free of duplicates, and nothing else changes |
| RouteBase.Remove | RouteBase.cpp:263-267 | the aircraft is removed from an occupancy list and every other member is kept |
| RouteBase.RunwayNumber | RouteBase.cpp:549-557 | the runway number of the positive direction, computed from the heading, is between 0 and 17 |
| RouteBase.RunwayInfos | RouteBase.cpp:540-577 | two directions, positive then negative, with numbers n and n+18 (0 <= n <= 17), internal names "+name" and "-name", and touch-down distances mirrored: each pair sums to the runway length |
| RouteBase.RunwayR1Numbers | Airport.cpp:61-62 | the runway laid out at -30 degrees is runway 12/30, as its calling names say |
| Segments.InsertSortedAdds | RouteBase.cpp:89-99 | insertion adds exactly the new breakpoint to the multiset |
| Segments.InsertSortedSorted | RouteBase.cpp:89-99 | insertion into a sorted breakpoint list keeps it sorted by distance |
| Segments.InsertBreakpoint | RouteBase.cpp:89-99 | the new list is sorted by distance and holds the old breakpoints plus the new one |
| Segments.BoundaryPrefix | RouteBase.cpp:102-116 | the scanned boundary list starts at 0 |
| Segments.Boundaries | RouteBase.cpp:102-116 | the boundaries start at 0 and end at the element length |
| Segments.BoundaryPrefixContents | RouteBase.cpp:102-116 | each scanned boundary is 0 or a breakpoint distance, and every breakpoint distance is a boundary |
| Segments.BoundariesContents | RouteBase.cpp:102-116 | the boundaries are exactly 0, the length and the breakpoint distances |
| Segments.BoundaryPrefixIncreasing | RouteBase.cpp:102-116 | sorted breakpoints at non-negative distances give strictly increasing scanned boundaries that end at the last breakpoint |
| Segments.BoundariesIncreasing | RouteBase.cpp:102-116 | sorted breakpoints within [0, length] give strictly increasing boundaries from 0 to the length |
| Segments.Created | RouteBase.cpp:118-142 | one segment per slice and allowed sign: 2k segments on a two-way element, k on a one-way one |
| Segments.CreateSegments | RouteBase.cpp:101-175 | the segments built are those of `Created` over the boundaries of the element's sorted breakpoints |
| Segments.ChainTwoWay | RouteBase.cpp:144-157 | the four chaining loops of a two-way element give the chained list of `Created` |
| Segments.ChainTwoWayPositive | RouteBase.cpp:145-150 | after the first two loops, each + segment leads into the next slice's + segment, and the in lists mirror this |
| Segments.ChainTwoWayNegative | RouteBase.cpp:151-156 | after the last two loops, each - segment leads into the previous slice's - segment, and the in lists mirror this |
| Segments.ChainTwoWayNegativeOut | RouteBase.cpp:154-156 | the out lists of the - segments point to the previous slice |
| Segments.ChainOneWay | RouteBase.cpp:158-173 | on a one-way element, + segment i leads into i+1 and - segment i into i-1, giving the list of `Created` |
| SegmentQueries.FindFrom | RouteBase.cpp:197-213 | the index of the first segment from i on that matches, or none when no later segment matches |
| SegmentQueries.Lookup | RouteBase.cpp:197-213 | the name of the first matching segment, or "" when none matches |
| SegmentQueries.LookupUnique | RouteBase.cpp:197-213 | when exactly one segment matches, the lookup returns its name |
| SegmentQueries.SegmentNameInjective | RouteBase.cpp:123 | a segment name (element name, a bar, the slice number in digits) with its sign determines the element name, the slice and the sign |
| SegmentQueries.CreatedOrder | RouteBase.h:333-335 | segments are ordered seg0+, seg0-, seg1+, seg1-, ... on a two-way element and by slice, with one sign, on a one-way element |
| SegmentQueries.CreatedGeometry | RouteBase.cpp:118-142 | on strictly increasing boundaries, each + segment runs from d[i] up to d[i+1] and each - segment from d[i+1] down to d[i], with positive length |
| SegmentQueries.CreatedChain | RouteBase.cpp:144-173 | each segment leads into the next slice's segment of the same sign in its direction of travel, and nothing else |
| SegmentQueries.CreatedTwoWayChain | RouteBase.cpp:144-157 | on a two-way element the + segment at 2i feeds 2i+2 and the - segment at 2i+3 feeds 2i+1; the last + segment and the first - segment lead nowhere |
| SegmentQueries.CreatedOneWayChain | RouteBase.cpp:158-173 | on a one-way element, segment i feeds i+1 in the + direction and i-1 in the - direction |
| SegmentQueries.CreatedInMirrorsOut | RouteBase.cpp:144-173 | m is in k's out list exactly when k is in m's in list |
| SegmentQueries.GetSegmentNameOnCreated | RouteBase.h:279-280 | a distance inside slice i lies on slice i's segment of the travel sign and no other; at a joint the upstream segment is returned |
| SegmentQueries.CoveringFound | RouteBase.cpp:197-213 | a distance in (d[i], d[i+1]] going + (or [d[i], d[i+1]) going -) is named by slice i's segment of that sign |
| SegmentQueries.CoveringMissesOther | RouteBase.cpp:197-213 | no other segment covers such a distance |
| SegmentQueries.CoveringNone | RouteBase.cpp:197-213 | a sign the element does not allow, or a distance off [0, length], gives "" |
| SegmentQueries.BreakoutOnCreated | RouteBase.cpp:177-185 | the segment of the travel sign that ends at boundary d[i+1] (going +) or d[i] (going -) is the one returned |
| Topology.ConnectRouteEffect | RouteBase.cpp:71-87 | the record is inserted only when none is stored (never overwritten); self gains one OUT breakpoint and the peer one IN breakpoint; both lists stay sorted |
| Topology.ConnectEffect | Airport.cpp:726-742 | each side records the connection exactly when it allows its own direction argument, and the entering sign toward the peer is the negation of the peer's argument |
| Topology.CreateAll | Airport.cpp:521-524 | slicing every listed element keeps the arena's size |
| Topology.CreateAllKeeps | Airport.cpp:521-524 | slicing changes only segment lists, and each new segment belongs to the element it was added to |
| Topology.PopulateStep | RouteBase.cpp:218-252 | one breakpoint's linking keeps the arena's size |
| Topology.PopulateFrom | RouteBase.cpp:215-253 | linking an element's breakpoints keeps the arena's size |
| Topology.PopulateAll | Airport.cpp:527-530 | linking every listed element keeps the arena's size |
| Topology.PopulateStepExtends | RouteBase.cpp:218-252 | one linking step only adds records and extends in and out lists |
| Topology.PopulateFromExtends | RouteBase.cpp:215-253 | linking never changes a segment's name, sign, ends or length, a breakpoint, or a stored record; it only adds |
| Topology.PopulateAllExtends | Airport.cpp:527-530 | the whole linking step extends the arena |
| Topology.FindFromExtended | RouteBase.cpp:225-230 | segment lookups give the same answer before and after linking |
| Topology.LookupExtended | RouteBase.cpp:197-213 | name lookups give the same answer before and after linking |
| Topology.PopulateStepLinksOut | RouteBase.cpp:236-251 | after an OUT breakpoint, the segment ending there in the allowed direction lists the peer's break-in segment last in its out list |
| Topology.PopulateStepLinksIn | RouteBase.cpp:220-235 | after an IN breakpoint, the segment starting there in the entering direction lists the peer's break-out segment last in its in list |
| Topology.ConcatOwned | Airport.cpp:533-570 | every numbered segment belongs to an element of the arena |
| Topology.ExtendsOwned | RouteBase.cpp:215-253 | linking keeps every segment with its element |
| Topology.Matrix | Airport.cpp:573-584 | the matrix is square, with one row and one column per numbered segment |
| Topology.TablesAppend | Airport.cpp:533-570 | the next segment gets the next id, and its name gets that id unless the name already has one |
| Topology.TablesInverse | Airport.cpp:533-570 | with distinct segment names, the id-to-name and name-to-id tables are inverse to each other |
| Pathfinder.FindIndexOfMinimumValue | Airport.cpp:606-618 | an unvisited index of least distance; because of `<=`, no later unvisited index has the same distance (ties go to the highest index) |
| Pathfinder.Relax | Airport.cpp:634-643 | only unvisited successors over an edge from a finite distance are relaxed, no distance grows, and a predecessor is written only where none was |
| Pathfinder.Pigeon | Airport.cpp:629-645 | while fewer than n segments are visited an unvisited one remains, so the minimum search always has a candidate |
| Pathfinder.PathFinite | Airport.cpp:629-645 | once exploration ends, every segment on a path from a finite-distance segment has a finite distance |
| Pathfinder.Reverse | Airport.cpp:653-660 | the list read backwards |
| Pathfinder.Explore | Airport.cpp:629-645 | after the loop the source has distance 0 and no predecessor; every other finite segment has a predecessor visited earlier over an edge; finite segments have finite successors |
| Pathfinder.ExploreStep | Airport.cpp:629-645 | one round (minimum pick, then `Relax`) keeps the exploration invariant |
| Pathfinder.PathIds | Airport.cpp:620-660 | given src != dst and reachability, the rebuilt id list starts at src, ends at dst, and each consecutive pair is a matrix edge |
| Pathfinder.ReverseIsPath | Airport.cpp:653-660 | following predecessors backwards and reversing gives a forward path |
| Pathfinder.Reaches | Airport.cpp:629-645 | exploration gives dst a finite distance exactly when a path leads there |
| Pathfinder.FiniteReachable | Airport.cpp:653-660 | following predecessors from a finite segment ends at the source, so the segment is reachable |
| Pathfinder.StepKeepsPredecessors | Airport.cpp:636-641 | predecessors stay once written and point to earlier-visited, finite segments over an edge |
| Pathfinder.StepKeepsInfiniteTail | Airport.cpp:629-645 | once an infinite segment has been picked, every unvisited one is infinite |
| Pathfinder.StepKeepsFiniteSuccessors | Airport.cpp:634-643 | each visited finite segment has finite-distance successors |
| Pathfinder.Collapse | Airport.cpp:674-681 | the collapsed itinerary is no longer than the owner list and ends with its last name |
| Pathfinder.CollapseNoAdjacentRepeats | Airport.cpp:674-681 | the itinerary never names the same element twice in a row |
| Pathfinder.CollapseSameElements | Airport.cpp:674-681 | it names exactly the elements of the owner list, starting with the first |
| Pathfinder.CollapseIdempotent | Airport.cpp:674-681 | a list without adjacent repeats is its own collapse |
| Pathfinder.CollapseTwice | Airport.cpp:674-681 | collapsing twice is collapsing once |
| Airports.OwnerInSpec | Airport.cpp:595-602 | the owner of a numbered segment is the element of a segment with the same name; with unique names, of that segment itself |
| Airports.OwnersIn | Airport.cpp:674-681 | one owner name per segment of the path, each the owner of that segment |
| Airports.CollapseStep | Airport.cpp:674-681 | one round of the itinerary loop appends the next owner unless it equals the last one appended |
| Airports.Itinerary | Airport.cpp:674-681 | the itinerary loop returns the collapse of the owner names along the path |
| Airports.RoutedJoins | Airport.cpp:653-681 | the itinerary found joins the owner of the source to the owner of the destination |
| Airports.PathOnSegments | Airport.cpp:653-660 | a path in the matrix only visits numbered segments |
| Airports.CollapsedPathRouted | Airport.cpp:653-681 | collapsing the owners along a path from src to dst gives a routed itinerary |
| Airports.Airport.Dijkstra | Airport.cpp:620-682 | given src != dst and reachability, the itinerary starts at the source's element, ends at the destination's, follows matrix edges between segments, and names each run of one element once |
| Airports.Airport.SegmentId | Airport.cpp:684-695 | the id of a name, with a name that has none given id 0 and recorded |
| Airports.Airport.GetRoute | Airport.cpp:684-695 | looks up the segments at both positions (default-inserting id 0) and returns the itinerary that `Dijkstra` finds between them |
| Airports.SegmentRoute | Airport.cpp:595-602 | the element of the first segment with that name, found exactly when such a segment exists |
| Airports.Airport.constructor | Airport.cpp:6-21 | an airport with no elements, segments, tables, matrix or hold points, road text hidden and wind 0 |
| Airports.Airport.AddRunway | Airport.cpp:697-700 | a runway with its two directions is appended to the arena and the runway list and becomes the element of its name |
| Airports.Airport.AddTaxiway | Airport.cpp:702-705 | a taxiway is appended to the arena and the taxiway list and becomes the element of its name |
| Airports.Airport.AddArcway | Airport.cpp:707-710 | an arc with the arc length is appended to the arena and the arc list |
| Airports.Airport.AddGate | Airport.cpp:712-715 | a gate of the given size with nobody assigned is appended to the arena and the gate list |
| Airports.Airport.SetRunwayCallingName | Airport.cpp:61-62 | the calling name now maps to the internal name |
| Airports.Airport.SetOneWayDirection | RouteBase.cpp:463-469 | only element `id` changes, to its one-way version |
| Airports.Airport.AddPushBackRoute | RouteBase.cpp:868-870 | only the gate's push-back table changes, gaining the element for the runway |
| Airports.Airport.AddTaxiToRunwayList | RouteBase.cpp:876-878 | only the gate's taxi-to-runway table changes, gaining the itinerary for the runway |
| Airports.Airport.ConnectRoute | RouteBase.cpp:71-87 | the arena becomes that of `ConnectRouteSpec` (see `Topology.ConnectRouteEffect`) |
| Airports.Airport.Connect | Airport.cpp:726-742 | the arena becomes that of `ConnectSpec` (see `Topology.ConnectEffect`) |
| Airports.Airport.AddHoldPoint | Airport.cpp:717-720 | the point joins the hold list of its element for its direction and the airport's list; the positive-direction list is then that of the sort as written (`HoldPoints.SortFromAsWritten`), a permutation of the old points plus the new one, and the negative-direction list is in insertion order |
| Airports.Airport.BuildConnectionMatrix | Airport.cpp:519-593 | every element is sliced and linked, the segments are numbered in the order runways, taxiways, arcs, gates into both id tables, and the matrix is filled |
| Airports.Airport.LinkSegments | Airport.cpp:521-530 | the arena after slicing and linking is that of `PopulateAll(CreateAll(...))` |
| Airports.Airport.CreateAllSegments | Airport.cpp:521-524 | the arena after slicing is that of `CreateAll` |
| Airports.Airport.PopulateAllConnections | Airport.cpp:527-530 | the arena after linking is that of `PopulateAll` |
| Airports.Airport.PopulateIntraRouteConnection | RouteBase.cpp:215-253 | the arena after linking one element is that of `PopulateFrom` over its breakpoints |
| Airports.Airport.NumberSegments | Airport.cpp:533-570 | the numbered segments are the listed elements' segments in order, and both id tables describe them |
| Airports.Airport.NumberSegmentsOf | Airport.cpp:540-568 | one element's segments are appended, and both id tables are kept consistent |
| Airports.Airport.FillMatrix | Airport.cpp:573-584 | the matrix has 0 on the diagonal, the length of segment i at [i][j] when j's name is in i's out list, and "no edge" elsewhere |
| Airports.FindSegment | RouteBase.cpp:225-230 | the index loop returns the first matching segment, or -1 |
| Airports.Lists | Airport.cpp:577-582 | the out-list scan finds the name exactly when it is in the list |
| Airports.LinkBreakpoint | RouteBase.cpp:218-252 | the loop body for one breakpoint gives the arena of `PopulateStep` |
| Airports.TakeLeg | RouteBase.cpp:276-323 | one leg of `ComputePosition` changes the arena and the position as `LegOf` says |
| Airports.LegKeepsLayout | RouteBase.cpp:276-323 | a leg changes only connection records and occupancy |
| Airports.GrowKeepsLayout | RouteBase.h:228-230 | records added by default insertion leave breakpoints, segments and gate data as they were |
| Airports.Airport.ComputePosition | RouteBase.cpp:270-326 | the new arena and position are those of `Motion.Advance` |
| Airports.Airport.InsertAircraft | RouteBase.cpp:259-261 | only element r changes, as `RouteBase.InsertAircraft` says |
| Airports.Airport.ClearAircraft | RouteBase.cpp:263-267 | only element r changes, as `RouteBase.ClearAircraft` says |
| Airports.Airport.GetConnectionInfo | RouteBase.h:228-230 | the record returned and inserted is that of `RouteBase.GetConnectionInfo` |
| Airports.Airport.ClosestAircraftInWay | RouteBase.cpp:328-388 | the aircraft found, the lowered search distance and the inserted records are those of `Motion.ClosestAircraftInWay`, whose outcome along the itinerary `Motion.ClosestFromFirst` states |
| Airports.Airport.GetDistanceToNextHold | RouteBase.cpp:398-446 | the distance, the hold type and the inserted records are those of `Motion.GetDistanceToNextHold`, whose outcome along the itinerary `Motion.HoldFromFirst` states |
| Airports.Airport.GetGatesWithExactSize | Airport.cpp:822-830 | a gate is listed exactly when it is one of the airport's gates and has exactly that size |
| Airports.Airport.GetAvailableGates | Airport.cpp:759-767 | a gate is listed exactly when it is one of the airport's gates and nobody is assigned to it |
| Airports.FilterGates | Airport.cpp:822-830 | the selected gates are among the listed ones and are gates |
| Airports.FilterGatesSpec | Airport.cpp:822-830 | a gate is selected exactly when it is listed and passes the test |
| Airports.FilterGatesFrame | Airport.cpp:759-767 | the selection depends only on the gate data of the listed gates |
| Airports.Airport.GetActiveRunwayInfo | Airport.cpp:793-808 | a runway direction is returned exactly when it belongs to a runway and its window contains the wind direction |
| Airports.ActiveRunwayInfoSpec | Airport.cpp:793-808 | the returned directions are those of the airport's runways that pass the window test |
| Airports.ActiveOfSpec | Airport.cpp:793-808 | a direction of a list is returned exactly when it passes the window test |
| Airports.ExactlyOneDirectionActive | Airport.cpp:793-808 | for a wind in [0, 360), exactly one of runway n and runway n+18 is in use |
| Airports.TouchDownRange | RouteBase.cpp:562-573 | three touch-down distances for the positive direction, the first being the distance from the runway end to the first marking |
| Airports.FirstHold | Airport.cpp:840-856 | the first kept hold point for the runway with that type, or the empty hold point when there is none |
| Airports.Airport.GetHoldPoint | Airport.cpp:840-847 | the first take-off hold point for the runway, or the empty hold point when there is none |
| Airports.Airport.GetLineUpPoint | Airport.cpp:849-856 | the first line-up point for the runway, or the empty hold point when there is none |
| Airports.Airport.GetLandingPositionInfo | Airport.cpp:862-868 | by day: positive direction at 400; by night: negative direction at 2300 |
| Airports.Airport.GetRunwayInternalName | Airport.cpp:858-860 | the internal name of a known calling name; an unknown one is recorded with "" and "" is returned |
| Airports.Airport.SetWindDirection | Airport.cpp:870-872 | the wind direction is set |
| Airports.Airport.FlipRoadText | Airport.cpp:810-812 | the road-text flag is negated |
| Airports.Airport.Reset | Airport.cpp:832-838 | road text hidden; runways, taxiways, gates and arcs all have no aircraft and no gate assignees |
| Airports.Airport.ResetAll | Airport.cpp:832-838 | one reset loop clears the listed elements |
| Airports.ResetOnCompose | Airport.cpp:832-838 | two reset loops one after the other reset what either lists |
| Airports.Airport.AssignAircraft | RouteBase.cpp:888-891 | only the gate's assignee list changes, gaining the aircraft |
| Airports.Airport.Free | RouteBase.cpp:893-907 | only the gate's assignee list changes, losing the first entry of the aircraft if there is one |
| Gates.AssignAircraft | RouteBase.cpp:888-891 | the aircraft is appended to the assignees and nothing else of the gate changes |
| Gates.RemoveFirstAt | RouteBase.cpp:893-907 | freeing removes the first occurrence only, keeping order, and leaves a list without the aircraft alone |
| Gates.RemoveFirstCount | RouteBase.cpp:893-907 | freeing removes exactly one copy of the aircraft from the multiset, or none |
| Gates.AssignThenFree | RouteBase.cpp:888-907 | assigning then freeing gives back the old assignees |
| Gates.PushBackRoundTrip | RouteBase.cpp:868-874 | the element stored last for a runway is read back for it, and other runways are untouched |
| Gates.TaxiToRunwayRoundTrip | RouteBase.cpp:876-882 | the itinerary stored for a runway is read back, nothing stored reads as empty, and other runways are untouched |
| Gates.ResetRoute | RouteBase.cpp:917-921 | after reset there are no aircraft on the element and no assignees, and nothing else changes |
| Gates.ResetIdempotent | RouteBase.cpp:917-921 | resetting twice is resetting once |
| HoldPoints.ScanMinimum | RouteBase.cpp:49-58 | the inner scan returns an index in range: the start candidate or one from j on |
| HoldPoints.SortFromAsWritten | RouteBase.cpp:46-62 | the sort as written keeps the list's length |
| HoldPoints.SortFromAsWrittenPermutes | RouteBase.cpp:46-62 | the sort as written only permutes the list |
| HoldPoints.AddHoldPointAsWritten | RouteBase.cpp:29-64 | the point is appended; only a positive-direction list goes through the sort as written; the result is a permutation of the old points plus the new one |
| HoldPoints.ScanAsWritten | RouteBase.cpp:52 | the inner loop as written starts at i + i |
| HoldPoints.AsWrittenLeavesListUnsorted | RouteBase.cpp:52 | three sorted points plus a new first one come out as w, x, z, y, which is out of order |
| HoldPoints.AddHoldPoint | RouteBase.h:320 | intended behaviour: the result holds exactly the old points and the new one, sorted by distance in the positive direction, and in insertion order in the negative direction |
| HoldPoints.ScanMinimumFrom | RouteBase.cpp:49-58 | intended inner loop: an index of least distance among positions i and after |
| Motion.LegOf | RouteBase.cpp:276-323 | a leg either stays on the element with the same itinerary, or empties the itinerary, or enters an element of the arena |
| Motion.Advance | RouteBase.cpp:270-326 | legs are taken until the aircraft stays on an element; the arena keeps its size and the element is in it |
| Motion.AdvanceKeepsSuffix | RouteBase.cpp:311-323 | the itinerary left is a suffix of the one given: elements are dropped only from its front |
| Motion.AdvanceEmpty | RouteBase.cpp:276 | with an empty itinerary nothing changes |
| Motion.AdvanceInside | RouteBase.cpp:278-290 | strictly short of the bound, only the distance moves, by delta in the direction of travel |
| Motion.AdvanceLastLeg | RouteBase.cpp:293-297 | on the last leg, reaching the end clamps the distance to the end and empties the itinerary |
| Motion.AdvanceWrongDirection | RouteBase.cpp:303-310 | reaching the break-out point in a direction the connection does not allow changes nothing |
| Motion.AdvanceTransfer | RouteBase.cpp:311-323 | at the break-out point the aircraft leaves the old occupancy set, joins the next piece, one leg is popped, the direction becomes the entering sign, and the rest of delta is applied from the break-in distance |
| Motion.LegKeepsOccupancy | RouteBase.cpp:311-323 | after one leg the aircraft is on exactly its new element, and nothing else moves |
| Motion.AdvanceKeepsOccupancy | RouteBase.cpp:270-326 | however far it goes, the aircraft ends on exactly its new element, and no other aircraft or field moves |
| Motion.InWindowInterval | RouteBase.cpp:349-350 | the scan window is the closed interval between the two distances, in either direction |
| Motion.NearestFromSpec | RouteBase.cpp:353-372 | the element scan returns the closest other occupant in the window strictly closer than the search distance, never the querying aircraft |
| Motion.NearestFromHit | RouteBase.cpp:353-372 | a reported aircraft is a candidate at its own distance, no farther than the best so far |
| Motion.NearestFromLeast | RouteBase.cpp:353-372 | the reported aircraft is at least as close as every candidate, and when none is reported no candidate is closer |
| Motion.ClosestFrom | RouteBase.cpp:328-388 | the scan from element i on keeps the arena's size |
| Motion.ClosestFromSpec | RouteBase.cpp:328-388 | the aircraft found is never the querying one, is an occupant, and returns a search distance strictly below the one given; with none found the distance is kept |
| Motion.Walk | RouteBase.cpp:328-347 | the elements the scans visit, in the arena they see after default insertion: each in the arena, the first at the starting element with the starting accumulated distance, which no later element's falls below |
| Motion.ClosestFromFirst | RouteBase.cpp:328-388 | along the walk, the first element with a candidate in its window decides: the aircraft found is such a candidate, no candidate there is closer, and the search distance becomes its distance from the entry point plus what was accumulated before that element; with no candidate on any element nothing is found and the distance is kept |
| Motion.ClosestFromGrows | RouteBase.cpp:347 | the aircraft scan changes nothing but default-inserted connection records |
| Motion.NearestHoldFromSpec | RouteBase.cpp:419-433 | a hold is found exactly when one lies in the window, at least as close as every other there, with its type and distance |
| Motion.HoldFrom | RouteBase.cpp:398-446 | the hold scan keeps the arena's size |
| Motion.HoldFromSpec | RouteBase.cpp:434-445 | the distance is never below what was accumulated; NotSet comes out of typed holds only with distance 0; with the itinerary used up it returns the accumulated distance and resets the type only at 0; the outcome along the whole itinerary is `Motion.HoldFromFirst` |
| Motion.HoldFromFirst | RouteBase.cpp:398-446 | along the walk, the first element with a hold point in its window decides: the distance is what was accumulated before it plus the distance to the closest hold there, with that hold's type; with no hold in any window, the distance is everything the walk covers, and the type is NotSet exactly when that is 0 or it was NotSet |
| Motion.HoldFromGrows | RouteBase.cpp:414 | the hold scan changes nothing but default-inserted connection records |
| Motion.GrowsKeepsLookups | RouteBase.h:228-230 | a lookup reads the same record before and after records were added |
| Aircrafts.SizeOf | Aircraft.cpp:48-58 | size 1 exactly when both dimensions are at most 25; at most 2 exactly when both are at most 45; 3 otherwise |
| Aircrafts.SizeMonotone | Aircraft.cpp:48-58 | a bigger aircraft never gets a smaller size class |
| Aircrafts.MaxTimeAtGate | Aircraft.cpp:48-58 | 120, 240 or 360 seconds for sizes 1, 2, 3 |
| Aircrafts.AccelerationNeverOvershoots | Aircraft.cpp:114-120 | the new speed lies between the speed and the target; the result is in (0, max] when speeding up and [min, 0] otherwise; a target within reach is hit exactly |
| Aircrafts.Travelled | State.cpp:156-158 | the distance of a trapezoidal step: the mean of the old and new speeds times dt |
| Aircrafts.TravelledBetweenSpeeds | State.cpp:156-158 | the distance lies between what the old and the new speeds would cover in the step |
| Aircrafts.BrakingDistanceSpec | Aircraft.cpp:135 | braking needs a non-negative distance that satisfies v1^2 = v0^2 + 2ad, and 0 when no speed is lost |
| Aircrafts.GetTaxiRoutesString | Aircraft.cpp:90-100 | the itinerary joined with ">" and no trailing ">"; an empty itinerary gives "" |
| Aircrafts.TerminatedJoined | Aircraft.cpp:90-100 | writing every name with a ">" after it is the join plus one ">" |
| Aircrafts.JoinedAppend | Aircraft.cpp:90-100 | joining one more name appends ">" and the name |
| Aircrafts.SplitJoined | Aircraft.cpp:90-100 | splitting the text at ">" gives the itinerary back when no name contains ">" |
| Aircrafts.Relocated | Aircraft.cpp:102-112 | the arena after the move keeps its size |
| Aircrafts.RelocatedOnlyOn | Aircraft.cpp:102-112 | an aircraft on exactly its old element (or on none) is afterwards on exactly the new one, and nothing else of the arena changes |
| Aircrafts.Aircraft.SetGroundRoute | Aircraft.cpp:102-112 | the aircraft leaves its old element and joins the new one; element, direction, distance and target speed are set; the name is recorded unless already recorded |
| Aircrafts.Aircraft.constructor | Aircraft.cpp:5-59 | a new aircraft is off the network and inactive, with no requests or clearances, size class and gate time from its dimensions, and hold distance -1 with type NotSet |
| Aircrafts.Aircraft.SetSpeed | Aircraft.cpp:61 | the speed is set |
| Aircrafts.Aircraft.PushBackClearanceReceived | Aircraft.cpp:67 | the push-back clearance flag is set |
| Aircrafts.Aircraft.SetTaxiRoutes | Aircraft.cpp:89 | the itinerary is set |
| Aircrafts.Aircraft.SetLandingRunwayInfo | Aircraft.cpp:213-215 | the landing runway direction is set |
| Aircrafts.Aircraft.SetLandingRunwayString | Aircraft.cpp:221-223 | the landing runway text is set |
| Aircrafts.Aircraft.Activate | Aircraft.cpp:225-227 | active becomes true and nothing else changes |
| Aircrafts.Aircraft.Deactivate | Aircraft.cpp:229-231 | active becomes false and nothing else changes |
| Aircrafts.Aircraft.Delete | Aircraft.cpp:237-239 | can-be-deleted becomes true and nothing else changes |
| Aircrafts.Aircraft.ComputeDistanceToBreak | Aircraft.cpp:122-152 | the braking point is stored as written: -1 with no itinerary or when the next element is faster; on the last leg the distance to brake to a stop keeps the sign of the deceleration; on every other leg it is the intended braking point |
| Aircrafts.Aircraft.AsWrittenBreaksPastEnd | Aircraft.cpp:141-149 | on the last leg the stored point lies past the far end (by v^2 forwards, before 0 backwards), where the intended point lies v^2 short of it |
| Aircrafts.Aircraft.BreakPointSpec | Aircraft.cpp:122-152 | intended behaviour: braking from the braking point at the soft deceleration brings the current limit down to the next element's limit (to 0 on the last leg) by the far end |
| States.TouchesDownAfter | State.cpp:20-29 | with dt > 0 the countdown ends: once the steps cover 120 s, the update touches down |
| States.InitialState.constructor | State.cpp:8-12 | the timer starts at 0 |
| States.InitialState.Entry | State.cpp:14-18 | the gate is requested and the state stays Initial |
| States.InitialState.Update | State.cpp:20-29 | while the timer is below 120, "Initial" and the timer grows by dt; otherwise "TouchDown" |
| States.Land | State.cpp:38-41 | the aircraft is put on its landing runway at the second touch-down distance, activated, and given the touch-down speed |
| States.FewestAssigned | State.cpp:44-58 | the running minimum from INT_MAX picks the lowest index with strictly the fewest assignees |
| States.GateCounts | State.cpp:44-58 | the number of assignees of each listed gate |
| States.ChooseGate | State.cpp:44-58 | a gate of the aircraft's size is chosen exactly when there is one: the lowest-index gate with the fewest assignees, which gains the aircraft and is the only change to the arena; with none the arena and the gate name are unchanged |
| States.LandAtGate | State.cpp:37-58 | the aircraft lands, moving from its old element to the runway, and one without a gate is given one in the arena it landed in; otherwise the arena is the landed one |
| States.GateUnlessAssigned | State.cpp:44-58 | only an aircraft without a gate is assigned one; otherwise the arena and the gate name are unchanged |
| States.RouteTo | Airport.cpp:684-695 | the itinerary between the two positions exactly when the search can be done, otherwise undefined |
| States.TaxiToGate | State.cpp:59-65 | the itinerary to the gate is stored exactly when it can be searched; otherwise the itinerary is kept |
| States.TouchDownEntry | State.cpp:37-67 | the aircraft lands, is given a gate and gets the route to it; the arena is the landed one plus the gate assignment, or unchanged without usable landing data; the next state is always MaintainSpeed |
| States.Accelerate | State.cpp:156-158 | the acceleration is stored, the speed changes by a*dt, and the trapezoidal distance is returned |
| States.Move | State.cpp:168 | the position after `ComputePosition` is stored, defined exactly when the aircraft is on an element |
| States.SetPosition | State.cpp:168 | the aircraft's element, distance, direction and itinerary are those of the position |
| States.Rescan | State.cpp:92-97 | the hold distance and type are those of `GetDistanceToNextHold` from where the aircraft is |
| States.Reached | State.cpp:92-97 | the scan runs again once the hold distance is 0 or less, and changes nothing otherwise |
| States.Positions | State.cpp:109-112 | the other aircraft at their traffic distances, and the querying one at its own distance |
| States.PositionsPlaced | State.cpp:109-112 | every occupant of the arena has a position |
| States.Leading | State.cpp:107-112 | nothing when the scan would dereference a missing element; otherwise the speed of the closest aircraft in the way, if any, which is another occupant of the arena |
| States.LookAhead | State.cpp:107-112 | the leading speed found is that of `Leading` on the arena before the scan |
| States.TargetSpeed | State.cpp:124-141 | 0 under a manual hold; otherwise at most the current limit and any leading speed, lowered to the next limit when close to the break-out |
| States.CruiseNeverOvershoots | State.cpp:143-153 | a MaintainSpeed step never overshoots its target |
| States.Pace | State.cpp:143-158 | the step toward the target, with the acceleration the clamp chooses, never overshoots |
| States.CountDown | State.cpp:159-165 | the hold distance drops by the distance covered, and is scanned again once half a length past the hold |
| States.Drive | State.cpp:143-165 | a step toward the target with the hold countdown; position unchanged |
| States.HoldVerdict | State.cpp:198-218 | without take-off clearance: Stop on the last leg within braking distance of the end; Hold at a take-off hold; a traffic hold sets the manual hold and resets the type |
| States.StopDistanceStops | State.cpp:199 | the braking distance of the soft deceleration brings the speed to zero |
| States.MaintainSpeedState.constructor | State.cpp:69-73 | no current or next element yet |
| States.MaintainSpeedState.FollowItinerary | State.cpp:85-91 | the next element and its limit come from the record for the second name, or none with limit 0 when one name is left; the arena changes only by that record being default-inserted (`AfterFollow`) |
| States.MaintainSpeedState.Entry | State.cpp:75-102 | empty itinerary: TakeOff when cleared to line up and take off, IdleState otherwise; else the current and next elements are remembered, and when the hold distance is not positive the hold distance and type become those of `GetDistanceToNextHold` over the arena with the next record inserted, defined exactly when the next element is in the arena and the scan completes |
| States.MaintainSpeedState.Remember | State.cpp:83-91 | the current element and its limit are remembered and the next one is looked up; the arena gains only the looked-up record, and the result is defined exactly when that record leads to an element of the arena (`Followable`) |
| States.MaintainSpeedState.CloseToNext | State.cpp:125-130 | close exactly when within brake-ahead distance of the break-out toward the next element |
| States.MaintainSpeedState.Track | State.cpp:181-194 | a new element becomes the current one, becomes the gate when it is a gate and the aircraft has none, and the next element is looked up |
| States.MaintainSpeedState.Sense | State.cpp:107-130 | the leading speed and the closeness are those of the arena before the update |
| States.MaintainSpeedState.Steer | State.cpp:104-165 | the target is `TargetSpeed` of what was sensed, the acceleration is the clamp's choice, and the speed moves toward the target |
| States.MaintainSpeedState.Conclude | State.cpp:181-218 | the current element is followed and the next state is the hold verdict's |
| States.MaintainSpeedState.AfterMove | State.cpp:175-218 | itinerary used up: TakeOff when cleared for take-off, IdleState otherwise; else the verdict of `Conclude` |
| States.MaintainSpeedState.Finish | State.cpp:168-218 | the aircraft moves; with no itinerary left the next state is TakeOff when cleared, IdleState otherwise; else the next state, the manual-hold flag and the next hold type are those of `HoldVerdict` at the new position |
| States.MaintainSpeedState.Update | State.cpp:104-221 | the next state is one of MaintainSpeed, TakeOff, IdleState, Stop or Hold; the target comes from what was sensed and the speed moves toward it; when defined, an empty itinerary leads to TakeOff when cleared and IdleState otherwise, and any other outcome, with the manual-hold flag and hold type, is `HoldVerdict`'s after the move |
| Departure.Roll | State.cpp:237-262 | a step at acceleration a, followed by the move over the distance covered |
| Departure.BrakingRun | State.cpp:237-262 | after n+1 braking updates the state is IdleState or Stop |
| Departure.BrakingEndsIdle | State.cpp:237-262 | braking ends: once the speed drops below zero the aircraft is idle |
| Departure.BrakingStopsUntilZero | State.cpp:237-262 | the aircraft never goes idle while its speed stays non-negative |
| Departure.StopUpdate | State.cpp:237-262 | soft deceleration; below zero speed it goes idle without moving, otherwise it moves and keeps stopping |
| Departure.StopExit | State.cpp:264-268 | speed and acceleration 0 and the itinerary emptied |
| Departure.IdleNext | State.cpp:282-304 | RequestRunway exactly on a timeout; MaintainSpeed or TakeOff exactly on the matching clearances; IdleState otherwise |
| Departure.GateTimeAfter | State.cpp:282-304 | the time at the gate never drops |
| Departure.GateTimeGrows | State.cpp:282-304 | the timer grows by dt per update, so waiting at the gate ends |
| Departure.IdleState.constructor | State.cpp:270-274 | the timer starts at 0 |
| Departure.IdleState.Entry | State.cpp:276-280 | the aircraft stands still |
| Departure.IdleState.Update | State.cpp:282-304 | the timer runs only at a gate with no runway requested, and passing the gate time asks for a runway |
| Departure.IdleState.Exit | State.cpp:306-308 | the timer is reset to 0 |
| Departure.RequestRunwayEntry | State.cpp:316-323 | the runway request is sent and no runway is assigned yet |
| Departure.Await | State.cpp:325-350 | moves on exactly when the answer has come, and waits otherwise |
| Departure.RequestRunwayUpdate | State.cpp:325-330 | RequestPushBack once a runway is assigned |
| Departure.RequestPushBackEntry | State.cpp:338-343 | the push-back request is sent and no clearance is held yet |
| Departure.RequestPushBackUpdate | State.cpp:345-350 | PushBack once cleared |
| Departure.RequestsWaitFirst | State.cpp:316-350 | right after a request is sent, the state waits |
| Departure.PushBackOf | RouteBase.cpp:872-874 | the gate's push-back element for the runway is in the arena |
| Departure.PickFirst | State.cpp:408-414 | some next piece of the push-back element that breaks out at its far end (or at its start, when that is the gate); undefined when there is none |
| Departure.PushBackState.constructor | State.cpp:352-355 | the push-back speed starts at 0 |
| Departure.PushBackState.Entry | State.cpp:357-367 | the itinerary becomes the gate and its push-back element, the aircraft turns around, and the speed is the gate's limit; defined exactly when the push-back element is known |
| Departure.PushBackState.Update | State.cpp:369-398 | the speed moves toward the push-back speed without overshooting, the aircraft moves, and taxiing starts once the itinerary is used up |
| Departure.PushBackState.Exit | State.cpp:399-430 | defined only when the gate has a push-back element for the runway and the aircraft stands on an element; then the gate's assignees lose the aircraft's first entry, and the itinerary joins the segment the aircraft now stands on to that of the line-up point of its take-off runway, which the matrix can reach |
| Departure.TaxiOut | State.cpp:405-430 | after the gate is freed the gate record is left as it is, and when defined the itinerary joins the element the aircraft now stands on to the line-up point of its take-off runway |
| Departure.EnterTaxiway | State.cpp:414-420 | the record toward the first taxi element is default-inserted; defined exactly when its next piece is in the arena, and then the aircraft is moved there (`Relocated`) at the break-in distance facing away from the entering direction, with that element's speed limit as target and its name recorded if new; otherwise only the record was inserted; gate records are untouched |
| Departure.TaxiToHold | State.cpp:426-429 | the itinerary to the line-up point is stored exactly when it can be searched; otherwise the itinerary is kept |
| Departure.TakeOffEntry | State.cpp:438-444 | the current element's name and the runway name without its first character are appended to the itinerary |
| Departure.SpeedReachesTarget | State.cpp:446-472 | speeding up reaches the target exactly and stays there |
| Departure.TakeOffUpdate | State.cpp:446-472 | maximum acceleration toward 170 kt without overshooting; Leaving exactly once the speed reaches it |
| Departure.HoldEntry | State.cpp:480-489 | at a take-off hold: take-off requested, soft braking, hold used up; any other hold changes nothing |
| Departure.HoldNext | State.cpp:491-513 | MaintainSpeed exactly when cleared to line up; else TakeOff exactly when cleared for take-off; else Hold |
| Departure.HoldUpdate | State.cpp:491-513 | the acceleration is kept and the hold distance counted down; below zero speed it goes idle without moving |
| Departure.LeavingEntry | State.cpp:525-530 | the aircraft is deactivated and marked for deletion |
| StateMachines.NamesDistinct | StateMachine.cpp:11-33 | the eleven state names are distinct |
| StateMachines.StateIdOf | StateMachine.cpp:23-33 | a known name maps to its position in construction order; an unknown name maps to 0 |
| StateMachines.StateIdOfName | StateMachine.cpp:23-33 | looking up the name of an id gives the id back |
| StateMachines.OutcomesKnown | StateMachine.cpp:23-33 | every name a state returns is a registered name |
| StateMachines.Rank | StateMachine.cpp:52-62 | at most two further entries can chain |
| StateMachines.EntriesDescend | StateMachine.cpp:57-61 | an entry that names another state names one of lower rank, so a transition runs at most three entries |
| StateMachines.LeavingFinal | State.cpp:521-530 | Leaving is final |
| StateMachines.Lifecycle | StateMachine.cpp:43-62 | the arrival-to-departure sequence is allowed by the states' outcomes |
| StateMachines.StateMachine.constructor | StateMachine.cpp:5-37 | the current state is Initial (id 0) and its entry has requested a gate |
| StateMachines.StateMachine.ExitState | State.cpp:264-430 | the current state's exit runs and the machine stays well formed |
| StateMachines.StateMachine.EntryState | StateMachine.cpp:57-61 | the current state's entry returns one of its entry outcomes |
| StateMachines.StateMachine.EntryLanding | StateMachine.cpp:57-61 | the TouchDown or MaintainSpeed entry returns one of its entry outcomes |
| StateMachines.StateMachine.UpdateState | StateMachine.cpp:43-49 | the current state's update returns one of its update outcomes |
| StateMachines.StateMachine.UpdateRolling | StateMachine.cpp:43-49 | the update of Stop, PushBack, TakeOff or Hold returns one of its outcomes |
| StateMachines.StateMachine.TransitToState | StateMachine.cpp:52-62 | exit, then entry, re-transiting while the entry names another state; the machine settles in a state reachable from the named one |
| StateMachines.StateMachine.Update | StateMachine.cpp:43-49 | the state is unchanged, or it settles after a transition named by an update outcome |
| Utils.ToSfmlPositionInvolutive | Utils.h:7-9 | only y is negated, and flipping twice gives the point back |
| Utils.ToSfmlRotationInvolutive | Utils.h:11-13 | the rotation is negated, and negating twice gives it back |
| Utils.KnotsConversionMonotone | Utils.h:15 | the conversion is strictly increasing, maps 0 to 0, and gives fewer m/s than knots |
| Utils.SplitSeconds | Utils.h:18-26 | second < 60, minute < 60, hour < 24 and day < 365, and the fields recompose to the truncated seconds |
| Utils.NatToStringDigits | Utils.h:28-31 | the text of a number is non-empty and made of digits |
| Utils.NatToStringInjective | Utils.h:28-31 | different numbers are written differently |
| Utils.ZeroPadTwoDigits | Utils.h:28-31 | a field in 0..99 is written with exactly two digits and reads back as itself |
| Utils.ClockTextRoundTrip | Utils.h:17-32 | the text ends in a line break and "HH:MM:SS", whose fields read back as the hours, minutes and seconds |

## Left out

- Geometry and drawing:
  - the point sampling of the element constructors, display details, rotation and break-out positions;
  - all drawing and text setup;
  - the sprite position and rotation calls inside the states.
  These are trigonometry over floating-point arrays.
- The hard-coded airport layout of the `Airport` constructor is not transcribed. Its lengths come from cos/sin/tan.
- The render loop, event polling, widgets, banners and panels are left out. The controller's clearance callbacks appear only as aircraft flags that the environment sets.
- `Aircraft::Intersect` (a square root), texture loading and `select_randomly` (randomness) are left out.
- All logging is left out.
- Floating point:
  - distances and speeds are exact reals;
  - float equality tests become real equality;
  - `INT_MAX` is the `Infinite` weight;
  - integers are unbounded, except that the truncating casts of the clock text and of the runway numbering are written out.
- `Airport::ComputeRouteTo` is an empty stub.
- `StateMachines.StateIdOf`: an unknown name reads as 0 but is not inserted into the table. `StateMachines.OutcomesKnown` shows no unknown name ever reaches it.
- TouchDown's update and exit, and the MaintainSpeed exit, are the inherited defaults or panel-only calls. The machine models them as returning the state's own name or doing nothing.
- `Departure.PickFirst`: the simulator takes the last element of a hash-map scan. Its iteration order is unspecified, so the model promises only some next piece that passes the filter.
- `Departure.PushBackState.Exit` does not say which element the aircraft ends up on, because `Departure.PickFirst` may choose any of several. Once that element is known, `Departure.EnterTaxiway` states the position.
- `States.MaintainSpeedState.Update`: the position after the move is stated by `States.Move` and `Motion.Advance`, not repeated here.
- `States.MaintainSpeedState.Update`, `States.Drive`, `States.Pace`, `Departure.PushBackState.Update`, `Departure.TakeOffUpdate`: the updates that move at a set acceleration require dt > 0. The simulator always passes a positive frame time.
- `StateMachines.StateMachine.ExitState`: states only that the machine stays well formed. What each exit does is stated by the per-state exit members.
- `Airports.Airport.Dijkstra` requires src != dst and a reachable destination. Otherwise the simulator reads `from[-1]`, which is undefined behaviour. `States.RouteTo` and `Departure.TaxiToHold` return `defined == false` in those cases.
- `States.ChooseGate`: with no gate of the aircraft's size the simulator reads past the end of an empty list. The model returns `defined == false` there.
- `Motion.NearestFrom`, `Motion.ClosestFrom`: the occupancy of an element is an `unordered_set` (RouteBase.h:325), modelled as a sequence. The comparison is a strict `<` (RouteBase.cpp:355-365), so on a tie the model reports the first occupant in sequence order, where the simulator reports whichever the hash order visits first.
- `Segments.InsertSorted` is a stable insertion, so breakpoints at equal distances keep the order in which they were added. The simulator's `std::sort` (RouteBase.cpp:90) is not stable and may order them either way.
- The members below require the condition under which the simulator's code is defined, and do not return `defined == false`. Where a member is proved against a specification function, that function returns `None` or a broken leg in the excluded cases:
  - `Airports.Airport.BuildConnectionMatrix` requires that every connection of the layout is found (`PopulateAll` is `Some`).
  - `Airports.Airport.LinkSegments` requires the same of the sliced arena.
  - `Airports.Airport.PopulateAllConnections` requires that `PopulateAll` is `Some`.
  - `Airports.Airport.PopulateIntraRouteConnection` requires that `PopulateFrom` is `Some`.
  - `Airports.Airport.ComputePosition` requires that `Motion.Advance` is `Some`, so that the walk never reads through a missing next piece.
  - `Airports.TakeLeg` requires that the leg given by `LegOf` is not broken.
  - `Airports.Airport.ClosestAircraftInWay` requires that `Motion.ClosestAircraftInWay` is `Some`.
  - `Airports.Airport.GetDistanceToNextHold` requires that `Motion.GetDistanceToNextHold` is `Some`.
  - `Aircrafts.Aircraft.ComputeDistanceToBreak` requires that the connection record toward the next element exists and has a next piece.
- `States.Leading` returns nothing where the scan would read a next piece through a null reference. The methods that do such a read return `defined == false` there.

Where the code does not do what its own comments say, the model follows the code:
- The comments at RouteBase.cpp:46 and RouteBase.h:320 say the negative-direction hold list is sorted descending. `AddHoldPoint` sorts only the positive-direction list, so the negative-direction list keeps insertion order; the positive-direction list is sorted as written (see "## Findings").

Ties are broken as the code breaks them: `FindIndexOfMinimumValue` (Airport.cpp:606-617) compares with `<=`, so among equal distances the highest unvisited index wins.

## Findings

| source | as written | input that shows it | evidently intended | confidence | as-written member | corrected member |
|---|---|---|---|---|---|---|
| RouteBase.cpp:52 | the inner loop of the selection sort in `AddHoldPoint` starts at `j = i + i` | positive-direction hold points at distances 2, 3, 4, then one at 1 is added: the list becomes 1, 2, 4, 3 | `j = i + 1`, so that the list is sorted by distance, as the comment at RouteBase.h:320 says | not executed | HoldPoints.AsWrittenLeavesListUnsorted | HoldPoints.AddHoldPoint |
| Aircraft.cpp:145 | on the last leg the braking distance is `v*v/2/decel` with a negative deceleration, so it is negative and the point is placed past the far end | a last leg of length 100 taken forwards at a limit of 10: the point is 200, not 0 | `-v*v/2/decel`, from v_2^2 - v_1^2 = 2*a*s in the comment at Aircraft.cpp:125 | not executed | Aircrafts.Aircraft.AsWrittenBreaksPastEnd | Aircrafts.Aircraft.BreakPointSpec |
