/** Loading a flight-date: its segments are routed over its legs, linked with
    them, opened up to their capacity and nested by yield.  What comes out is what
    every reservation and optimisation starts from. */
module Loading {
  import opened NestedControls
  import opened Pools
  import opened Bom
  import opened FlightRuns
  import opened GuardedSales
  import opened LegLoads
  import opened FlightDateHelper
  import opened Routing
  import DirectAccesses
  import SegmentCabinHelper
  import YieldNesting

  // ---------------------------------------------------------------- the routes

  /** The legs of a segment, as positions along the airports. */
  ghost function RouteOf(airports: seq<string>, x: Segment): (r: Route)
    requires LinksAfter(airports, 0, x)
    ensures Links(airports, r.first, r.last, x)
  {
    var i, j :| Links(airports, i, j, x);
    Route(i, j)
  }

  /** The routes of all segments of the airports. */
  ghost function Routes(airports: seq<string>): (rs: seq<Route>)
    ensures |rs| == |SegmentsAfter(airports, 0)|
    ensures forall s :: 0 <= s < |rs| ==> Links(airports, rs[s].first, rs[s].last, SegmentsAfter(airports, 0)[s])
  {
    var xs := SegmentsAfter(airports, 0);
    assert forall s :: 0 <= s < |xs| ==> LinksAfter(airports, 0, xs[s]) by {
      forall s | 0 <= s < |xs| {
        SegmentsAre(airports, 0, xs[s]);
      }
    }
    seq(|xs|, s requires 0 <= s < |xs| => RouteOf(airports, xs[s]))
  }

  ghost predicate WalkCollects(legs: map<string, ScheduledLeg>, x: Segment, maxLegs: nat, keys: seq<string>) {
    WalkFrom(legs, x.boardingPoint, x.offPoint, [], 1, maxLegs) == Collected(keys)
  }

  /** The walk of a segment meets neither of its failures. */
  ghost predicate Collectable(legs: map<string, ScheduledLeg>, x: Segment, maxLegs: nat) {
    exists keys :: WalkCollects(legs, x, maxLegs, keys)
  }

  /** Collects the routing keys of every segment. */
  method RouteAll(legs: map<string, ScheduledLeg>, segments: seq<Segment>, maxLegs: nat)
      returns (done: bool, keys: seq<seq<string>>)
    ensures done <==> forall s :: 0 <= s < |segments| ==> Collectable(legs, segments[s], maxLegs)
    ensures done ==> |keys| == |segments|
    ensures done ==> forall s :: 0 <= s < |segments| ==> WalkCollects(legs, segments[s], maxLegs, keys[s])
  {
    keys := [];
    for s := 0 to |segments|
      invariant |keys| == s
      invariant forall t :: 0 <= t < s ==> WalkCollects(legs, segments[t], maxLegs, keys[t])
    {
      var w := RoutingLegKeys(legs, segments[s], maxLegs);
      if !w.Collected? {
        assert !Collectable(legs, segments[s], maxLegs);
        return false, keys;
      }
      keys := keys + [w.keys];
    }
    done := true;
  }

  /** The walk of a segment collects the keys of its route, exactly when its legs
      are fewer than the maximum. */
  lemma WalkOfRoute(legs: map<string, ScheduledLeg>, airports: seq<string>, x: Segment, r: Route, maxLegs: nat)
    requires DifferentAirports(airports) && FliesAlong(legs, airports) && Links(airports, r.first, r.last, x)
    ensures Collectable(legs, x, maxLegs) <==> r.last - r.first < maxLegs
    ensures Collectable(legs, x, maxLegs) ==> WalkCollects(legs, x, maxLegs, airports[r.first..r.last])
  {
    RoutingIsTheLegsBetween(legs, airports, r.first, r.last, maxLegs);
    if r.last - r.first < maxLegs {
      assert WalkCollects(legs, x, maxLegs, airports[r.first..r.last]);
    }
  }

  /** Legs that board along the airports, one between each airport and the next. */
  ghost predicate BoardAlong(legs: seq<LegCabin>, airports: seq<string>) {
    && |airports| == |legs| + 1
    && forall l :: 0 <= l < |legs| ==> legs[l].boardingPoint == airports[l]
  }

  lemma BoardingsAlong(legs: seq<LegCabin>, airports: seq<string>)
    requires BoardAlong(legs, airports) && DifferentAirports(airports)
    ensures DirectAccesses.Boardings(legs) == airports[..|legs|]
    ensures DirectAccesses.DifferentBoardings(legs)
    ensures forall i, j :: 0 <= i < j < |legs| ==> legs[i] != legs[j]
  {
    forall i, j | 0 <= i < j < |legs|
      ensures legs[i] != legs[j]
    {
      assert airports[i] != airports[j];
    }
  }

  /** A segment-cabin linked by its routing keys runs over the legs of its route. */
  lemma LinkedAlong(legs: seq<LegCabin>, airports: seq<string>, segment: SegmentCabin, keys: seq<string>, r: Route)
    requires BoardAlong(legs, airports) && DifferentAirports(airports)
    requires r.first < r.last < |airports| && keys == airports[r.first..r.last]
    requires segment.legCabins == DirectAccesses.LegsWith(legs, keys)
    ensures Routed(legs, segment, r)
  {
    BoardingsAlong(legs, airports);
    assert airports[r.first..r.last] == airports[..|legs|][r.first..r.last];
    DirectAccesses.LinkedIsRouted(legs, segment, keys, r);
  }

  // --------------------------------------------------------------- the controls

  /** The classes a segment-cabin is created with: at least one, all different
      and its own, with no controls or counters yet. */
  ghost predicate NewClasses(segment: SegmentCabin)
    reads segment`classes, segment.classes
  {
    && segment.classes != [] && YieldNesting.NoClassTwice(segment.classes)
    && forall m :: 0 <= m < |segment.classes| ==>
         && segment.classes[m].segmentCabin == segment
         && segment.classes[m].View() == ClassControl(0.0, 0.0, segment.classes[m].authorization, 0.0, 0.0)
  }

  ghost function AllListed(segments: seq<SegmentCabin>): set<BookingClass>
    reads segments`classes
  {
    set s, m | 0 <= s < |segments| && 0 <= m < |segments[s].classes| :: segments[s].classes[m]
  }

  ghost predicate AllNew(segments: seq<SegmentCabin>)
    reads segments`classes, AllListed(segments)
  {
    && (forall s, t :: 0 <= s < t < |segments| ==> segments[s] != segments[t])
    && (forall s :: 0 <= s < |segments| ==> NewClasses(segments[s]))
  }

  /** The segment-cabin is opened up to the least capacity of its legs. */
  ghost predicate OpenedUp(segment: SegmentCabin, maxCapacity: real)
    reads segment`availabilityPool, segment`classes, segment`legCabins
    reads segment.classes, segment.legCabins
  {
    && segment.availabilityPool == Least(SegmentCabinHelper.Capacities(segment.legCabins), maxCapacity)
    && forall m :: 0 <= m < |segment.classes| ==> segment.classes[m].authorization == segment.availabilityPool
  }

  ghost function AllRoutedOver(segments: seq<SegmentCabin>): set<LegCabin>
    reads segments`legCabins
  {
    set s, l | 0 <= s < |segments| && 0 <= l < |segments[s].legCabins| :: segments[s].legCabins[l]
  }

  ghost predicate AllOpened(segments: seq<SegmentCabin>, maxCapacity: real)
    reads segments`availabilityPool, segments`classes, segments`legCabins
    reads AllListed(segments), AllRoutedOver(segments)
  {
    forall s :: 0 <= s < |segments| ==> OpenedUp(segments[s], maxCapacity)
  }

  /** Opening segment-cabin s leaves those before it open. */
  method OpenNext(segments: seq<SegmentCabin>, s: nat, maxCapacity: real)
    requires s < |segments| && AllNew(segments)
    requires forall t :: 0 <= t < s ==> OpenedUp(segments[t], maxCapacity)
    modifies {segments[s]}`capacity, {segments[s]}`availabilityPool, segments[s].classes`authorization
    ensures AllNew(segments)
    ensures forall t :: 0 <= t <= s ==> OpenedUp(segments[t], maxCapacity)
  {
    SegmentCabinHelper.InitialiseAU(segments[s], maxCapacity);
    forall t | 0 <= t < |segments|
      ensures NewClasses(segments[t])
    {
      assert old(NewClasses(segments[t]));
    }
    forall t | 0 <= t <= s
      ensures OpenedUp(segments[t], maxCapacity)
    {
      assert SegmentCabinHelper.Capacities(segments[t].legCabins)
          == old(SegmentCabinHelper.Capacities(segments[t].legCabins));
      if t < s {
        assert old(NewClasses(segments[s])) && old(NewClasses(segments[t]));
        assert old(OpenedUp(segments[t], maxCapacity));
      }
    }
  }

  /** Opens every segment-cabin. */
  method OpenAll(segments: seq<SegmentCabin>, maxCapacity: real)
    requires AllNew(segments)
    modifies segments`capacity, segments`availabilityPool, AllListed(segments)`authorization
    ensures AllNew(segments) && AllOpened(segments, maxCapacity)
  {
    for s := 0 to |segments|
      invariant AllNew(segments)
      invariant forall t :: 0 <= t < s ==> OpenedUp(segments[t], maxCapacity)
    {
      OpenNext(segments, s, maxCapacity);
    }
  }

  /** The nesting of a segment-cabin groups its classes by yield. */
  ghost predicate NestedByYield(segment: SegmentCabin)
    reads segment`nodes, segment`classes, segment.nodes, segment.classes
  {
    YieldNesting.Grouped(YieldNesting.Groups(segment.nodes), YieldNesting.Entries(segment.classes))
  }

  /** Nesting segment-cabin s leaves those before it nested. */
  method NestNext(segments: seq<SegmentCabin>, s: nat) returns (done: bool)
    requires s < |segments| && forall t :: 0 <= t < |segments| && t != s ==> segments[t] != segments[s]
    requires forall t :: 0 <= t < s ==> NestedByYield(segments[t])
    modifies {segments[s]}`nodes
    ensures done <==> !YieldNesting.StartsAtMinusOne(segments[s].classes)
    ensures done ==> forall t :: 0 <= t <= s ==> NestedByYield(segments[t])
  {
    done := YieldNesting.InitYieldBasedNestingStructure(segments[s]);
    if done {
      forall t | 0 <= t <= s
        ensures NestedByYield(segments[t])
      {
        assert YieldNesting.Entries(segments[t].classes) == old(YieldNesting.Entries(segments[t].classes));
        if t < s {
          assert old(NestedByYield(segments[t]));
          assert YieldNesting.Groups(segments[t].nodes) == old(YieldNesting.Groups(segments[t].nodes));
        }
      }
    }
  }

  /** Nests every segment-cabin; stops at one whose greatest yield is -1. */
  method NestAll(segments: seq<SegmentCabin>) returns (done: bool)
    requires forall s, t :: 0 <= s < t < |segments| ==> segments[s] != segments[t]
    modifies segments`nodes
    ensures done <==> forall s :: 0 <= s < |segments| ==> !YieldNesting.StartsAtMinusOne(segments[s].classes)
    ensures done ==> forall s :: 0 <= s < |segments| ==> NestedByYield(segments[s])
  {
    for s := 0 to |segments|
      invariant forall t :: 0 <= t < s ==> NestedByYield(segments[t])
      invariant forall t :: 0 <= t < s ==> !YieldNesting.StartsAtMinusOne(segments[t].classes)
    {
      var nested := NestNext(segments, s);
      if !nested {
        return false;
      }
    }
    done := true;
  }

  /** A nesting built from the classes of a segment-cabin is its own, and ready for
      the control updates. */
  lemma NestedOwns(segment: SegmentCabin, level: real)
    requires NestedByYield(segment) && NewClasses(segment)
    requires forall m :: 0 <= m < |segment.classes| ==> segment.classes[m].authorization == level
    ensures Owns(segment) && WellNested(NodesView(segment.nodes)) && UniformAuthorization(NodesView(segment.nodes))
    ensures forall k, m :: 0 <= k < |segment.nodes| && 0 <= m < |segment.nodes[k].classes| ==>
              segment.nodes[k].classes[m].View() == ClassControl(0.0, 0.0, level, 0.0, 0.0)
  {
    YieldNesting.NodesAreReady(segment.nodes, segment.classes, level);
    YieldNesting.NodesPartitionTheClasses(segment.nodes, segment.classes);
    forall k, m | 0 <= k < |segment.nodes| && 0 <= m < |segment.nodes[k].classes|
      ensures segment.nodes[k].classes[m].segmentCabin == segment
      ensures segment.nodes[k].classes[m].View() == ClassControl(0.0, 0.0, level, 0.0, 0.0)
    {
      assert segment.nodes[k].classes[m] in segment.classes;
      var i :| 0 <= i < |segment.classes| && segment.classes[i] == segment.nodes[k].classes[m];
    }
  }

  // -------------------------------------------------------------- whole flights

  /** Nothing is committed on the legs and segment-cabins of a flight-date. */
  ghost predicate AtRest(f: FlightDate)
    reads f, f.legCabins`committedSpace, f.legCabins`availabilityPool, f.legCabins`offeredCapacity
    reads f.segmentCabins`flightDate, f.segmentCabins`committedSpace
  {
    && (forall l :: 0 <= l < |f.legCabins| ==>
        f.legCabins[l].committedSpace == 0.0 && f.legCabins[l].availabilityPool == f.legCabins[l].offeredCapacity)
    && (forall s :: 0 <= s < |f.segmentCabins| ==>
        f.segmentCabins[s].flightDate == f && f.segmentCabins[s].committedSpace == 0.0)
  }

  /** No segment-cabin and no leg-cabin lists another yet. */
  ghost predicate Unlinked(f: FlightDate)
    reads f, f.segmentCabins`legCabins, f.legCabins`segmentCabins
  {
    && (forall l :: 0 <= l < |f.legCabins| ==> f.legCabins[l].segmentCabins == [])
    && (forall s :: 0 <= s < |f.segmentCabins| ==> f.segmentCabins[s].legCabins == [])
  }

  ghost predicate AllRouted(f: FlightDate, routes: seq<Route>)
    reads f, f.segmentCabins`legCabins
  {
    && |routes| == |f.segmentCabins|
    && forall s :: 0 <= s < |f.segmentCabins| ==> Routed(f.legCabins, f.segmentCabins[s], routes[s])
  }

  /** Changes that reach no seat and no parent leave the flight-date at rest. */
  twostate lemma RestKept(f: FlightDate)
    requires old(AtRest(f)) && f.legCabins == old(f.legCabins) && f.segmentCabins == old(f.segmentCabins)
    requires forall l: LegCabin :: old(allocated(l)) ==>
      && l.committedSpace == old(l.committedSpace) && l.availabilityPool == old(l.availabilityPool)
      && l.offeredCapacity == old(l.offeredCapacity)
    requires forall s: SegmentCabin :: old(allocated(s)) ==>
      s.flightDate == old(s.flightDate) && s.committedSpace == old(s.committedSpace)
    ensures AtRest(f)
  {
  }

  /** Changes that reach no class leave new classes new. */
  twostate lemma NewKept(segments: seq<SegmentCabin>)
    requires old(AllNew(segments))
    requires forall s: SegmentCabin :: old(allocated(s)) ==> s.classes == old(s.classes)
    requires forall c: BookingClass :: old(allocated(c)) ==>
      c.View() == old(c.View()) && c.segmentCabin == old(c.segmentCabin)
    ensures AllNew(segments)
  {
    forall s | 0 <= s < |segments|
      ensures NewClasses(segments[s])
    {
      assert old(NewClasses(segments[s]));
    }
  }

  /** Changes that reach no routing, pool, capacity or class keep segment-cabins
      routed and open. */
  twostate lemma RoutedAndOpenKept(f: FlightDate, new routes: seq<Route>, new maxCapacity: real)
    requires old(AllRouted(f, routes)) && old(AllOpened(f.segmentCabins, maxCapacity))
    requires f.legCabins == old(f.legCabins) && f.segmentCabins == old(f.segmentCabins)
    requires forall l: LegCabin :: old(allocated(l)) ==> l.offeredCapacity == old(l.offeredCapacity)
    requires forall s: SegmentCabin :: old(allocated(s)) ==>
      && s.legCabins == old(s.legCabins) && s.classes == old(s.classes)
      && s.availabilityPool == old(s.availabilityPool)
    requires forall c: BookingClass :: old(allocated(c)) ==> c.authorization == old(c.authorization)
    ensures AllRouted(f, routes) && AllOpened(f.segmentCabins, maxCapacity)
  {
    forall s | 0 <= s < |f.segmentCabins|
      ensures Routed(f.legCabins, f.segmentCabins[s], routes[s]) && OpenedUp(f.segmentCabins[s], maxCapacity)
    {
      var segment := f.segmentCabins[s];
      assert old(Routed(f.legCabins, segment, routes[s])) && old(OpenedUp(segment, maxCapacity));
      assert SegmentCabinHelper.Capacities(segment.legCabins)
          == old(SegmentCabinHelper.Capacities(segment.legCabins));
    }
  }

  /** The routes lie along the airports. */
  ghost predicate Along(routes: seq<Route>, airports: seq<string>) {
    forall s :: 0 <= s < |routes| ==> routes[s].first < routes[s].last < |airports|
  }

  /** What the three steps leave on a flight-date is a loaded flight. */
  lemma LoadedShows(f: FlightDate, routes: seq<Route>, maxCapacity: real)
    requires AtRest(f) && AllNew(f.segmentCabins) && AllRouted(f, routes)
    requires forall i, j :: 0 <= i < j < |f.legCabins| ==> f.legCabins[i] != f.legCabins[j]
    requires AllOpened(f.segmentCabins, maxCapacity)
    requires forall s :: 0 <= s < |f.segmentCabins| ==> NestedByYield(f.segmentCabins[s])
    ensures Wired(f, routes) && Loaded(View(f, routes), maxCapacity)
  {
    var v := View(f, routes);
    forall s | 0 <= s < |f.segmentCabins|
      ensures Owns(f.segmentCabins[s])
      ensures v.cabins[s].first < v.cabins[s].last <= |v.legs|
      ensures WellNested(v.cabins[s].nodes) && UniformAuthorization(v.cabins[s].nodes)
      ensures v.cabins[s].committed == 0.0
      ensures v.cabins[s].pool == Least(LegPools(v.legs, v.cabins[s].first, v.cabins[s].last), maxCapacity)
      ensures forall k: nat, m: nat | HasClass(v, s, k, m) ::
                Class(v, s, k, m) == ClassControl(0.0, 0.0, v.cabins[s].pool, 0.0, 0.0)
    {
      var segment := f.segmentCabins[s];
      LoadedCabinShows(f, segment, routes[s], maxCapacity);
      assert v.cabins[s] == CabinView(segment, routes[s]);
      forall k: nat, m: nat | HasClass(v, s, k, m)
        ensures Class(v, s, k, m) == ClassControl(0.0, 0.0, v.cabins[s].pool, 0.0, 0.0)
      {
        assert v.cabins[s].nodes[k] == segment.nodes[k].View();
        assert Class(v, s, k, m) == segment.nodes[k].classes[m].View();
      }
    }
  }

  lemma LoadedCabinShows(f: FlightDate, segment: SegmentCabin, r: Route, maxCapacity: real)
    requires forall l :: 0 <= l < |f.legCabins| ==> f.legCabins[l].availabilityPool == f.legCabins[l].offeredCapacity
    requires Routed(f.legCabins, segment, r) && NewClasses(segment)
    requires OpenedUp(segment, maxCapacity) && NestedByYield(segment)
    ensures Owns(segment) && WellNested(NodesView(segment.nodes)) && UniformAuthorization(NodesView(segment.nodes))
    ensures segment.availabilityPool == Least(LegPools(LegsView(f.legCabins), r.first, r.last), maxCapacity)
    ensures forall k, m :: 0 <= k < |segment.nodes| && 0 <= m < |segment.nodes[k].classes| ==>
              segment.nodes[k].classes[m].View() == ClassControl(0.0, 0.0, segment.availabilityPool, 0.0, 0.0)
  {
    NestedOwns(segment, segment.availabilityPool);
    assert SegmentCabinHelper.Capacities(segment.legCabins) == LegPools(LegsView(f.legCabins), r.first, r.last);
  }

  /** The segment between the first and the last airport has the most legs. */
  lemma LongestSegment(airports: seq<string>)
    requires |airports| >= 2
    ensures exists s :: 0 <= s < |Routes(airports)| &&
              SegmentsAfter(airports, 0)[s] == Segment(airports[0], airports[|airports| - 1])
  {
    var x := Segment(airports[0], airports[|airports| - 1]);
    assert 0 <= 0 && Links(airports, 0, |airports| - 1, x);
    SegmentsAre(airports, 0, x);
    assert x in SegmentsAfter(airports, 0);
  }

  /** Routing succeeds exactly when all legs together are fewer than the maximum,
      and collects the keys of every route. */
  lemma RoutedAlong(legs: map<string, ScheduledLeg>, airports: seq<string>, maxLegs: nat)
    requires DifferentAirports(airports) && FliesAlong(legs, airports) && |airports| >= 2
    ensures |airports| <= maxLegs <==>
      (forall s :: 0 <= s < |SegmentsAfter(airports, 0)| ==> Collectable(legs, SegmentsAfter(airports, 0)[s], maxLegs))
    ensures |airports| <= maxLegs ==>
      forall s :: 0 <= s < |Routes(airports)| ==>
        var r := Routes(airports)[s];
        WalkCollects(legs, SegmentsAfter(airports, 0)[s], maxLegs, airports[r.first..r.last])
  {
    var routes, xs := Routes(airports), SegmentsAfter(airports, 0);
    forall s | 0 <= s < |xs|
      ensures |airports| <= maxLegs ==> Collectable(legs, xs[s], maxLegs)
      ensures |airports| <= maxLegs ==>
        WalkCollects(legs, xs[s], maxLegs, airports[routes[s].first..routes[s].last])
    {
      WalkOfRoute(legs, airports, xs[s], routes[s], maxLegs);
    }
    LongestSegment(airports);
    var s :| 0 <= s < |routes| && xs[s] == Segment(airports[0], airports[|airports| - 1]);
    assert Links(airports, 0, |airports| - 1, xs[s]);
    WalkOfRoute(legs, airports, xs[s], Route(0, |airports| - 1), maxLegs);
  }

  /** Links the segment-cabins of a flight-date with the legs of their keys. */
  method LinkAlong(f: FlightDate, keys: seq<seq<string>>, ghost airports: seq<string>, ghost routes: seq<Route>)
    requires DifferentAirports(airports) && BoardAlong(f.legCabins, airports) && Along(routes, airports)
    requires |keys| == |routes| == |f.segmentCabins|
    requires forall s :: 0 <= s < |routes| ==> keys[s] == airports[routes[s].first..routes[s].last]
    requires AtRest(f) && AllNew(f.segmentCabins) && Unlinked(f)
    modifies f.segmentCabins`legCabins, f.legCabins`segmentCabins
    ensures AtRest(f) && AllNew(f.segmentCabins) && AllRouted(f, routes)
  {
    BoardingsAlong(f.legCabins, airports);
    DirectAccesses.CreateDirectAccesses(f, keys);
    RestKept(f);
    NewKept(f.segmentCabins);
    forall s | 0 <= s < |f.segmentCabins|
      ensures Routed(f.legCabins, f.segmentCabins[s], routes[s])
    {
      LinkedAlong(f.legCabins, airports, f.segmentCabins[s], keys[s], routes[s]);
    }
  }

  /** Collects the keys of the segments of a flight and links by them. */
  method RouteAndLink(f: FlightDate, legs: map<string, ScheduledLeg>, segments: seq<Segment>, maxLegs: nat,
      ghost airports: seq<string>) returns (done: bool)
    requires DifferentAirports(airports) && FliesAlong(legs, airports) && |airports| >= 2
    requires segments == SegmentsAfter(airports, 0) && |f.segmentCabins| == |segments|
    requires BoardAlong(f.legCabins, airports) && AtRest(f) && AllNew(f.segmentCabins) && Unlinked(f)
    modifies f.segmentCabins`legCabins, f.legCabins`segmentCabins
    ensures done <==> |airports| <= maxLegs
    ensures done ==> AtRest(f) && AllNew(f.segmentCabins) && AllRouted(f, Routes(airports))
  {
    var keys;
    done, keys := RouteAll(legs, segments, maxLegs);
    RoutedAlong(legs, airports, maxLegs);
    if done {
      LinkAlong(f, keys, airports, Routes(airports));
    }
  }

  /** No segment-cabin of the flight-date has -1 as its greatest yield. */
  ghost predicate Nestable(f: FlightDate)
    reads f, f.segmentCabins`classes, AllListed(f.segmentCabins)
  {
    forall s :: 0 <= s < |f.segmentCabins| ==> !YieldNesting.StartsAtMinusOne(f.segmentCabins[s].classes)
  }

  twostate lemma NestableKept(f: FlightDate)
    requires f.segmentCabins == old(f.segmentCabins)
    requires forall s :: 0 <= s < |f.segmentCabins| ==> f.segmentCabins[s].classes == old(f.segmentCabins[s].classes)
    requires forall c: BookingClass :: old(allocated(c)) ==> c.yld == old(c.yld)
    ensures Nestable(f) <==> old(Nestable(f))
  {
    forall s | 0 <= s < |f.segmentCabins|
      ensures YieldNesting.StartsAtMinusOne(f.segmentCabins[s].classes)
         <==> old(YieldNesting.StartsAtMinusOne(f.segmentCabins[s].classes))
    {
    }
  }

  /** Opens the segment-cabins of a routed flight-date. */
  method OpenRouted(f: FlightDate, maxCapacity: real, ghost routes: seq<Route>)
    requires AtRest(f) && AllNew(f.segmentCabins) && AllRouted(f, routes)
    modifies f.segmentCabins`capacity, f.segmentCabins`availabilityPool, AllListed(f.segmentCabins)`authorization
    ensures AtRest(f) && AllNew(f.segmentCabins) && AllRouted(f, routes) && AllOpened(f.segmentCabins, maxCapacity)
    ensures Nestable(f) <==> old(Nestable(f))
  {
    OpenAll(f.segmentCabins, maxCapacity);
    RestKept(f);
    NestableKept(f);
    forall s | 0 <= s < |f.segmentCabins|
      ensures Routed(f.legCabins, f.segmentCabins[s], routes[s])
    {
      assert old(Routed(f.legCabins, f.segmentCabins[s], routes[s]));
    }
  }

  /** Nests the segment-cabins of a routed flight-date. */
  method NestRouted(f: FlightDate, ghost routes: seq<Route>, ghost maxCapacity: real) returns (done: bool)
    requires AtRest(f) && AllNew(f.segmentCabins) && AllRouted(f, routes) && AllOpened(f.segmentCabins, maxCapacity)
    requires forall i, j :: 0 <= i < j < |f.legCabins| ==> f.legCabins[i] != f.legCabins[j]
    modifies f.segmentCabins`nodes
    ensures done <==> old(Nestable(f))
    ensures done ==> Wired(f, routes) && Loaded(View(f, routes), maxCapacity)
  {
    done := NestAll(f.segmentCabins);
    if done {
      RestKept(f);
      NewKept(f.segmentCabins);
      RoutedAndOpenKept(f, routes, maxCapacity);
      LoadedShows(f, routes, maxCapacity);
    }
  }

  /** Opens and nests the segment-cabins of a routed flight-date. */
  method OpenAndNest(f: FlightDate, maxCapacity: real, ghost routes: seq<Route>) returns (done: bool)
    requires AtRest(f) && AllNew(f.segmentCabins) && AllRouted(f, routes)
    requires forall i, j :: 0 <= i < j < |f.legCabins| ==> f.legCabins[i] != f.legCabins[j]
    modifies f.segmentCabins`capacity, f.segmentCabins`availabilityPool, f.segmentCabins`nodes
    modifies AllListed(f.segmentCabins)`authorization
    ensures done <==> old(Nestable(f))
    ensures done ==> Wired(f, routes) && Loaded(View(f, routes), maxCapacity)
  {
    OpenRouted(f, maxCapacity, routes);
    done := NestRouted(f, routes, maxCapacity);
  }

  /** The flight goes along the airports, with a segment-cabin for each segment. */
  ghost predicate Spans(v: Flight, airports: seq<string>) {
    && |airports| == |v.legs| + 1 && |v.cabins| == |Routes(airports)|
    && forall s :: 0 <= s < |v.cabins| ==> Route(v.cabins[s].first, v.cabins[s].last) == Routes(airports)[s]
  }

  lemma ViewSpans(f: FlightDate, airports: seq<string>)
    requires BoardAlong(f.legCabins, airports) && |f.segmentCabins| == |Routes(airports)|
    ensures Spans(View(f, Routes(airports)), airports)
  {
    var v := View(f, Routes(airports));
    forall s | 0 <= s < |v.cabins|
      ensures Route(v.cabins[s].first, v.cabins[s].last) == Routes(airports)[s]
    {
      assert v.cabins[s] == CabinView(f.segmentCabins[s], Routes(airports)[s]);
    }
  }

  /** Loads a flight-date.  It succeeds exactly when all its legs together are
      fewer than the maximum and no segment-cabin's greatest yield is -1; the
      flight-date then shows a loaded flight over the routes of its segments. */
  method Load(f: FlightDate, legs: map<string, ScheduledLeg>, segments: seq<Segment>, maxLegs: nat, maxCapacity: real,
      ghost airports: seq<string>) returns (done: bool)
    requires DifferentAirports(airports) && FliesAlong(legs, airports) && |airports| >= 2
    requires segments == SegmentsAfter(airports, 0) && |f.segmentCabins| == |segments|
    requires BoardAlong(f.legCabins, airports) && AtRest(f) && AllNew(f.segmentCabins) && Unlinked(f)
    modifies f.segmentCabins`legCabins, f.legCabins`segmentCabins
    modifies f.segmentCabins`capacity, f.segmentCabins`availabilityPool, f.segmentCabins`nodes
    modifies AllListed(f.segmentCabins)`authorization
    ensures done <==> |airports| <= maxLegs && old(Nestable(f))
    ensures done ==> Wired(f, Routes(airports)) && Loaded(View(f, Routes(airports)), maxCapacity)
    ensures done ==> Spans(View(f, Routes(airports)), airports)
  {
    BoardingsAlong(f.legCabins, airports);
    done := RouteAndLink(f, legs, segments, maxLegs, airports);
    if done {
      NestableKept(f);
      done := OpenAndNest(f, maxCapacity, Routes(airports));
    }
    if done {
      ViewSpans(f, airports);
    }
  }

  /** Loads a flight-date from its schedule: the airports are noted from the legs as
      they are read, the segments built from the airports. */
  method LoadSchedule(f: FlightDate, schedule: seq<ScheduledLeg>, maxLegs: nat, maxCapacity: real) returns (done: bool)
    requires schedule != [] && Chained(schedule) && DifferentAirports(Stops(schedule))
    requires BoardAlong(f.legCabins, Stops(schedule)) && AtRest(f) && AllNew(f.segmentCabins) && Unlinked(f)
    requires |f.segmentCabins| == |SegmentsAfter(Stops(schedule), 0)|
    modifies f.segmentCabins`legCabins, f.legCabins`segmentCabins
    modifies f.segmentCabins`capacity, f.segmentCabins`availabilityPool, f.segmentCabins`nodes
    modifies AllListed(f.segmentCabins)`authorization
    ensures done <==> |schedule| < maxLegs && old(Nestable(f))
    ensures done ==> Wired(f, Routes(Stops(schedule)))
    ensures done ==> Loaded(View(f, Routes(Stops(schedule))), maxCapacity)
    ensures done ==> Spans(View(f, Routes(Stops(schedule))), Stops(schedule))
  {
    var segments := SegmentsOf(schedule);
    ScheduleFliesAlong(schedule);
    done := Load(f, ByBoarding(schedule), segments, maxLegs, maxCapacity, Stops(schedule));
  }

  /** The segments of a schedule without a revisited stop. */
  method SegmentsOf(schedule: seq<ScheduledLeg>) returns (segments: seq<Segment>)
    requires schedule != [] && Chained(schedule) && DifferentAirports(Stops(schedule))
    ensures segments == SegmentsAfter(Stops(schedule), 0)
  {
    var period := new FlightPeriod();
    ReadAirports(period, schedule);
    AirportsAreTheStopsIff(schedule);
    period.BuildSegments();
    segments := period.segmentList;
  }

  // -------------------------------------------------- what loaded flights expose

  /** Some segment-cabin runs over legs i, ..., j - 1. */
  lemma SegmentOver(v: Flight, airports: seq<string>, i: nat, j: nat) returns (s: nat)
    requires Spans(v, airports) && DifferentAirports(airports) && i < j < |airports|
    ensures s < |v.cabins| && v.cabins[s].first == i && v.cabins[s].last == j
  {
    var x := Segment(airports[i], airports[j]);
    assert 0 <= i && Links(airports, i, j, x);
    SegmentsAre(airports, 0, x);
    assert x in SegmentsAfter(airports, 0);
    s :| 0 <= s < |SegmentsAfter(airports, 0)| && SegmentsAfter(airports, 0)[s] == x;
    var r := Routes(airports)[s];
    assert Links(airports, r.first, r.last, x);
    SamePlace(airports, r.first, i);
    SamePlace(airports, r.last, j);
  }

  lemma SamePlace(airports: seq<string>, i: nat, j: nat)
    requires DifferentAirports(airports) && i < |airports| && j < |airports| && airports[i] == airports[j]
    ensures i == j
  {
  }

  /** A pool is at least a bound that its legs and the ceiling reach, and on one leg
      it is that leg's, when the ceiling is not below it. */
  lemma PoolOverLegs(v: Flight, maxCapacity: real, s: nat, bound: real)
    requires Loaded(v, maxCapacity) && s < |v.cabins| && bound <= maxCapacity
    requires forall l :: 0 <= l < |v.legs| ==> bound <= v.legs[l].capacity <= maxCapacity
    ensures v.cabins[s].pool >= bound
    ensures v.cabins[s].last == v.cabins[s].first + 1 ==> v.cabins[s].pool == v.legs[v.cabins[s].first].capacity
  {
    var c := v.cabins[s];
    var pools := LegPools(v.legs, c.first, c.last);
    LeastIsTheMinimum(pools, maxCapacity);
    assert forall i :: 0 <= i < |pools| ==> pools[i] == v.legs[c.first + i].capacity;
  }

  lemma WholeSeatsExceed(capacity: real, pool: real)
    requires pool >= 1.0
    ensures (capacity.Floor + pool.Floor) as real > capacity
  {
  }

  /** On every loaded flight of two or more legs with at least one seat each, and a
      class of non-negative yield on each segment, guarded sales can overbook every
      leg. */
  lemma SeveralLegsOverbook(v: Flight, airports: seq<string>, maxCapacity: real, ceiling: real, l: nat)
    requires Loaded(v, maxCapacity) && Spans(v, airports) && DifferentAirports(airports) && |v.legs| >= 2
    requires forall i :: 0 <= i < |v.legs| ==> 1.0 <= v.legs[i].capacity <= maxCapacity
    requires forall s :: 0 <= s < |v.cabins| ==> HasTop(v, s)
    requires l < |v.legs|
    ensures !NeverOverbooked(v, ceiling, l)
  {
    assert 1.0 <= v.legs[l].capacity <= maxCapacity;
    var s := SegmentOver(v, airports, l, l + 1);
    var first := if l + 1 < |v.legs| then l else l - 1;
    var t := SegmentOver(v, airports, first, first + 2);
    forall i | 0 <= i < |v.cabins|
      ensures v.cabins[i].pool >= 1.0
    {
      PoolOverLegs(v, maxCapacity, i, 1.0);
    }
    PoolOverLegs(v, maxCapacity, s, 1.0);
    WholeSeatsExceed(v.legs[l].capacity, v.cabins[t].pool);
    LoadedSegmentsOverbook(v, maxCapacity, ceiling, s, t, l);
  }
}
