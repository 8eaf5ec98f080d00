/** Reservations and optimisations on the objects of one cabin of a flight-date. */
module FlightDateHelper {
  import opened NestedControls
  import opened Pools
  import opened Bom
  import opened FlightRuns
  import SegmentCabinHelper

  /** The legs a segment-cabin is routed on, as positions in the flight-date. */
  datatype Route = Route(first: nat, last: nat)

  ghost function AllNodes(segments: seq<SegmentCabin>): set<NestingNode>
    reads segments`nodes
  {
    set s, k | 0 <= s < |segments| && 0 <= k < |segments[s].nodes| :: segments[s].nodes[k]
  }

  ghost function AllClasses(segments: seq<SegmentCabin>): set<BookingClass>
    reads segments`nodes, AllNodes(segments)`classes
  {
    set s, k, m | 0 <= s < |segments| && 0 <= k < |segments[s].nodes| && 0 <= m < |segments[s].nodes[k].classes| ::
      segments[s].nodes[k].classes[m]
  }

  /** The segment-cabin runs over consecutive legs. */
  ghost predicate Routed(legs: seq<LegCabin>, segment: SegmentCabin, r: Route)
    reads segment`legCabins
  {
    r.first < r.last <= |legs| && segment.legCabins == legs[r.first..r.last]
  }

  /** The segment-cabin's nodes hold different classes, all its own. */
  ghost predicate Owns(segment: SegmentCabin)
    reads segment, segment.nodes, NodeClasses(segment.nodes)
  {
    && segment.nodes != [] && Apart(segment.nodes) && NoRepeats(segment.nodes)
    && forall k, m :: 0 <= k < |segment.nodes| && 0 <= m < |segment.nodes[k].classes| ==>
         segment.nodes[k].classes[m].segmentCabin == segment
  }

  /** Different segment-cabins over consecutive runs of different legs. */
  ghost predicate Placed(f: FlightDate, routes: seq<Route>)
    reads f, f.segmentCabins`flightDate, f.segmentCabins`legCabins
  {
    && |routes| == |f.segmentCabins|
    && (forall i, j :: 0 <= i < j < |f.legCabins| ==> f.legCabins[i] != f.legCabins[j])
    && (forall s, t :: 0 <= s < t < |f.segmentCabins| ==> f.segmentCabins[s] != f.segmentCabins[t])
    && (forall s :: 0 <= s < |f.segmentCabins| ==> f.segmentCabins[s].flightDate == f)
    && (forall s :: 0 <= s < |f.segmentCabins| ==> Routed(f.legCabins, f.segmentCabins[s], routes[s]))
  }

  ghost predicate AllOwn(segments: seq<SegmentCabin>)
    reads segments, AllNodes(segments), AllClasses(segments)
  {
    forall s :: 0 <= s < |segments| ==> Owns(segments[s])
  }

  ghost predicate Wired(f: FlightDate, routes: seq<Route>)
    reads f, f.segmentCabins, AllNodes(f.segmentCabins), AllClasses(f.segmentCabins)
  {
    Placed(f, routes) && AllOwn(f.segmentCabins)
  }

  ghost function LegView(leg: LegCabin): Leg
    reads leg
  {
    Leg(leg.offeredCapacity, leg.committedSpace, leg.availabilityPool)
  }

  ghost function LegsView(legs: seq<LegCabin>): (v: seq<Leg>)
    reads legs
    ensures |v| == |legs| && forall l :: 0 <= l < |legs| ==> v[l] == LegView(legs[l])
  {
    seq(|legs|, l requires 0 <= l < |legs| reads legs => LegView(legs[l]))
  }

  ghost function CabinView(segment: SegmentCabin, r: Route): Cabin
    reads segment, segment.nodes, NodeClasses(segment.nodes)
  {
    Cabin(r.first, r.last, segment.committedSpace, segment.availabilityPool, NodesView(segment.nodes))
  }

  ghost function View(f: FlightDate, routes: seq<Route>): (v: Flight)
    requires |routes| == |f.segmentCabins|
    reads f, f.legCabins, f.segmentCabins, AllNodes(f.segmentCabins), AllClasses(f.segmentCabins)
    ensures v.legs == LegsView(f.legCabins)
    ensures |v.cabins| == |f.segmentCabins|
    ensures forall s :: 0 <= s < |f.segmentCabins| ==> v.cabins[s] == CabinView(f.segmentCabins[s], routes[s])
  {
    Flight(LegsView(f.legCabins),
      seq(|f.segmentCabins|, s requires 0 <= s < |f.segmentCabins| && |routes| == |f.segmentCabins|
        reads f, f.segmentCabins, AllNodes(f.segmentCabins), AllClasses(f.segmentCabins) =>
        CabinView(f.segmentCabins[s], routes[s])))
  }

  // ------------------------------------------------------- what is left alone

  /** The nestings of all segment-cabins. */
  ghost predicate NodesAre(f: FlightDate, v: seq<seq<Node>>)
    reads f, f.segmentCabins, AllNodes(f.segmentCabins), AllClasses(f.segmentCabins)
  {
    |v| == |f.segmentCabins| && forall s :: 0 <= s < |v| ==> NodesView(f.segmentCabins[s].nodes) == v[s]
  }

  /** Changes that reach no node and no class keep the nestings and their owner. */
  twostate lemma NestingKept(segment: SegmentCabin)
    requires old(Owns(segment))
    requires segment.nodes == old(segment.nodes)
    requires forall k :: 0 <= k < |segment.nodes| ==>
      segment.nodes[k].yld == old(segment.nodes[k].yld) && segment.nodes[k].classes == old(segment.nodes[k].classes)
    requires forall k, m :: 0 <= k < |segment.nodes| && 0 <= m < |segment.nodes[k].classes| ==>
      && segment.nodes[k].classes[m].View() == old(segment.nodes[k].classes[m].View())
      && segment.nodes[k].classes[m].segmentCabin == old(segment.nodes[k].classes[m].segmentCabin)
    ensures Owns(segment) && NodesView(segment.nodes) == old(NodesView(segment.nodes))
  {
    forall k | 0 <= k < |segment.nodes|
      ensures segment.nodes[k].View() == old(segment.nodes[k].View())
    {
      assert segment.nodes[k].View().classes == old(segment.nodes[k].View()).classes;
    }
  }

  /** Changes to seats of legs and pools of segments keep all nestings. */
  twostate lemma NestingsKept(segments: seq<SegmentCabin>)
    requires old(AllOwn(segments))
    requires forall n: NestingNode :: old(allocated(n)) ==> n.yld == old(n.yld) && n.classes == old(n.classes)
    requires forall c: BookingClass :: old(allocated(c)) ==>
      c.View() == old(c.View()) && c.segmentCabin == old(c.segmentCabin)
    requires forall s :: 0 <= s < |segments| ==> segments[s].nodes == old(segments[s].nodes)
    ensures AllOwn(segments)
    ensures forall s :: 0 <= s < |segments| ==> NodesView(segments[s].nodes) == old(NodesView(segments[s].nodes))
  {
    forall s | 0 <= s < |segments|
      ensures Owns(segments[s]) && NodesView(segments[s].nodes) == old(NodesView(segments[s].nodes))
    {
      NestingKept(segments[s]);
    }
  }

  /** Changes to the classes of segment-cabin s show in the nesting of no other. */
  twostate lemma OtherSegmentsKept(segments: seq<SegmentCabin>, new s: nat)
    requires s < |segments| && old(AllOwn(segments))
    requires forall t :: 0 <= t < |segments| && t != s ==> segments[t] != segments[s]
    requires forall t :: 0 <= t < |segments| ==> segments[t].nodes == old(segments[t].nodes)
    requires forall n: NestingNode :: old(allocated(n)) ==> n.yld == old(n.yld) && n.classes == old(n.classes)
    requires forall c: BookingClass :: old(allocated(c)) ==> c.segmentCabin == old(c.segmentCabin)
    requires forall c: BookingClass :: old(allocated(c)) && c.segmentCabin != segments[s] ==> c.View() == old(c.View())
    ensures AllOwn(segments)
    ensures forall t :: 0 <= t < |segments| && t != s ==>
      NodesView(segments[t].nodes) == old(NodesView(segments[t].nodes))
  {
    forall t | 0 <= t < |segments|
      ensures Owns(segments[t])
      ensures t != s ==> NodesView(segments[t].nodes) == old(NodesView(segments[t].nodes))
    {
      assert old(Owns(segments[t]));
      if t != s {
        NestingKept(segments[t]);
      }
    }
  }

  // ----------------------------------------------------------------- leg update

  /** Commits space on every leg of the segment-cabin. */
  method UpdateLegs(legs: seq<LegCabin>, segment: SegmentCabin, partySize: int, ghost r: Route)
    requires Routed(legs, segment, r)
    requires forall i, j :: 0 <= i < j < |legs| ==> legs[i] != legs[j]
    modifies legs`committedSpace, legs`availabilityPool
    ensures LegsView(legs) == Committed(old(LegsView(legs)), r.first, r.last, partySize as real)
  {
    ghost var v := LegsView(legs);
    for i := 0 to |segment.legCabins|
      invariant forall l :: 0 <= l < |legs| ==>
        LegView(legs[l]) == if r.first <= l < r.first + i then CommittedLeg(v[l], partySize as real) else v[l]
    {
      assert segment.legCabins[i] == legs[r.first + i];
      assert LegView(legs[r.first + i]) == v[r.first + i];
      segment.legCabins[i].UpdateFromReservation(partySize);
    }
  }

  /** Commits space on the legs of a segment-cabin of the flight-date. */
  method CommitLegs(f: FlightDate, segment: SegmentCabin, partySize: int,
      ghost s: nat, ghost routes: seq<Route>, ghost v: seq<seq<Node>>)
    requires Wired(f, routes) && NodesAre(f, v) && s < |routes| && segment == f.segmentCabins[s]
    modifies f.legCabins`committedSpace, f.legCabins`availabilityPool
    ensures Wired(f, routes) && NodesAre(f, v)
    ensures LegsView(f.legCabins)
         == Committed(old(LegsView(f.legCabins)), routes[s].first, routes[s].last, partySize as real)
  {
    assert Routed(f.legCabins, segment, routes[s]);
    UpdateLegs(f.legCabins, segment, partySize, routes[s]);
    NestingsKept(f.segmentCabins);
  }

  // ---------------------------------------------------------------------- pools

  ghost function PoolsView(legs: seq<LegCabin>): seq<real>
    reads legs
  {
    seq(|legs|, l requires 0 <= l < |legs| reads legs => legs[l].availabilityPool)
  }

  /** The least pool of the legs of a route, under the ceiling. */
  ghost function RoutePool(legs: seq<Leg>, r: Route, ceiling: real): real
    requires r.first <= r.last <= |legs|
  {
    Least(LegPools(legs, r.first, r.last), ceiling)
  }

  /** Every segment-cabin has the least pool of its legs. */
  ghost predicate PoolsRefreshed(f: FlightDate, routes: seq<Route>, ceiling: real)
    reads f, f.segmentCabins`availabilityPool, f.legCabins
  {
    && |routes| == |f.segmentCabins|
    && forall s :: 0 <= s < |routes| ==>
         && routes[s].first <= routes[s].last <= |f.legCabins|
         && f.segmentCabins[s].availabilityPool == RoutePool(LegsView(f.legCabins), routes[s], ceiling)
  }

  method LeastPool(legs: seq<LegCabin>, segment: SegmentCabin, ceiling: real, ghost r: Route) returns (pool: real)
    requires Routed(legs, segment, r)
    ensures pool == RoutePool(LegsView(legs), r, ceiling)
  {
    pool := ceiling;
    ghost var v := PoolsView(segment.legCabins);
    for l := 0 to |segment.legCabins|
      invariant pool == Least(v[..l], ceiling)
    {
      assert v[..l + 1][..l] == v[..l];
      if pool > segment.legCabins[l].availabilityPool {
        pool := segment.legCabins[l].availabilityPool;
      }
    }
    assert v[..|v|] == v;
    assert v == LegPools(LegsView(legs), r.first, r.last);
  }

  /** Sets the pool of every segment-cabin to the least pool of its legs. */
  method UpdateAvailabilityPool(f: FlightDate, ghost routes: seq<Route>, ghost legs: seq<Leg>, ceiling: real)
    requires Placed(f, routes) && LegsView(f.legCabins) == legs
    modifies f.segmentCabins`availabilityPool
    ensures forall s :: 0 <= s < |routes| ==> f.segmentCabins[s].availabilityPool == RoutePool(legs, routes[s], ceiling)
  {
    var legCabins, segments := f.legCabins, f.segmentCabins;
    for s := 0 to |segments|
      invariant forall t :: 0 <= t < s ==> segments[t].availabilityPool == RoutePool(legs, routes[t], ceiling)
    {
      assert Routed(legCabins, segments[s], routes[s]);
      var pool := LeastPool(legCabins, segments[s], ceiling, routes[s]);
      segments[s].availabilityPool := pool;
    }
  }

  /** Setting the pools leaves the layout and the nestings alone. */
  method RefreshPools(f: FlightDate, ghost routes: seq<Route>, ghost v: seq<seq<Node>>, ceiling: real)
    requires Wired(f, routes) && NodesAre(f, v)
    modifies f.segmentCabins`availabilityPool
    ensures Wired(f, routes) && NodesAre(f, v)
    ensures LegsView(f.legCabins) == old(LegsView(f.legCabins))
    ensures PoolsRefreshed(f, routes, ceiling)
  {
    UpdateAvailabilityPool(f, routes, LegsView(f.legCabins), ceiling);
    assert Placed(f, routes) by {
      forall t | 0 <= t < |routes|
        ensures Routed(f.legCabins, f.segmentCabins[t], routes[t])
      {
        assert old(Routed(f.legCabins, f.segmentCabins[t], routes[t]));
      }
    }
    NestingsKept(f.segmentCabins);
  }

  // -------------------------------------------------------------- availabilities

  /** Recalculating one segment-cabin leaves the others alone. */
  method RecalculateSegment(segments: seq<SegmentCabin>, s: nat)
    requires s < |segments|
    requires AllOwn(segments)
    requires forall t :: 0 <= t < |segments| && t != s ==> segments[t] != segments[s]
    requires WellNested(NodesView(segments[s].nodes)) && UniformAuthorization(NodesView(segments[s].nodes))
    modifies NodeClasses(segments[s].nodes)`availability
    ensures AllOwn(segments)
    ensures NodesView(segments[s].nodes) == Recalculated(old(NodesView(segments[s].nodes)))
    ensures forall t :: 0 <= t < |segments| && t != s ==>
      NodesView(segments[t].nodes) == old(NodesView(segments[t].nodes))
  {
    SegmentCabinHelper.UpdateAvailabilities(segments[s]);
    OtherSegmentsKept(segments, s);
  }

  ghost predicate WellNestedAll(v: seq<seq<Node>>) {
    forall s :: 0 <= s < |v| ==> WellNested(v[s]) && UniformAuthorization(v[s])
  }

  ghost function RecalculatedAll(v: seq<seq<Node>>): (r: seq<seq<Node>>)
    requires WellNestedAll(v)
    ensures |r| == |v| && forall s :: 0 <= s < |v| ==> r[s] == Recalculated(v[s])
  {
    seq(|v|, s requires 0 <= s < |v| => Recalculated(v[s]))
  }

  ghost function RecalculatedUpTo(v: seq<seq<Node>>, n: nat, s: nat): seq<Node>
    requires WellNestedAll(v) && s < |v|
  {
    if s < n then Recalculated(v[s]) else v[s]
  }

  /** Recalculates the availabilities of every segment-cabin. */
  method RecalculateAvailability(f: FlightDate, ghost routes: seq<Route>, ghost v: seq<seq<Node>>)
    requires Wired(f, routes) && NodesAre(f, v) && WellNestedAll(v)
    modifies AllClasses(f.segmentCabins)`availability
    ensures Wired(f, routes)
    ensures LegsView(f.legCabins) == old(LegsView(f.legCabins))
    ensures NodesAre(f, RecalculatedAll(v))
  {
    ghost var legs := LegsView(f.legCabins);
    var segments := f.segmentCabins;
    for s := 0 to |segments|
      invariant AllOwn(segments)
      invariant forall t :: 0 <= t < |segments| ==> NodesView(segments[t].nodes) == RecalculatedUpTo(v, s, t)
    {
      RecalculateSegment(segments, s);
    }
    assert forall l :: 0 <= l < |f.legCabins| ==> LegView(f.legCabins[l]) == legs[l];
    assert LegsView(f.legCabins) == legs;
  }

  // --------------------------------------------------------------- reservations

  /** Commits space on the legs of a segment-cabin, then refreshes the pools of all
      segment-cabins. */
  method UpdateSeats(f: FlightDate, segment: SegmentCabin, partySize: int, ceiling: real,
      ghost s: nat, ghost routes: seq<Route>, ghost v: seq<seq<Node>>)
    requires Wired(f, routes) && NodesAre(f, v) && s < |routes| && segment == f.segmentCabins[s]
    modifies f.legCabins`committedSpace, f.legCabins`availabilityPool, f.segmentCabins`availabilityPool
    ensures Wired(f, routes) && NodesAre(f, v)
    ensures LegsView(f.legCabins)
         == Committed(old(LegsView(f.legCabins)), routes[s].first, routes[s].last, partySize as real)
    ensures PoolsRefreshed(f, routes, ceiling)
  {
    CommitLegs(f, segment, partySize, s, routes, v);
    RefreshPools(f, routes, v, ceiling);
  }

  /** Commits space on the legs of a segment-cabin, then refreshes the pools and
      the availabilities of all segment-cabins. */
  method UpdateAvailability(f: FlightDate, segment: SegmentCabin, partySize: int, ceiling: real,
      ghost s: nat, ghost routes: seq<Route>, ghost v: seq<seq<Node>>)
    requires Wired(f, routes) && NodesAre(f, v) && WellNestedAll(v)
    requires s < |routes| && segment == f.segmentCabins[s]
    modifies f.legCabins`committedSpace, f.legCabins`availabilityPool
    modifies f.segmentCabins`availabilityPool, AllClasses(f.segmentCabins)`availability
    ensures Wired(f, routes)
    ensures LegsView(f.legCabins)
         == Committed(old(LegsView(f.legCabins)), routes[s].first, routes[s].last, partySize as real)
    ensures PoolsRefreshed(f, routes, ceiling)
    ensures NodesAre(f, RecalculatedAll(v))
  {
    UpdateSeats(f, segment, partySize, ceiling, s, routes, v);
    RecalculateAvailability(f, routes, v);
  }

  /** Committing space on a segment-cabin leaves the layout and nestings alone. */
  method CommitSegment(f: FlightDate, segment: SegmentCabin, partySize: int,
      ghost s: nat, ghost routes: seq<Route>, ghost v: seq<seq<Node>>)
    requires Wired(f, routes) && NodesAre(f, v) && s < |routes| && segment == f.segmentCabins[s]
    modifies segment`committedSpace
    ensures Wired(f, routes) && NodesAre(f, v)
    ensures LegsView(f.legCabins) == old(LegsView(f.legCabins))
    ensures segment.committedSpace == old(segment.committedSpace) + partySize as real
  {
    ghost var legs := LegsView(f.legCabins);
    segment.UpdateFromReservation(partySize);
    assert Placed(f, routes) by {
      forall t | 0 <= t < |routes|
        ensures Routed(f.legCabins, f.segmentCabins[t], routes[t])
      {
        assert old(Routed(f.legCabins, f.segmentCabins[t], routes[t]));
      }
    }
    NestingsKept(f.segmentCabins);
    assert forall l :: 0 <= l < |f.legCabins| ==> LegView(f.legCabins[l]) == legs[l];
    assert LegsView(f.legCabins) == legs;
  }

  /** Updates the segment-cabin, its legs, and then all pools and
      availabilities, after a reservation. */
  method UpdateFromReservation(f: FlightDate, segment: SegmentCabin, partySize: int, ceiling: real,
      ghost s: nat, ghost routes: seq<Route>, ghost v: seq<seq<Node>>)
    requires Wired(f, routes) && NodesAre(f, v) && WellNestedAll(v)
    requires s < |routes| && segment == f.segmentCabins[s]
    modifies segment`committedSpace, f.legCabins`committedSpace, f.legCabins`availabilityPool
    modifies f.segmentCabins`availabilityPool, AllClasses(f.segmentCabins)`availability
    ensures Wired(f, routes)
    ensures forall t :: 0 <= t < |routes| ==>
      f.segmentCabins[t].committedSpace
      == old(f.segmentCabins[t].committedSpace) + (if t == s then partySize as real else 0.0)
    ensures LegsView(f.legCabins)
         == Committed(old(LegsView(f.legCabins)), routes[s].first, routes[s].last, partySize as real)
    ensures PoolsRefreshed(f, routes, ceiling)
    ensures NodesAre(f, RecalculatedAll(v))
  {
    CommitSegment(f, segment, partySize, s, routes, v);
    UpdateAvailability(f, segment, partySize, ceiling, s, routes, v);
  }
}
