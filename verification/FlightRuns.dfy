/** One cabin of a flight-date as a value, and what runs of sales and
    cancellations do to it: every reservation changes the legs its segment
    crosses, then the pools and the availabilities of all segments. */
module FlightRuns {
  import opened NestedControls
  import opened Pools

  datatype Leg = Leg(capacity: real, committed: real, pool: real)

  /** A segment-cabin over legs first, ..., last - 1. */
  datatype Cabin = Cabin(first: nat, last: nat, committed: real, pool: real, nodes: seq<Node>)

  datatype Flight = Flight(legs: seq<Leg>, cabins: seq<Cabin>)

  /** A party sold or cancelled on class m of node k of segment-cabin s. */
  datatype Reservation =
    | Sale(s: nat, k: nat, m: nat, party: int)
    | Cancellation(s: nat, k: nat, m: nat, party: int)
  {
    function Net(): real {
      if Sale? then party as real else -(party as real)
    }

    function Cancelled(): real {
      if Sale? then 0.0 else party as real
    }
  }

  ghost predicate WellFormed(f: Flight) {
    && (forall s :: 0 <= s < |f.cabins| ==> f.cabins[s].first < f.cabins[s].last <= |f.legs|)
    && (forall s :: 0 <= s < |f.cabins| ==> WellNested(f.cabins[s].nodes))
    && (forall s :: 0 <= s < |f.cabins| ==> UniformAuthorization(f.cabins[s].nodes))
  }

  ghost predicate HasClass(f: Flight, s: nat, k: nat, m: nat) {
    s < |f.cabins| && k < |f.cabins[s].nodes| && m < |f.cabins[s].nodes[k].classes|
  }

  ghost function Class(f: Flight, s: nat, k: nat, m: nat): ClassControl
    requires HasClass(f, s, k, m)
  {
    f.cabins[s].nodes[k].classes[m]
  }

  predicate Crosses(c: Cabin, l: nat) {
    c.first <= l < c.last
  }

  /** The pools of the legs of a segment-cabin. */
  ghost function LegPools(legs: seq<Leg>, first: nat, last: nat): seq<real>
    requires first <= last <= |legs|
  {
    seq(last - first, i requires 0 <= i < last - first => legs[first + i].pool)
  }

  // -------------------------------------------------------------------- shape

  /** Two flights over the same legs and with the same nesting. */
  ghost predicate SameShape(f: Flight, g: Flight) {
    && |f.legs| == |g.legs| && |f.cabins| == |g.cabins|
    && (forall l :: 0 <= l < |f.legs| ==> f.legs[l].capacity == g.legs[l].capacity)
    && (forall s :: 0 <= s < |f.cabins| ==>
        f.cabins[s].first == g.cabins[s].first && f.cabins[s].last == g.cabins[s].last)
    && (forall s :: 0 <= s < |f.cabins| ==> SameNesting(f.cabins[s].nodes, g.cabins[s].nodes))
  }

  /** Equal yields, levels and limits, and equal availabilities outside the nesting. */
  ghost predicate SameNesting(a: seq<Node>, b: seq<Node>) {
    && |a| == |b|
    && forall k :: 0 <= k < |a| ==> SameNode(a[k], b[k])
  }

  ghost predicate SameNode(a: Node, b: Node) {
    && a.yld == b.yld && |a.classes| == |b.classes|
    && forall m :: 0 <= m < |a.classes| ==> SameControls(a.classes[m], b.classes[m], a.yld < 0.0)
  }

  ghost predicate SameControls(a: ClassControl, b: ClassControl, outsideNesting: bool) {
    && a.authorization == b.authorization && a.bookingLimit == b.bookingLimit
    && (outsideNesting ==> a.availability == b.availability)
  }

  lemma SameNestingKeepsNesting(a: seq<Node>, b: seq<Node>)
    requires SameNesting(a, b) && WellNested(a)
    ensures WellNested(b)
    ensures UniformAuthorization(a) ==> UniformAuthorization(b)
  {
    forall k | 0 <= k < |a|
      ensures a[k].yld == b[k].yld && |a[k].classes| == |b[k].classes|
      ensures forall m :: 0 <= m < |a[k].classes| ==> a[k].classes[m].authorization == b[k].classes[m].authorization
    {
      assert SameNode(a[k], b[k]);
    }
  }

  // -------------------------------------------------------------------- steps

  /** A leg when d more seats are committed on it. */
  ghost function CommittedLeg(l: Leg, d: real): Leg {
    l.(committed := l.committed + d, pool := l.capacity - (l.committed + d))
  }

  /** The legs when d more seats are committed on legs first, ..., last - 1. */
  ghost function Committed(legs: seq<Leg>, first: nat, last: nat, d: real): (r: seq<Leg>)
    ensures |r| == |legs|
  {
    seq(|legs|, l requires 0 <= l < |legs| =>
      if first <= l < last then CommittedLeg(legs[l], d) else legs[l])
  }

  /** Segment-cabin c after the legs changed: a new pool, under the ceiling, and
      recalculated availabilities. */
  ghost function Refreshed(c: Cabin, legs: seq<Leg>, ceiling: real): Cabin
    requires c.first <= c.last <= |legs| && NonEmptyNodes(c.nodes)
  {
    c.(pool := Least(LegPools(legs, c.first, c.last), ceiling), nodes := Recalculated(c.nodes))
  }

  /** Segment-cabin s after it has registered a reservation itself. */
  ghost function Registered(f: Flight, e: Reservation, s: nat): Cabin
    requires HasClass(f, e.s, e.k, e.m) && s < |f.cabins|
  {
    var c := f.cabins[s];
    if s == e.s
    then c.(committed := c.committed + e.Net(), nodes := Booking(c.nodes, e.k, e.m, e.Net(), e.Cancelled()))
    else c
  }

  lemma RegisteredKeepsNesting(f: Flight, e: Reservation, s: nat)
    requires WellFormed(f) && HasClass(f, e.s, e.k, e.m) && s < |f.cabins|
    ensures WellNested(Registered(f, e, s).nodes)
  {
    if s == e.s {
      BookingKeepsNesting(f.cabins[s].nodes, e.k, e.m, e.Net(), e.Cancelled());
    }
  }

  /** The flight after one reservation: the sold class, its segment-cabin and
      the legs of its segment are updated, then every segment-cabin refreshed. */
  ghost function Step(f: Flight, e: Reservation, ceiling: real): (r: Flight)
    requires WellFormed(f) && HasClass(f, e.s, e.k, e.m)
  {
    var legs := Committed(f.legs, f.cabins[e.s].first, f.cabins[e.s].last, e.Net());
    assert forall s :: 0 <= s < |f.cabins| ==> NonEmptyNodes(Registered(f, e, s).nodes) by {
      forall s | 0 <= s < |f.cabins| {
        RegisteredKeepsNesting(f, e, s);
      }
    }
    Flight(legs, seq(|f.cabins|, s requires 0 <= s < |f.cabins| => Refreshed(Registered(f, e, s), legs, ceiling)))
  }

  /** A sale takes its seats on every leg of its segment, a cancellation gives them
      back, and no other leg changes. */
  lemma ReservationOnLegs(f: Flight, e: Reservation, ceiling: real, l: nat)
    requires WellFormed(f) && HasClass(f, e.s, e.k, e.m) && l < |f.legs|
    ensures |Step(f, e, ceiling).legs| == |f.legs|
    ensures var leg, c := f.legs[l], f.cabins[e.s];
            var taken := leg.committed + (if e.Sale? then e.party else -e.party) as real;
            Step(f, e, ceiling).legs[l] ==
            if c.first <= l < c.last then Leg(leg.capacity, taken, leg.capacity - taken) else leg
  {
  }

  /** One class after one reservation. */
  lemma StepClass(f: Flight, e: Reservation, ceiling: real, s: nat, k: nat, m: nat)
    requires WellFormed(f) && HasClass(f, e.s, e.k, e.m) && HasClass(f, s, k, m)
    ensures HasClass(Step(f, e, ceiling), s, k, m)
    ensures var hit := e.s == s && e.k == k && e.m == m;
            var x := Class(f, s, k, m);
            var y := Class(Step(f, e, ceiling), s, k, m);
            && y.bookings == x.bookings + (if hit then e.Net() else 0.0)
            && y.cancellations == x.cancellations + (if hit then e.Cancelled() else 0.0)
            && SameControls(x, y, f.cabins[s].nodes[k].yld < 0.0)
  {
    RegisteredKeepsNesting(f, e, s);
    RecalculatedNode(Registered(f, e, s).nodes, k, m);
  }

  lemma StepNode(f: Flight, e: Reservation, ceiling: real, s: nat, k: nat)
    requires WellFormed(f) && HasClass(f, e.s, e.k, e.m) && s < |f.cabins| && k < |f.cabins[s].nodes|
    ensures |Step(f, e, ceiling).cabins[s].nodes| == |f.cabins[s].nodes|
    ensures SameNode(f.cabins[s].nodes[k], Step(f, e, ceiling).cabins[s].nodes[k])
  {
    var n := f.cabins[s].nodes[k];
    forall m | 0 <= m < |n.classes|
      ensures SameControls(n.classes[m], Step(f, e, ceiling).cabins[s].nodes[k].classes[m], n.yld < 0.0)
    {
      StepClass(f, e, ceiling, s, k, m);
    }
  }

  /** A reservation changes no route, yield, level or limit. */
  lemma StepKeepsShape(f: Flight, e: Reservation, ceiling: real)
    requires WellFormed(f) && HasClass(f, e.s, e.k, e.m)
    ensures SameShape(f, Step(f, e, ceiling)) && WellFormed(Step(f, e, ceiling))
  {
    var g := Step(f, e, ceiling);
    forall s | 0 <= s < |f.cabins|
      ensures SameNesting(f.cabins[s].nodes, g.cabins[s].nodes)
      ensures WellNested(g.cabins[s].nodes) && UniformAuthorization(g.cabins[s].nodes)
    {
      forall k | 0 <= k < |f.cabins[s].nodes|
        ensures SameNode(f.cabins[s].nodes[k], g.cabins[s].nodes[k])
      {
        StepNode(f, e, ceiling, s, k);
      }
      SameNestingKeepsNesting(f.cabins[s].nodes, g.cabins[s].nodes);
    }
  }

  // ---------------------------------------------------------------- invariant

  /** The bookings of all classes of all segments that cross leg l. */
  ghost function Demand(cs: seq<Cabin>, l: nat): real {
    if cs == [] then 0.0
    else Demand(cs[..|cs| - 1], l) + (if Crosses(cs[|cs| - 1], l) then TotalBookings(cs[|cs| - 1].nodes) else 0.0)
  }

  /** Leg l holds exactly the bookings of the segments that cross it. */
  ghost predicate LegConserved(f: Flight, l: nat)
    requires l < |f.legs|
  {
    && f.legs[l].committed == Demand(f.cabins, l)
    && f.legs[l].pool == f.legs[l].capacity - f.legs[l].committed
  }

  /** Conservation: legs hold the bookings that cross them, segment-cabins those
      of their own classes. */
  ghost predicate Conserved(f: Flight) {
    && WellFormed(f)
    && (forall l :: 0 <= l < |f.legs| ==> LegConserved(f, l))
    && (forall s :: 0 <= s < |f.cabins| ==> f.cabins[s].committed == TotalBookings(f.cabins[s].nodes))
  }

  /** Segment-cabin s shows the least pool of its legs, and the availabilities
      its levels and bookings leave. */
  ghost predicate CabinRefreshed(f: Flight, ceiling: real, s: nat)
    requires WellFormed(f) && s < |f.cabins|
  {
    var c := f.cabins[s];
    && c.pool == Least(LegPools(f.legs, c.first, c.last), ceiling)
    && c.nodes == Recalculated(c.nodes)
  }

  /** A conserved flight whose pools and availabilities are up to date. */
  ghost predicate Settled(f: Flight, ceiling: real) {
    && Conserved(f)
    && (forall s :: 0 <= s < |f.cabins| ==> CabinRefreshed(f, ceiling, s))
  }

  /** The demand on a leg adds up over the segments, each with all its bookings on
      every leg from its first to its last. */
  lemma {:induction false} DemandAddsUp(a: seq<Cabin>, b: seq<Cabin>, l: nat)
    ensures Demand(a + b, l) == Demand(a, l) + Demand(b, l)
    ensures |b| == 1 ==> Demand(b, l) == if b[0].first <= l < b[0].last then TotalBookings(b[0].nodes) else 0.0
    decreases |b|
  {
    if b == [] {
      assert a + b == a;
    } else {
      DemandAddsUp(a, b[..|b| - 1], l);
      assert (a + b)[..|a + b| - 1] == a + b[..|b| - 1];
    }
  }

  lemma {:induction false} DemandShift(a: seq<Cabin>, b: seq<Cabin>, s: int, d: real, l: nat)
    requires |a| == |b|
    requires forall t :: 0 <= t < |a| ==> a[t].first == b[t].first && a[t].last == b[t].last
    requires forall t :: 0 <= t < |a| ==>
      TotalBookings(b[t].nodes) == TotalBookings(a[t].nodes) + (if t == s then d else 0.0)
    ensures Demand(b, l) == Demand(a, l) + (if 0 <= s < |a| && Crosses(a[s], l) then d else 0.0)
  {
    if a == [] {
    } else {
      DemandShift(a[..|a| - 1], b[..|b| - 1], s, d, l);
    }
  }

  lemma StepShiftsTotal(f: Flight, e: Reservation, ceiling: real, s: nat)
    requires WellFormed(f) && HasClass(f, e.s, e.k, e.m) && s < |f.cabins|
    ensures TotalBookings(Step(f, e, ceiling).cabins[s].nodes)
         == TotalBookings(f.cabins[s].nodes) + (if s == e.s then e.Net() else 0.0)
  {
    RegisteredKeepsNesting(f, e, s);
    var r := Registered(f, e, s);
    RecalculatedKeepsNesting(r.nodes);
    SameTotalBookings(r.nodes, Recalculated(r.nodes));
    if s == e.s {
      BookingShiftsTotal(f.cabins[s].nodes, e.k, e.m, e.Net(), e.Cancelled());
    }
  }

  lemma StepConservesLeg(f: Flight, e: Reservation, ceiling: real, l: nat)
    requires Conserved(f) && HasClass(f, e.s, e.k, e.m) && l < |f.legs|
    ensures LegConserved(Step(f, e, ceiling), l)
  {
    var g := Step(f, e, ceiling);
    forall s | 0 <= s < |f.cabins|
      ensures TotalBookings(g.cabins[s].nodes) == TotalBookings(f.cabins[s].nodes) + (if s == e.s then e.Net() else 0.0)
    {
      StepShiftsTotal(f, e, ceiling, s);
    }
    assert LegConserved(f, l);
    DemandShift(f.cabins, g.cabins, e.s, e.Net(), l);
  }

  lemma StepRefreshesCabin(f: Flight, e: Reservation, ceiling: real, s: nat)
    requires HasClass(f, e.s, e.k, e.m) && s < |f.cabins|
    requires WellFormed(f) && WellFormed(Step(f, e, ceiling))
    ensures CabinRefreshed(Step(f, e, ceiling), ceiling, s)
  {
    RegisteredKeepsNesting(f, e, s);
    RecalculatedIsStable(Registered(f, e, s).nodes);
  }

  /** Conservation, one step: a reservation on a conserved flight keeps it
      conserved, and brings all pools and availabilities up to date, whatever
      they showed before. */
  lemma StepSettles(f: Flight, e: Reservation, ceiling: real)
    requires Conserved(f) && HasClass(f, e.s, e.k, e.m)
    ensures Settled(Step(f, e, ceiling), ceiling)
  {
    StepKeepsShape(f, e, ceiling);
    forall l | 0 <= l < |f.legs|
      ensures LegConserved(Step(f, e, ceiling), l)
    {
      StepConservesLeg(f, e, ceiling, l);
    }
    forall s | 0 <= s < |f.cabins|
      ensures Step(f, e, ceiling).cabins[s].committed == TotalBookings(Step(f, e, ceiling).cabins[s].nodes)
      ensures CabinRefreshed(Step(f, e, ceiling), ceiling, s)
    {
      StepShiftsTotal(f, e, ceiling, s);
      StepRefreshesCabin(f, e, ceiling, s);
    }
  }

  // --------------------------------------------------------------------- runs

  /** The reservations are all on classes of the flight. */
  ghost predicate OnFlight(f: Flight, es: seq<Reservation>) {
    forall i :: 0 <= i < |es| ==> HasClass(f, es[i].s, es[i].k, es[i].m)
  }

  lemma SameShapeSameClasses(f: Flight, g: Flight, s: nat, k: nat, m: nat)
    requires SameShape(f, g)
    ensures HasClass(f, s, k, m) <==> HasClass(g, s, k, m)
  {
    if s < |f.cabins| {
      assert SameNesting(f.cabins[s].nodes, g.cabins[s].nodes);
      if k < |f.cabins[s].nodes| {
        assert SameNode(f.cabins[s].nodes[k], g.cabins[s].nodes[k]);
      }
    }
  }

  lemma RestOnFlight(f: Flight, es: seq<Reservation>, ceiling: real)
    requires WellFormed(f) && OnFlight(f, es) && es != []
    ensures WellFormed(Step(f, es[0], ceiling)) && OnFlight(Step(f, es[0], ceiling), es[1..])
  {
    StepKeepsShape(f, es[0], ceiling);
    forall i | 0 <= i < |es[1..]|
      ensures HasClass(Step(f, es[0], ceiling), es[1..][i].s, es[1..][i].k, es[1..][i].m)
    {
      assert es[1..][i] == es[i + 1];
      SameShapeSameClasses(f, Step(f, es[0], ceiling), es[i + 1].s, es[i + 1].k, es[i + 1].m);
    }
  }

  ghost function Run(f: Flight, es: seq<Reservation>, ceiling: real): Flight
    requires WellFormed(f) && OnFlight(f, es)
    decreases |es|
  {
    if es == [] then f
    else
      RestOnFlight(f, es, ceiling);
      Run(Step(f, es[0], ceiling), es[1..], ceiling)
  }

  /** Conservation, over every run: in every state reached from a conserved one,
      each leg's committed space is the bookings of all classes of all segments
      that cross it, and each segment's is the bookings of its own classes; from
      the first reservation on, pools are the least room on the legs and
      availabilities are up to date. */
  lemma {:induction false} RunSettles(f: Flight, es: seq<Reservation>, ceiling: real)
    requires Conserved(f) && OnFlight(f, es)
    ensures Conserved(Run(f, es, ceiling))
    ensures es != [] || Settled(f, ceiling) ==> Settled(Run(f, es, ceiling), ceiling)
    decreases |es|
  {
    if es == [] {
    } else {
      RestOnFlight(f, es, ceiling);
      StepSettles(f, es[0], ceiling);
      RunSettles(Step(f, es[0], ceiling), es[1..], ceiling);
    }
  }

  lemma SameShapeIsTransitive(f: Flight, g: Flight, h: Flight)
    requires SameShape(f, g) && SameShape(g, h)
    ensures SameShape(f, h)
  {
    forall s | 0 <= s < |f.cabins|
      ensures SameNesting(f.cabins[s].nodes, h.cabins[s].nodes)
    {
      forall k | 0 <= k < |f.cabins[s].nodes|
        ensures SameNode(f.cabins[s].nodes[k], h.cabins[s].nodes[k])
      {
        assert SameNode(f.cabins[s].nodes[k], g.cabins[s].nodes[k]);
        assert SameNode(g.cabins[s].nodes[k], h.cabins[s].nodes[k]);
      }
    }
  }

  lemma {:induction false} RunKeepsShape(f: Flight, es: seq<Reservation>, ceiling: real)
    requires WellFormed(f) && OnFlight(f, es)
    ensures SameShape(f, Run(f, es, ceiling)) && WellFormed(Run(f, es, ceiling))
    decreases |es|
  {
    if es == [] {
    } else {
      RestOnFlight(f, es, ceiling);
      StepKeepsShape(f, es[0], ceiling);
      RunKeepsShape(Step(f, es[0], ceiling), es[1..], ceiling);
      SameShapeIsTransitive(f, Step(f, es[0], ceiling), Run(f, es, ceiling));
    }
  }

  /** What a sale does to the availabilities of the flight, once they are up to
      date: no other segment's move; on the sold segment, classes of equal or
      higher yield lose exactly the party and nested classes of lower yield lose
      something between nothing and it; classes of negative yield neither move
      nor move others. */
  lemma SaleOnFlight(f: Flight, e: Reservation, ceiling: real, s: nat, i: nat, j: nat)
    requires WellFormed(f) && HasClass(f, e.s, e.k, e.m) && HasClass(f, s, i, j)
    requires f.cabins[s].nodes == Recalculated(f.cabins[s].nodes)
    requires e.Sale? && e.party >= 0
    ensures HasClass(Step(f, e, ceiling), s, i, j)
    ensures var before := Class(f, s, i, j).availability;
            var after := Class(Step(f, e, ceiling), s, i, j).availability;
            var sold, seen := f.cabins[e.s].nodes[e.k].yld, f.cabins[s].nodes[i].yld;
            if s != e.s || sold < 0.0 || seen < 0.0 then after == before
            else if seen >= sold then after == before - e.party as real
            else before - e.party as real <= after <= before
  {
    StepClass(f, e, ceiling, s, i, j);
    var ns := f.cabins[s].nodes;
    if s == e.s && ns[i].yld >= 0.0 {
      if ns[e.k].yld >= 0.0 {
        SaleEffect(ns, e.k, e.m, e.party as real, i, j);
      } else {
        BookingOutsideTheNesting(ns, e.k, e.m, e.Net(), e.Cancelled(), i);
        RecalculatedNode(ns, i, j);
        RecalculatedNode(Registered(f, e, s).nodes, i, j);
      }
    }
  }

  // ------------------------------------------------------------ loaded flights

  /** A flight as it is loaded: nothing booked, committed or shown yet, and the
      classes of each segment opened up to its least leg capacity. */
  ghost predicate Loaded(f: Flight, maxCapacity: real) {
    && WellFormed(f)
    && (forall l :: 0 <= l < |f.legs| ==> f.legs[l].committed == 0.0 && f.legs[l].pool == f.legs[l].capacity)
    && (forall s :: 0 <= s < |f.cabins| ==>
        && f.cabins[s].committed == 0.0
        && f.cabins[s].pool == Least(LegPools(f.legs, f.cabins[s].first, f.cabins[s].last), maxCapacity))
    && forall s: nat, k, m | HasClass(f, s, k, m) ::
         Class(f, s, k, m) == ClassControl(0.0, 0.0, f.cabins[s].pool, 0.0, 0.0)
  }

  lemma LoadedIsEmpty(f: Flight, maxCapacity: real, s: nat)
    requires Loaded(f, maxCapacity) && s < |f.cabins|
    ensures forall k, m :: 0 <= k < |f.cabins[s].nodes| && 0 <= m < |f.cabins[s].nodes[k].classes| ==>
              f.cabins[s].nodes[k].classes[m].bookings == 0.0
    ensures TotalBookings(f.cabins[s].nodes) == 0.0
  {
    forall k, m | 0 <= k < |f.cabins[s].nodes| && 0 <= m < |f.cabins[s].nodes[k].classes|
      ensures f.cabins[s].nodes[k].classes[m].bookings == 0.0
    {
      assert HasClass(f, s, k, m) && Class(f, s, k, m).bookings == 0.0;
    }
    NothingBooked(f.cabins[s].nodes);
  }

  /** A loaded flight is conserved, so every run may start from it. */
  lemma LoadedIsConserved(f: Flight, maxCapacity: real)
    requires Loaded(f, maxCapacity)
    ensures Conserved(f)
  {
    forall s | 0 <= s < |f.cabins|
      ensures TotalBookings(f.cabins[s].nodes) == 0.0
    {
      LoadedIsEmpty(f, maxCapacity, s);
    }
    forall l | 0 <= l < |f.legs|
      ensures LegConserved(f, l)
    {
      NoDemand(f.cabins, l);
    }
  }

  lemma {:induction false} NothingBookedInNode(cs: seq<ClassControl>)
    requires forall m :: 0 <= m < |cs| ==> cs[m].bookings == 0.0
    ensures Booked(cs) == 0.0
  {
    if cs == [] {
    } else {
      NothingBookedInNode(cs[1..]);
    }
  }

  lemma {:induction false} NothingBooked(ns: seq<Node>)
    requires forall k, m :: 0 <= k < |ns| && 0 <= m < |ns[k].classes| ==> ns[k].classes[m].bookings == 0.0
    ensures TotalBookings(ns) == 0.0
  {
    if ns == [] {
    } else {
      NothingBookedInNode(ns[0].classes);
      NothingBooked(ns[1..]);
    }
  }

  lemma {:induction false} NoDemand(cs: seq<Cabin>, l: nat)
    requires forall s :: 0 <= s < |cs| ==> TotalBookings(cs[s].nodes) == 0.0
    ensures Demand(cs, l) == 0.0
  {
    if cs == [] {
    } else {
      NoDemand(cs[..|cs| - 1], l);
    }
  }

  /** With fewer seats on every leg than the ceiling, the pool of a settled
      segment is the plain minimum of its legs' remaining seats; the ceiling
      shows exactly when all of them exceed it. */
  lemma PoolIsTheLeastRoom(f: Flight, ceiling: real, s: nat)
    requires Settled(f, ceiling) && s < |f.cabins|
    ensures var c := f.cabins[s];
            && c.pool <= ceiling
            && (forall l :: c.first <= l < c.last ==> c.pool <= f.legs[l].capacity - Demand(f.cabins, l))
            && ((exists l :: c.first <= l < c.last && c.pool == f.legs[l].capacity - Demand(f.cabins, l))
                <==> (exists l :: c.first <= l < c.last && f.legs[l].capacity - Demand(f.cabins, l) <= ceiling))
  {
    var c := f.cabins[s];
    assert CabinRefreshed(f, ceiling, s);
    var pools := LegPools(f.legs, c.first, c.last);
    LeastIsTheMinimum(pools, ceiling);
    forall l | c.first <= l < c.last
      ensures pools[l - c.first] == f.legs[l].capacity - Demand(f.cabins, l)
    {
      assert LegConserved(f, l);
    }
    if c.pool != ceiling {
      var i :| 0 <= i < |pools| && c.pool == pools[i];
      assert c.pool == f.legs[c.first + i].capacity - Demand(f.cabins, c.first + i);
    }
  }
}
