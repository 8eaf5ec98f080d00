/** Whole runs of a flight: sales, cancellations, optimisations and snapshots in
    any order. */
module FlightEvents {
  import opened NestedControls
  import opened BidPrices
  import opened BookingControls
  import opened Pools
  import opened FlightRuns
  import opened GuardedSales
  import opened LegLoads

  /** A reservation, an optimisation with the bid-price vectors it left on the
      legs, or a snapshot of some of the segment-cabins. */
  datatype Event =
    | Reserving(r: Reservation)
    | Optimising(vectors: seq<seq<real>>)
    | Watching(seen: set<nat>)

  /** Every leg of every segment has a bid price for each seat of its pool. */
  ghost predicate Priced(f: Flight, vectors: seq<seq<real>>)
    requires WellFormed(f)
  {
    && |vectors| == |f.legs|
    && forall s :: 0 <= s < |f.cabins| ==>
         LongEnough(vectors[f.cabins[s].first..f.cabins[s].last], SeatsOf(f.cabins[s].pool))
  }

  /** The pseudo bid prices of segment-cabin s. */
  ghost function PricesOf(f: Flight, vectors: seq<seq<real>>, s: nat): seq<real>
    requires WellFormed(f) && Priced(f, vectors) && s < |f.cabins|
  {
    PseudoVector(vectors[f.cabins[s].first..f.cabins[s].last], SeatsOf(f.cabins[s].pool))
  }

  /** A flight after an optimisation: new controls and availabilities. */
  ghost function Repriced(f: Flight, vectors: seq<seq<real>>): (g: Flight)
    requires WellFormed(f) && Priced(f, vectors)
  {
    f.(cabins := seq(|f.cabins|, s requires 0 <= s < |f.cabins| =>
      f.cabins[s].(nodes := Optimised(f.cabins[s].nodes, PricesOf(f, vectors, s), f.cabins[s].pool))))
  }

  /** A flight after a snapshot: the availabilities of the segment-cabins seen are
      brought up to date, and nothing else. */
  ghost function Watched(f: Flight, seen: set<nat>): (g: Flight)
    requires WellFormed(f)
  {
    f.(cabins := seq(|f.cabins|, s requires 0 <= s < |f.cabins| =>
      if s in seen then f.cabins[s].(nodes := Recalculated(f.cabins[s].nodes)) else f.cabins[s]))
  }

  ghost predicate Possible(f: Flight, e: Event)
    requires WellFormed(f)
  {
    match e
    case Reserving(r) => HasClass(f, r.s, r.k, r.m)
    case Optimising(vectors) => Priced(f, vectors)
    case Watching(_) => true
  }

  ghost function Apply(f: Flight, e: Event, ceiling: real): (g: Flight)
    requires WellFormed(f) && Possible(f, e)
  {
    match e
    case Reserving(r) => Step(f, r, ceiling)
    case Optimising(vectors) => Repriced(f, vectors)
    case Watching(seen) => Watched(f, seen)
  }

  // ------------------------------------------------------ what repricing keeps

  lemma OptimisedKeepsBookings(ns: seq<Node>, v: seq<real>, pool: real)
    requires WellNested(ns)
    ensures WellNested(Optimised(ns, v, pool)) && UniformAuthorization(Optimised(ns, v, pool))
    ensures Optimised(ns, v, pool) == Recalculated(Optimised(ns, v, pool))
    ensures TotalBookings(Optimised(ns, v, pool)) == TotalBookings(ns)
  {
    LimitedKeepsNesting(ns, v, pool);
    var l := Limited(ns, v, pool);
    AuthorizedKeepsNesting(l);
    var a := Authorized(l);
    RecalculatedIsStable(a);
    RecalculatedKeepsNesting(a);
    SameTotalBookings(ns, l);
    SameTotalBookings(l, a);
    SameTotalBookings(a, Recalculated(a));
    RecalculatedKeepsUniform(a);
  }

  /** An optimisation keeps counters, and everything outside the nesting. */
  lemma OptimisedKeepsClass(ns: seq<Node>, v: seq<real>, pool: real, k: nat, m: nat)
    requires WellNested(ns) && k < |ns| && m < |ns[k].classes|
    ensures |Optimised(ns, v, pool)| == |ns| && |Optimised(ns, v, pool)[k].classes| == |ns[k].classes|
    ensures Optimised(ns, v, pool)[k].yld == ns[k].yld
    ensures var x, y := ns[k].classes[m], Optimised(ns, v, pool)[k].classes[m];
            && y.bookings == x.bookings && y.cancellations == x.cancellations
            && (ns[k].yld < 0.0 ==> y == x)
  {
    LimitedKeepsNesting(ns, v, pool);
    var l := Limited(ns, v, pool);
    LimitedNode(ns, v, pool, k, m);
    AuthorizedKeepsNesting(l);
    AuthorizedNode(l, k, m);
    RecalculatedNode(Authorized(l), k, m);
  }

  lemma RepricedKeepsClass(f: Flight, vectors: seq<seq<real>>, s: nat, k: nat, m: nat)
    requires WellFormed(f) && Priced(f, vectors)
    ensures HasClass(Repriced(f, vectors), s, k, m) <==> HasClass(f, s, k, m)
    ensures HasClass(f, s, k, m) ==>
      && (Nested(Repriced(f, vectors), s, k) <==> Nested(f, s, k))
      && Class(Repriced(f, vectors), s, k, m).bookings == Class(f, s, k, m).bookings
      && Class(Repriced(f, vectors), s, k, m).cancellations == Class(f, s, k, m).cancellations
      && (!Nested(f, s, k) ==> Class(Repriced(f, vectors), s, k, m) == Class(f, s, k, m))
  {
    if s < |f.cabins| && k < |f.cabins[s].nodes| {
      var ns := f.cabins[s].nodes;
      OptimisedKeepsClass(ns, PricesOf(f, vectors, s), f.cabins[s].pool, k, 0);
      if m < |ns[k].classes| {
        OptimisedKeepsClass(ns, PricesOf(f, vectors, s), f.cabins[s].pool, k, m);
      }
    }
  }

  lemma RepricedIsWellFormed(f: Flight, vectors: seq<seq<real>>)
    requires WellFormed(f) && Priced(f, vectors)
    ensures WellFormed(Repriced(f, vectors))
  {
    forall s | 0 <= s < |f.cabins|
      ensures WellNested(Repriced(f, vectors).cabins[s].nodes)
      ensures UniformAuthorization(Repriced(f, vectors).cabins[s].nodes)
    {
      OptimisedKeepsBookings(f.cabins[s].nodes, PricesOf(f, vectors, s), f.cabins[s].pool);
    }
  }

  /** An optimisation in the middle of a run keeps the flight conserved, and
      settled where it was. */
  lemma OptimisationConserves(f: Flight, vectors: seq<seq<real>>, ceiling: real)
    requires Conserved(f) && Priced(f, vectors)
    ensures Conserved(Repriced(f, vectors))
    ensures Settled(f, ceiling) ==> Settled(Repriced(f, vectors), ceiling)
  {
    var g := Repriced(f, vectors);
    RepricedIsWellFormed(f, vectors);
    forall s | 0 <= s < |f.cabins|
      ensures g.cabins[s].nodes == Recalculated(g.cabins[s].nodes)
      ensures TotalBookings(g.cabins[s].nodes) == TotalBookings(f.cabins[s].nodes)
    {
      OptimisedKeepsBookings(f.cabins[s].nodes, PricesOf(f, vectors, s), f.cabins[s].pool);
    }
    forall l | 0 <= l < |f.legs|
      ensures LegConserved(g, l)
    {
      assert LegConserved(f, l);
      DemandShift(f.cabins, g.cabins, -1, 0.0, l);
    }
    if Settled(f, ceiling) {
      forall s | 0 <= s < |f.cabins|
        ensures CabinRefreshed(g, ceiling, s)
      {
        assert CabinRefreshed(f, ceiling, s);
      }
    }
  }

  // ------------------------------------------------------ what a snapshot keeps

  lemma WatchedIsWellFormed(f: Flight, seen: set<nat>)
    requires WellFormed(f)
    ensures WellFormed(Watched(f, seen))
  {
    forall s | 0 <= s < |f.cabins|
      ensures WellNested(Watched(f, seen).cabins[s].nodes)
      ensures UniformAuthorization(Watched(f, seen).cabins[s].nodes)
    {
      RecalculatedKeepsNesting(f.cabins[s].nodes);
      RecalculatedKeepsUniform(f.cabins[s].nodes);
    }
  }

  /** A snapshot keeps all counters, levels and limits, what the nodes can sell, and
      what is shown outside the nesting. */
  lemma WatchedKeepsClass(f: Flight, seen: set<nat>, s: nat, k: nat, m: nat)
    requires WellFormed(f)
    ensures HasClass(Watched(f, seen), s, k, m) <==> HasClass(f, s, k, m)
    ensures HasClass(f, s, k, m) ==>
      && (Nested(Watched(f, seen), s, k) <==> Nested(f, s, k))
      && var x, y := Class(f, s, k, m), Class(Watched(f, seen), s, k, m);
         && y == x.(availability := y.availability) && (!Nested(f, s, k) ==> y == x)
  {
    if s < |f.cabins| && k < |f.cabins[s].nodes| {
      RecalculatedNode(f.cabins[s].nodes, k, 0);
      if m < |f.cabins[s].nodes[k].classes| {
        RecalculatedNode(f.cabins[s].nodes, k, m);
      }
    }
  }

  lemma SnapshotConserves(f: Flight, seen: set<nat>, ceiling: real)
    requires Conserved(f)
    ensures Conserved(Watched(f, seen))
    ensures Settled(f, ceiling) ==> Settled(Watched(f, seen), ceiling)
  {
    var g := Watched(f, seen);
    WatchedIsWellFormed(f, seen);
    forall s | 0 <= s < |f.cabins|
      ensures TotalBookings(g.cabins[s].nodes) == TotalBookings(f.cabins[s].nodes)
    {
      RecalculatedKeepsNesting(f.cabins[s].nodes);
      SameTotalBookings(f.cabins[s].nodes, Recalculated(f.cabins[s].nodes));
    }
    forall l | 0 <= l < |f.legs|
      ensures LegConserved(g, l)
    {
      assert LegConserved(f, l);
      DemandShift(f.cabins, g.cabins, -1, 0.0, l);
    }
    if Settled(f, ceiling) {
      forall s | 0 <= s < |f.cabins|
        ensures CabinRefreshed(g, ceiling, s)
      {
        assert CabinRefreshed(f, ceiling, s);
      }
    }
  }

  // --------------------------------------------------------------------- runs

  lemma ApplyIsWellFormed(f: Flight, e: Event, ceiling: real)
    requires WellFormed(f) && Possible(f, e)
    ensures WellFormed(Apply(f, e, ceiling))
  {
    match e
    case Reserving(r) => StepKeepsShape(f, r, ceiling);
    case Optimising(vectors) => RepricedIsWellFormed(f, vectors);
    case Watching(seen) => WatchedIsWellFormed(f, seen);
  }

  /** Every event is possible when it comes. */
  ghost predicate AllPossible(f: Flight, es: seq<Event>, ceiling: real)
    requires WellFormed(f)
    decreases |es|
  {
    es != [] ==>
      && Possible(f, es[0])
      && (ApplyIsWellFormed(f, es[0], ceiling); AllPossible(Apply(f, es[0], ceiling), es[1..], ceiling))
  }

  ghost function AfterEvents(f: Flight, es: seq<Event>, ceiling: real): Flight
    requires WellFormed(f) && AllPossible(f, es, ceiling)
    decreases |es|
  {
    if es == [] then f
    else
      ApplyIsWellFormed(f, es[0], ceiling);
      AfterEvents(Apply(f, es[0], ceiling), es[1..], ceiling)
  }

  /** Conservation over sales, cancellations, optimisations and snapshots in any
      order; from the first reservation on, pools and availabilities are up to date
      as well. */
  lemma {:induction false} EventsConserve(f: Flight, es: seq<Event>, ceiling: real)
    requires Conserved(f) && AllPossible(f, es, ceiling)
    ensures Conserved(AfterEvents(f, es, ceiling))
    ensures Settled(f, ceiling) || (exists i :: 0 <= i < |es| && es[i].Reserving?) ==>
              Settled(AfterEvents(f, es, ceiling), ceiling)
    decreases |es|
  {
    if es == [] {
    } else {
      var g := Apply(f, es[0], ceiling);
      match es[0] {
        case Reserving(r) => StepSettles(f, r, ceiling);
        case Optimising(vectors) => OptimisationConserves(f, vectors, ceiling);
        case Watching(seen) => SnapshotConserves(f, seen, ceiling);
      }
      EventsConserve(g, es[1..], ceiling);
      if i :| 0 <= i < |es| && es[i].Reserving? {
        assert i > 0 ==> es[1..][i - 1] == es[i];
      }
    }
  }

  // --------------------------------------------------- availability and pools

  lemma LimitsFollowThePool(v: seq<real>, pool: real, yld: real)
    requires FitsPool(v, pool)
    ensures BookingLimit(v, pool, yld) >= 0.0 <==> pool >= 0.0
    ensures BookingLimit(v, pool, yld) <= pool
  {
    LimitsFollowYield(v, pool, yld, yld);
  }

  /** What an optimisation leaves on a nested class: it shows what its node can
      sell, within the pool of its segment-cabin, and a seat count that is not
      negative if and only if the pool is not. */
  lemma OptimisedShowsThePool(f: Flight, vectors: seq<seq<real>>, s: nat, k: nat, m: nat)
    requires WellFormed(f) && Priced(f, vectors) && HasClass(f, s, k, m) && Nested(f, s, k)
    ensures HasClass(Repriced(f, vectors), s, k, m) && WellFormed(Repriced(f, vectors))
    ensures var shown := Class(Repriced(f, vectors), s, k, m).availability;
            && shown == NestedAvailability(Repriced(f, vectors).cabins[s].nodes, k) <= f.cabins[s].pool
            && (shown >= 0.0 <==> f.cabins[s].pool >= 0.0)
  {
    var c, v := f.cabins[s], PricesOf(f, vectors, s);
    RepricedIsWellFormed(f, vectors);
    RepricedKeepsClass(f, vectors, s, k, m);
    PseudoVectorFits(vectors[c.first..c.last], c.pool);
    OptimisedAvailability(c.nodes, v, c.pool, k, m);
    LimitsFollowThePool(v, c.pool, c.nodes[k].yld);
    OptimisedKeepsBookings(c.nodes, v, c.pool);
    ShownAvailability(Repriced(f, vectors), s, k, m);
  }

  /** After an optimisation no availability is negative if and only if no pool of
      a segment-cabin with a nested class is. */
  lemma OptimisationShowsNoNegativeIff(f: Flight, vectors: seq<seq<real>>)
    requires WellFormed(f) && Priced(f, vectors)
    ensures NoNegativeAvailability(Repriced(f, vectors))
       <==> forall s :: 0 <= s < |f.cabins| && HasTop(f, s) ==> f.cabins[s].pool >= 0.0
  {
    var g := Repriced(f, vectors);
    if NoNegativeAvailability(g) {
      forall s | 0 <= s < |f.cabins| && HasTop(f, s)
        ensures f.cabins[s].pool >= 0.0
      {
        RepricedKeepsClass(f, vectors, s, 0, 0);
        OptimisedShowsThePool(f, vectors, s, 0, 0);
        assert HasClass(g, s, 0, 0) && Nested(g, s, 0);
      }
    }
    if forall s :: 0 <= s < |f.cabins| && HasTop(f, s) ==> f.cabins[s].pool >= 0.0 {
      forall s: nat, k: nat, m | HasClass(g, s, k, m) && Nested(g, s, k)
        ensures Class(g, s, k, m).availability >= 0.0
      {
        RepricedKeepsClass(f, vectors, s, k, m);
        OptimisedShowsThePool(f, vectors, s, k, m);
        assert k == 0 || f.cabins[s].nodes[0].yld > f.cabins[s].nodes[k].yld;
        assert HasTop(f, s);
      }
    }
  }

  // ------------------------------------------------- guarded runs of all events

  /** Every reservation of the run is allowed at its moment. */
  ghost predicate GuardedEvents(f: Flight, es: seq<Event>, ceiling: real)
    requires WellFormed(f) && AllPossible(f, es, ceiling)
    decreases |es|
  {
    es != [] ==>
      && (es[0].Reserving? ==> Allowed(f, es[0].r))
      && (ApplyIsWellFormed(f, es[0], ceiling); GuardedEvents(Apply(f, es[0], ceiling), es[1..], ceiling))
  }

  /** Whatever is sold under the guard, a following optimisation shows no
      negative availability. */
  ghost predicate SafeToOptimise(f: Flight, ceiling: real)
    requires WellFormed(f)
  {
    forall rs: seq<Reservation>, vectors: seq<seq<real>>
      | OnFlight(f, rs) && Guarded(f, rs, ceiling)
        && WellFormed(Run(f, rs, ceiling)) && Priced(Run(f, rs, ceiling), vectors) ::
      NoNegativeAvailability(Repriced(Run(f, rs, ceiling), vectors))
  }

  /** Bid-price vectors of n zeroes. */
  ghost function Free(legs: nat, n: nat): (vs: seq<seq<real>>)
    ensures |vs| == legs && forall l :: 0 <= l < legs ==> |vs[l]| == n
  {
    seq(legs, _ => seq(n, _ => 0.0))
  }

  ghost function MostSeats(cs: seq<Cabin>): (n: nat)
    ensures forall s :: 0 <= s < |cs| ==> SeatsOf(cs[s].pool) <= n
  {
    if cs == [] then 0
    else
      var rest := MostSeats(cs[..|cs| - 1]);
      if SeatsOf(cs[|cs| - 1].pool) > rest then SeatsOf(cs[|cs| - 1].pool) else rest
  }

  /** The pool of a settled segment-cabin is within that of each leg it crosses. */
  lemma PoolWithinLeg(f: Flight, ceiling: real, s: nat, l: nat)
    requires Settled(f, ceiling) && s < |f.cabins| && Crosses(f.cabins[s], l)
    ensures l < |f.legs| && f.cabins[s].pool <= f.legs[l].pool
  {
    var c := f.cabins[s];
    assert CabinRefreshed(f, ceiling, s);
    var pools := LegPools(f.legs, c.first, c.last);
    LeastIsTheMinimum(pools, ceiling);
    assert pools[l - c.first] == f.legs[l].pool;
  }

  lemma PoolIsNotNegative(f: Flight, ceiling: real, s: nat)
    requires Settled(f, ceiling) && s < |f.cabins| && ceiling >= 0.0
    requires forall l :: 0 <= l < |f.legs| && Crosses(f.cabins[s], l) ==> f.legs[l].pool >= 0.0
    ensures f.cabins[s].pool >= 0.0
  {
    var c := f.cabins[s];
    assert CabinRefreshed(f, ceiling, s);
    var pools := LegPools(f.legs, c.first, c.last);
    LeastIsTheMinimum(pools, ceiling);
    if c.pool != ceiling {
      var i :| 0 <= i < |pools| && c.pool == pools[i];
      assert pools[i] == f.legs[c.first + i].pool;
    }
  }

  lemma RunKeepsTops(f: Flight, rs: seq<Reservation>, ceiling: real, s: nat)
    requires WellFormed(f) && OnFlight(f, rs) && s < |f.cabins|
    ensures HasTop(Run(f, rs, ceiling), s) <==> HasTop(f, s)
  {
    var g := Run(f, rs, ceiling);
    RunKeepsShape(f, rs, ceiling);
    assert SameNesting(f.cabins[s].nodes, g.cabins[s].nodes);
    if f.cabins[s].nodes != [] {
      assert SameNode(f.cabins[s].nodes[0], g.cabins[s].nodes[0]);
    }
  }

  /** The flight after some reservations, optimised with bid prices of zero. */
  ghost function FreelyPriced(f: Flight): (vectors: seq<seq<real>>)
    requires WellFormed(f)
    ensures Priced(f, vectors)
  {
    Free(|f.legs|, MostSeats(f.cabins))
  }

  /** A run that overbooks a leg leaves, once optimised, a negative availability on
      the segments that cross it. */
  lemma OverbookedLegShows(f: Flight, rs: seq<Reservation>, ceiling: real, s: nat, l: nat)
    requires Conserved(f) && rs != [] && OnFlight(f, rs) && HasTop(f, s) && Crosses(f.cabins[s], l)
    requires l < |Run(f, rs, ceiling).legs| && Run(f, rs, ceiling).legs[l].pool < 0.0
    ensures WellFormed(Run(f, rs, ceiling))
    ensures !NoNegativeAvailability(Repriced(Run(f, rs, ceiling), FreelyPriced(Run(f, rs, ceiling))))
  {
    var g := Run(f, rs, ceiling);
    RunSettles(f, rs, ceiling);
    RunKeepsShape(f, rs, ceiling);
    RunKeepsTops(f, rs, ceiling, s);
    PoolWithinLeg(g, ceiling, s, l);
    OptimisationShowsNoNegativeIff(g, FreelyPriced(g));
  }

  /** Every segment-cabin with a nested class has a pool that is not negative. */
  ghost predicate PoolsAreOpen(f: Flight) {
    forall s :: 0 <= s < |f.cabins| && HasTop(f, s) ==> f.cabins[s].pool >= 0.0
  }

  /** Guarded runs overbook no leg of a segment that has a nested class. */
  ghost predicate LegsStayOpen(f: Flight, ceiling: real)
    requires WellFormed(f)
  {
    forall s, l :: 0 <= s < |f.cabins| && 0 <= l < |f.legs| && HasTop(f, s) && Crosses(f.cabins[s], l) ==>
      NeverOverbooked(f, ceiling, l)
  }

  lemma SafePools(f: Flight, ceiling: real)
    requires WellFormed(f) && SafeToOptimise(f, ceiling)
    ensures PoolsAreOpen(f)
  {
    assert OnFlight(f, []) && Guarded(f, [], ceiling) && Run(f, [], ceiling) == f;
    assert NoNegativeAvailability(Repriced(f, FreelyPriced(f)));
    OptimisationShowsNoNegativeIff(f, FreelyPriced(f));
  }

  /** An empty cancellation makes no difference to the legs of a conserved flight. */
  lemma EmptyCancellationKeepsLegs(f: Flight, ceiling: real, s: nat, l: nat)
    requires Conserved(f) && HasTop(f, s) && l < |f.legs|
    ensures OnFlight(f, [Cancellation(s, 0, 0, 0)]) && Guarded(f, [Cancellation(s, 0, 0, 0)], ceiling)
    ensures l < |Run(f, [Cancellation(s, 0, 0, 0)], ceiling).legs|
    ensures Run(f, [Cancellation(s, 0, 0, 0)], ceiling).legs[l].pool == f.legs[l].pool
  {
    var e := Cancellation(s, 0, 0, 0);
    StepKeepsShape(f, e, ceiling);
    SaleBeforePlan(f, e, [], ceiling);
    assert [e] + [] == [e];
    assert LegConserved(f, l);
  }

  /** A guarded run that overbooks a leg of a segment with a nested class. */
  lemma OverbookingIsUnsafe(f: Flight, ceiling: real, s: nat, l: nat, rs: seq<Reservation>)
    requires Conserved(f) && HasTop(f, s) && l < |f.legs| && Crosses(f.cabins[s], l)
    requires OnFlight(f, rs) && Guarded(f, rs, ceiling)
    requires l < |Run(f, rs, ceiling).legs| && Run(f, rs, ceiling).legs[l].pool < 0.0
    ensures !SafeToOptimise(f, ceiling)
  {
    EmptyCancellationKeepsLegs(f, ceiling, s, l);
    var ds := if rs == [] then [Cancellation(s, 0, 0, 0)] else rs;
    OverbookedLegShows(f, ds, ceiling, s, l);
    var g := Run(f, ds, ceiling);
    assert Priced(g, FreelyPriced(g)) && !NoNegativeAvailability(Repriced(g, FreelyPriced(g)));
  }

  /** Under non-negative pools of legs and segments an optimisation is safe. */
  lemma OpenRunIsSafe(f: Flight, ceiling: real, rs: seq<Reservation>)
    requires Conserved(f) && ceiling >= 0.0 && PoolsAreOpen(f) && LegsStayOpen(f, ceiling)
    requires OnFlight(f, rs) && Guarded(f, rs, ceiling)
    ensures PoolsAreOpen(Run(f, rs, ceiling))
  {
    var g := Run(f, rs, ceiling);
    if rs != [] {
      RunSettles(f, rs, ceiling);
      RunKeepsShape(f, rs, ceiling);
      forall s | 0 <= s < |g.cabins| && HasTop(g, s)
        ensures g.cabins[s].pool >= 0.0
      {
        RunKeepsTops(f, rs, ceiling, s);
        forall l | 0 <= l < |g.legs| && Crosses(g.cabins[s], l)
          ensures g.legs[l].pool >= 0.0
        {
          assert NeverOverbooked(f, ceiling, l);
        }
        PoolIsNotNegative(g, ceiling, s);
      }
    }
  }

  /** Guarded sales can be followed by an optimisation without a negative
      availability exactly when the pools are open to begin with and guarded runs
      overbook no leg of a segment that has a nested class. */
  lemma SafeToOptimiseIff(f: Flight, ceiling: real)
    requires Conserved(f) && ceiling >= 0.0
    ensures SafeToOptimise(f, ceiling) <==> PoolsAreOpen(f) && LegsStayOpen(f, ceiling)
  {
    if SafeToOptimise(f, ceiling) {
      SafePools(f, ceiling);
      forall s, l | 0 <= s < |f.cabins| && 0 <= l < |f.legs| && HasTop(f, s) && Crosses(f.cabins[s], l)
        ensures NeverOverbooked(f, ceiling, l)
      {
        forall rs: seq<Reservation> | OnFlight(f, rs) && Guarded(f, rs, ceiling)
          ensures l < |Run(f, rs, ceiling).legs| && Run(f, rs, ceiling).legs[l].pool >= 0.0
        {
          RunKeepsShape(f, rs, ceiling);
          if Run(f, rs, ceiling).legs[l].pool < 0.0 {
            OverbookingIsUnsafe(f, ceiling, s, l, rs);
          }
        }
      }
    }
    if PoolsAreOpen(f) && LegsStayOpen(f, ceiling) {
      forall rs: seq<Reservation>, vectors: seq<seq<real>>
        | OnFlight(f, rs) && Guarded(f, rs, ceiling)
          && WellFormed(Run(f, rs, ceiling)) && Priced(Run(f, rs, ceiling), vectors)
        ensures NoNegativeAvailability(Repriced(Run(f, rs, ceiling), vectors))
      {
        OpenRunIsSafe(f, ceiling, rs);
        OptimisationShowsNoNegativeIff(Run(f, rs, ceiling), vectors);
      }
    }
  }

  /** On every leg of a segment with a nested class, classes of negative yield are
      closed, and the seats that the nestings crossing it can sell fit it together. */
  ghost predicate SeatsFitLegs(f: Flight) {
    forall s, l :: 0 <= s < |f.cabins| && 0 <= l < |f.legs| && HasTop(f, s) && Crosses(f.cabins[s], l) ==>
      SeatsFit(f, l)
  }

  /** The same in terms of what the flight shows. */
  lemma SafeToOptimiseIffSeatsFit(f: Flight, ceiling: real)
    requires Conserved(f) && Honest(f) && ceiling >= 0.0
    ensures SafeToOptimise(f, ceiling) <==> PoolsAreOpen(f) && SeatsFitLegs(f)
  {
    SafeToOptimiseIff(f, ceiling);
    assert LegsStayOpen(f, ceiling) <==> SeatsFitLegs(f) by {
      forall l | 0 <= l < |f.legs|
        ensures NeverOverbooked(f, ceiling, l) <==> SeatsFit(f, l)
      {
        NeverOverbookedIffSeatsFit(f, ceiling, l);
      }
    }
  }

  lemma {:induction false} SeatsAreNotNegative(f: Flight, n: nat, l: nat)
    requires Honest(f) && n <= |f.cabins|
    ensures SeatsOver(f, n, l) >= 0
    decreases |f.cabins| - n
  {
    if n == |f.cabins| {
    } else {
      if HasTop(f, n) {
        TopCanSellItsRoom(f, n);
      }
      SeatsAreNotNegative(f, n + 1, l);
    }
  }

  /** On a flight that is up to date and shows no negative availability, seats that
      fit the legs leave the pools open: only they decide. */
  lemma SettledSafeToOptimiseIff(f: Flight, ceiling: real)
    requires Settled(f, ceiling) && NoNegativeAvailability(f) && ceiling >= 0.0
    ensures SafeToOptimise(f, ceiling) <==> SeatsFitLegs(f)
  {
    SettledIsHonest(f, ceiling);
    SafeToOptimiseIffSeatsFit(f, ceiling);
    if SeatsFitLegs(f) {
      forall s | 0 <= s < |f.cabins| && HasTop(f, s)
        ensures f.cabins[s].pool >= 0.0
      {
        forall l | 0 <= l < |f.legs| && Crosses(f.cabins[s], l)
          ensures f.legs[l].pool >= 0.0
        {
          assert SeatsFit(f, l);
          SeatsAreNotNegative(f, 0, l);
        }
        PoolIsNotNegative(f, ceiling, s);
      }
    }
  }

  // --------------------------------------------------- flights that stay safe

  /** No leg is crossed by two segments, as on a flight of a single leg. */
  ghost predicate Unshared(f: Flight) {
    forall s, t, l: nat :: 0 <= s < |f.cabins| && 0 <= t < |f.cabins| && s != t ==>
      !(Crosses(f.cabins[s], l) && Crosses(f.cabins[t], l))
  }

  lemma SameRoutesUnshared(f: Flight, g: Flight)
    requires Unshared(f) && |f.cabins| == |g.cabins|
    requires forall s :: 0 <= s < |f.cabins| ==>
      f.cabins[s].first == g.cabins[s].first && f.cabins[s].last == g.cabins[s].last
    ensures Unshared(g)
  {
    forall s, t, l: nat | 0 <= s < |f.cabins| && 0 <= t < |f.cabins| && s != t
      ensures !(Crosses(g.cabins[s], l) && Crosses(g.cabins[t], l))
    {
      assert Crosses(f.cabins[s], l) <==> Crosses(g.cabins[s], l);
      assert Crosses(f.cabins[t], l) <==> Crosses(g.cabins[t], l);
    }
  }

  /** What guarded events keep on such a flight. */
  ghost predicate Safe(f: Flight) {
    && Conserved(f) && Honest(f)
    && (forall l :: 0 <= l < |f.legs| ==> f.legs[l].pool >= 0.0)
    && (forall s :: 0 <= s < |f.cabins| ==> CabinSafe(f, s))
  }

  ghost predicate CabinSafe(f: Flight, s: nat)
    requires s < |f.cabins|
  {
    && ClosedOutside(f, s) && f.cabins[s].pool >= 0.0
    && forall l: nat :: l < |f.legs| && Crosses(f.cabins[s], l) ==>
         f.cabins[s].pool <= f.legs[l].pool && (HasTop(f, s) ==> Room(f, s) <= f.legs[l].pool)
  }

  /** An allowed sale asks for no more than the legs of its segment have left. */
  lemma AllowedFitsLegs(f: Flight, e: Reservation, l: nat)
    requires Safe(f) && HasClass(f, e.s, e.k, e.m) && Allowed(f, e)
    requires l < |f.legs| && Crosses(f.cabins[e.s], l)
    ensures e.Net() <= f.legs[l].pool
    ensures !Nested(f, e.s, e.k) ==> e.Net() <= 0.0
  {
    assert CabinSafe(f, e.s);
    var ns := f.cabins[e.s].nodes;
    if Nested(f, e.s, e.k) {
      assert e.k == 0 || ns[0].yld > ns[e.k].yld;
      assert HasClass(f, e.s, 0, 0) && Nested(f, e.s, 0);
      AvailabilityFollowsYield(ns, 0, e.k);
      assert NestedAvailability(ns, 0) == Gap(ns, 0) == Room(f, e.s);
      assert Class(f, e.s, e.k, e.m).availability <= NestedAvailability(ns, e.k);
    } else {
      assert Class(f, e.s, e.k, e.m).availability < 1.0;
    }
  }

  lemma StepKeepsRoom(f: Flight, e: Reservation, ceiling: real, s: nat)
    requires WellFormed(f) && HasClass(f, e.s, e.k, e.m) && s < |f.cabins|
    ensures HasTop(Step(f, e, ceiling), s) <==> HasTop(f, s)
    ensures HasTop(f, s) ==>
      Room(Step(f, e, ceiling), s) == Room(f, s) - (if s == e.s && Nested(f, s, e.k) then e.Net() else 0.0)
  {
    var g := Step(f, e, ceiling);
    StepKeepsShape(f, e, ceiling);
    StepShiftsNested(f, e, ceiling, s);
    assert SameNesting(f.cabins[s].nodes, g.cabins[s].nodes);
    if f.cabins[s].nodes != [] {
      StepNode(f, e, ceiling, s, 0);
    }
  }

  lemma LegStaysSafe(f: Flight, e: Reservation, ceiling: real, l: nat)
    requires Safe(f) && HasClass(f, e.s, e.k, e.m) && Allowed(f, e) && l < |f.legs|
    ensures Step(f, e, ceiling).legs[l].pool
         == f.legs[l].pool - (if Crosses(f.cabins[e.s], l) then e.Net() else 0.0) >= 0.0
  {
    assert LegConserved(f, l);
    if Crosses(f.cabins[e.s], l) {
      AllowedFitsLegs(f, e, l);
    }
  }

  lemma ReservationStaysSafe(f: Flight, e: Reservation, ceiling: real)
    requires Safe(f) && Unshared(f) && HasClass(f, e.s, e.k, e.m) && Allowed(f, e) && ceiling >= 0.0
    ensures Safe(Step(f, e, ceiling)) && Unshared(Step(f, e, ceiling))
  {
    var g := Step(f, e, ceiling);
    StepSettles(f, e, ceiling);
    GuardedStepStaysHonest(f, e, ceiling);
    forall l | 0 <= l < |f.legs|
      ensures g.legs[l].pool == f.legs[l].pool - (if Crosses(f.cabins[e.s], l) then e.Net() else 0.0) >= 0.0
    {
      LegStaysSafe(f, e, ceiling, l);
    }
    forall s | 0 <= s < |f.cabins|
      ensures CabinSafe(g, s)
    {
      CabinStaysSafe(f, e, ceiling, s);
    }
    SameRoutesUnshared(f, g);
  }

  lemma CabinStaysSafe(f: Flight, e: Reservation, ceiling: real, s: nat)
    requires Safe(f) && Unshared(f) && HasClass(f, e.s, e.k, e.m) && Allowed(f, e) && ceiling >= 0.0
    requires s < |f.cabins| && Settled(Step(f, e, ceiling), ceiling)
    requires forall l :: 0 <= l < |f.legs| ==>
      Step(f, e, ceiling).legs[l].pool == f.legs[l].pool - (if Crosses(f.cabins[e.s], l) then e.Net() else 0.0) >= 0.0
    ensures CabinSafe(Step(f, e, ceiling), s)
  {
    var g := Step(f, e, ceiling);
    assert CabinSafe(f, s);
    ClosedStep(f, e, ceiling, s);
    PoolIsNotNegative(g, ceiling, s);
    StepKeepsRoom(f, e, ceiling, s);
    forall l: nat | l < |f.legs| && Crosses(f.cabins[s], l)
      ensures g.cabins[s].pool <= g.legs[l].pool
      ensures HasTop(g, s) ==> Room(g, s) <= g.legs[l].pool
    {
      PoolWithinLeg(g, ceiling, s, l);
      if s == e.s {
        AllowedFitsLegs(f, e, l);
      }
    }
  }

  lemma OptimisationStaysSafe(f: Flight, vectors: seq<seq<real>>, ceiling: real)
    requires Safe(f) && Unshared(f) && Priced(f, vectors)
    ensures Safe(Repriced(f, vectors)) && Unshared(Repriced(f, vectors))
  {
    var g := Repriced(f, vectors);
    OptimisationConserves(f, vectors, ceiling);
    SameRoutesUnshared(f, g);
    forall s: nat, k: nat, m | HasClass(g, s, k, m) && Nested(g, s, k)
      ensures NestedAvailability(g.cabins[s].nodes, k) >= 0.0
      ensures Class(g, s, k, m).availability <= NestedAvailability(g.cabins[s].nodes, k)
    {
      RepricedKeepsClass(f, vectors, s, k, m);
      assert CabinSafe(f, s);
      OptimisedShowsThePool(f, vectors, s, k, m);
    }
    forall s | 0 <= s < |f.cabins|
      ensures CabinSafe(g, s)
    {
      RepricedCabinIsSafe(f, vectors, s);
    }
  }

  lemma RepricedKeepsTop(f: Flight, vectors: seq<seq<real>>, s: nat)
    requires WellFormed(f) && Priced(f, vectors) && HasTop(Repriced(f, vectors), s)
    ensures HasTop(f, s)
  {
    RepricedKeepsClass(f, vectors, s, 0, 0);
  }

  lemma RepricedStaysClosed(f: Flight, vectors: seq<seq<real>>, s: nat)
    requires WellFormed(f) && Priced(f, vectors) && s < |f.cabins| && ClosedOutside(f, s)
    ensures ClosedOutside(Repriced(f, vectors), s)
  {
    var g := Repriced(f, vectors);
    forall k, m | HasClass(g, s, k, m) && !Nested(g, s, k)
      ensures Class(g, s, k, m).availability < 1.0
    {
      RepricedKeepsClass(f, vectors, s, k, m);
    }
  }

  lemma RepricedCabinIsSafe(f: Flight, vectors: seq<seq<real>>, s: nat)
    requires Safe(f) && Priced(f, vectors) && s < |f.cabins|
    ensures CabinSafe(Repriced(f, vectors), s)
  {
    var g := Repriced(f, vectors);
    assert CabinSafe(f, s);
    RepricedStaysClosed(f, vectors, s);
    if HasTop(g, s) {
      RepricedKeepsTop(f, vectors, s);
      OptimisedShowsThePool(f, vectors, s, 0, 0);
      assert NestedAvailability(g.cabins[s].nodes, 0) == Gap(g.cabins[s].nodes, 0);
    }
  }

  /** What a nested node can sell does not change by showing it. */
  lemma WatchedSells(f: Flight, seen: set<nat>, s: nat, k: nat, m: nat)
    requires WellFormed(f) && HasClass(f, s, k, m) && Nested(f, s, k)
    ensures WellFormed(Watched(f, seen)) && HasClass(Watched(f, seen), s, k, m)
    ensures NestedAvailability(Watched(f, seen).cabins[s].nodes, k) == NestedAvailability(f.cabins[s].nodes, k)
    ensures var shown := Class(Watched(f, seen), s, k, m).availability;
            shown == if s in seen then NestedAvailability(f.cabins[s].nodes, k) else Class(f, s, k, m).availability
  {
    var ns := f.cabins[s].nodes;
    WatchedIsWellFormed(f, seen);
    WatchedKeepsClass(f, seen, s, k, m);
    RecalculatedKeepsNesting(ns);
    SameNestedAvailability(ns, Recalculated(ns), k);
    RecalculatedNode(ns, k, m);
  }

  lemma WatchedStaysClosed(f: Flight, seen: set<nat>, s: nat)
    requires WellFormed(f) && s < |f.cabins| && ClosedOutside(f, s)
    ensures ClosedOutside(Watched(f, seen), s)
  {
    var g := Watched(f, seen);
    forall k, m | HasClass(g, s, k, m) && !Nested(g, s, k)
      ensures Class(g, s, k, m).availability < 1.0
    {
      WatchedKeepsClass(f, seen, s, k, m);
    }
  }

  lemma WatchedCabinIsSafe(f: Flight, seen: set<nat>, s: nat)
    requires Safe(f) && s < |f.cabins|
    ensures CabinSafe(Watched(f, seen), s)
  {
    var g := Watched(f, seen);
    assert CabinSafe(f, s);
    WatchedStaysClosed(f, seen, s);
    if HasTop(g, s) {
      WatchedKeepsClass(f, seen, s, 0, 0);
      WatchedSells(f, seen, s, 0, 0);
      assert NestedAvailability(g.cabins[s].nodes, 0) == Gap(g.cabins[s].nodes, 0);
      assert NestedAvailability(f.cabins[s].nodes, 0) == Gap(f.cabins[s].nodes, 0);
    }
  }

  lemma SnapshotStaysSafe(f: Flight, seen: set<nat>, ceiling: real)
    requires Safe(f) && Unshared(f)
    ensures Safe(Watched(f, seen)) && Unshared(Watched(f, seen))
  {
    var g := Watched(f, seen);
    SnapshotConserves(f, seen, ceiling);
    SameRoutesUnshared(f, g);
    forall s: nat, k: nat, m | HasClass(g, s, k, m) && Nested(g, s, k)
      ensures NestedAvailability(g.cabins[s].nodes, k) >= 0.0
      ensures Class(g, s, k, m).availability <= NestedAvailability(g.cabins[s].nodes, k)
    {
      WatchedKeepsClass(f, seen, s, k, m);
      assert Class(f, s, k, m).availability <= NestedAvailability(f.cabins[s].nodes, k);
      WatchedSells(f, seen, s, k, m);
    }
    forall s | 0 <= s < |f.cabins|
      ensures CabinSafe(g, s)
    {
      WatchedCabinIsSafe(f, seen, s);
    }
  }

  /** Where no two segments share a leg, no run of guarded reservations, of
      optimisations and of snapshots ever overbooks a leg or leaves a class short of
      seats. */
  lemma {:induction false} UnsharedLegsStaySafe(f: Flight, es: seq<Event>, ceiling: real)
    requires Safe(f) && Unshared(f) && ceiling >= 0.0
    requires AllPossible(f, es, ceiling) && GuardedEvents(f, es, ceiling)
    ensures Safe(AfterEvents(f, es, ceiling))
    decreases |es|
  {
    if es == [] {
    } else {
      match es[0] {
        case Reserving(r) => ReservationStaysSafe(f, r, ceiling);
        case Optimising(vectors) => OptimisationStaysSafe(f, vectors, ceiling);
        case Watching(seen) => SnapshotStaysSafe(f, seen, ceiling);
      }
      UnsharedLegsStaySafe(Apply(f, es[0], ceiling), es[1..], ceiling);
    }
  }

  /** A loaded flight is safe. */
  lemma LoadedIsSafe(f: Flight, maxCapacity: real)
    requires Loaded(f, maxCapacity) && maxCapacity >= 0.0
    requires forall l :: 0 <= l < |f.legs| ==> f.legs[l].capacity >= 0.0
    ensures Safe(f)
  {
    forall s | 0 <= s < |f.cabins|
      ensures CabinSafe(f, s)
    {
      var c := f.cabins[s];
      var pools := LegPools(f.legs, c.first, c.last);
      LeastIsTheMinimum(pools, maxCapacity);
      assert forall l: nat :: l < |f.legs| && Crosses(c, l) ==> pools[l - c.first] == f.legs[l].pool;
      LoadedIsClosedOutside(f, maxCapacity, s);
      if HasTop(f, s) {
        LoadedCanSellItsCapacity(f, maxCapacity, s, 0);
        assert NestedAvailability(c.nodes, 0) == Gap(c.nodes, 0);
      }
    }
    LoadedIsConserved(f, maxCapacity);
    forall s | 0 <= s < |f.cabins|
      ensures f.cabins[s].pool >= 0.0
    {
      assert CabinSafe(f, s);
    }
    LoadedIsHonest(f, maxCapacity);
  }

  /** No event ever puts a seat on show outside a nesting: in every state reached
      from a loaded flight, guarded or not, the classes of negative yield show
      none. */
  lemma {:induction false} EventsStayClosed(f: Flight, es: seq<Event>, ceiling: real, s: nat)
    requires WellFormed(f) && AllPossible(f, es, ceiling) && s < |f.cabins| && ClosedOutside(f, s)
    ensures s < |AfterEvents(f, es, ceiling).cabins| && ClosedOutside(AfterEvents(f, es, ceiling), s)
    decreases |es|
  {
    if es == [] {
    } else {
      var g := Apply(f, es[0], ceiling);
      ApplyIsWellFormed(f, es[0], ceiling);
      match es[0] {
        case Reserving(r) => StepStaysClosed(f, r, ceiling, s);
        case Optimising(vectors) => RepricedStaysClosed(f, vectors, s);
        case Watching(seen) => WatchedStaysClosed(f, seen, s);
      }
      EventsStayClosed(g, es[1..], ceiling, s);
    }
  }
}
