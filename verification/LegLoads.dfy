/** Overbooking of legs under guarded sales: every segment-cabin watches its own
    availability, but the segments that cross a leg share its seats. */
module LegLoads {
  import opened NestedControls
  import opened Pools
  import opened FlightRuns
  import opened GuardedSales

  /** The whole seats that the nestings of segments s, s + 1, ... can still sell
      over leg l. */
  ghost function SeatsOver(f: Flight, s: nat, l: nat): int
    requires s <= |f.cabins|
    decreases |f.cabins| - s
  {
    if s == |f.cabins| then 0
    else (if Crosses(f.cabins[s], l) then Seats(f, s) else 0) + SeatsOver(f, s + 1, l)
  }

  /** Under the guard, leg l never holds more than its capacity. */
  ghost predicate NeverOverbooked(f: Flight, ceiling: real, l: nat)
    requires WellFormed(f) && l < |f.legs|
  {
    forall es: seq<Reservation> | OnFlight(f, es) && Guarded(f, es, ceiling) ::
      l < |Run(f, es, ceiling).legs| && Run(f, es, ceiling).legs[l].pool >= 0.0
  }

  /** Every segment that crosses leg l is closed outside its nesting. */
  ghost predicate ClosedOver(f: Flight, l: nat) {
    forall s :: 0 <= s < |f.cabins| && Crosses(f.cabins[s], l) ==> ClosedOutside(f, s)
  }

  /** Nothing is sold outside the nestings over leg l, and what the nestings can
      sell fits the leg. */
  ghost predicate SeatsFit(f: Flight, l: nat)
    requires l < |f.legs|
  {
    ClosedOver(f, l) && SeatsOver(f, 0, l) as real <= f.legs[l].pool
  }

  // -------------------------------------------------------- no run can do more

  lemma {:induction false} DemandGrowth(f: Flight, g: Flight, n: nat, l: nat)
    requires |f.cabins| == |g.cabins| && n <= |f.cabins|
    requires forall s :: 0 <= s < n ==>
      f.cabins[s].first == g.cabins[s].first && f.cabins[s].last == g.cabins[s].last
    requires forall s :: 0 <= s < n && Crosses(f.cabins[s], l) ==>
      TotalBookings(g.cabins[s].nodes) <= TotalBookings(f.cabins[s].nodes) + Seats(f, s) as real
    ensures Demand(g.cabins[..n], l) <= Demand(f.cabins[..n], l) + (SeatsOver(f, 0, l) - SeatsOver(f, n, l)) as real
  {
    if n == 0 {
    } else {
      DemandGrowth(f, g, n - 1, l);
      assert f.cabins[..n][..n - 1] == f.cabins[..n - 1] && g.cabins[..n][..n - 1] == g.cabins[..n - 1];
      assert SeatsOver(f, n - 1, l)
          == (if Crosses(f.cabins[n - 1], l) then Seats(f, n - 1) else 0) + SeatsOver(f, n, l);
    }
  }

  /** In a conserved flight the pool of a leg is what its demand leaves. */
  lemma PoolFromDemand(f: Flight, l: nat)
    requires Conserved(f) && l < |f.legs|
    ensures f.legs[l].pool == f.legs[l].capacity - Demand(f.cabins, l)
  {
    assert LegConserved(f, l);
  }

  /** A guarded run takes no more seats from a leg than the nestings of the
      segments crossing it can sell. */
  lemma GuardedRunsTakeTheSeats(f: Flight, es: seq<Reservation>, ceiling: real, l: nat)
    requires Conserved(f) && Honest(f) && l < |f.legs| && ClosedOver(f, l)
    requires OnFlight(f, es) && Guarded(f, es, ceiling)
    ensures l < |Run(f, es, ceiling).legs|
    ensures Run(f, es, ceiling).legs[l].pool >= f.legs[l].pool - SeatsOver(f, 0, l) as real
  {
    var g := Run(f, es, ceiling);
    RunKeepsShape(f, es, ceiling);
    RunSettles(f, es, ceiling);
    forall s | 0 <= s < |f.cabins| && Crosses(f.cabins[s], l)
      ensures TotalBookings(g.cabins[s].nodes) <= TotalBookings(f.cabins[s].nodes) + Seats(f, s) as real
    {
      GuardedRunsSellTheSeats(f, es, ceiling, s);
    }
    DemandGrowth(f, g, |f.cabins|, l);
    assert f.cabins[..|f.cabins|] == f.cabins && g.cabins[..|f.cabins|] == g.cabins;
    PoolFromDemand(f, l);
    PoolFromDemand(g, l);
  }

  // --------------------------------------------------------- some run does that

  /** The seats depend on nothing but the segments concerned. */
  lemma {:induction false} SameSeats(f: Flight, g: Flight, s: nat, l: nat)
    requires |f.cabins| == |g.cabins| && s <= |f.cabins|
    requires forall t :: s <= t < |f.cabins| ==>
      f.cabins[t].first == g.cabins[t].first && f.cabins[t].last == g.cabins[t].last
    requires forall t :: s <= t < |f.cabins| ==> Seats(f, t) == Seats(g, t)
    ensures SeatsOver(f, s, l) == SeatsOver(g, s, l)
    decreases |f.cabins| - s
  {
    if s == |f.cabins| {
    } else {
      SameSeats(f, g, s + 1, l);
    }
  }

  /** A sale leaves the nestings of the other segments of a settled flight as
      they are. */
  lemma SaleLeavesOthers(f: Flight, e: Reservation, ceiling: real, t: nat)
    requires Settled(f, ceiling) && HasClass(f, e.s, e.k, e.m) && t < |f.cabins| && t != e.s
    ensures Step(f, e, ceiling).cabins[t].nodes == f.cabins[t].nodes
  {
    assert CabinRefreshed(f, ceiling, t);
  }

  /** What the sale of all seats of one nesting leaves. */
  lemma SellOutKeeps(f: Flight, ceiling: real, s: nat)
    requires Settled(f, ceiling) && Honest(f) && HasTop(f, s)
    ensures var e := Sale(s, 0, 0, Seats(f, s));
            Allowed(f, e) && Settled(Step(f, e, ceiling), ceiling) && Honest(Step(f, e, ceiling))
  {
    var e := Sale(s, 0, 0, Seats(f, s));
    SellOutIsAllowed(f, ceiling, s);
    StepSettles(f, e, ceiling);
    GuardedStepStaysHonest(f, e, ceiling);
  }

  /** What it leaves for the rest of a plan. */
  lemma SellOutNext(f: Flight, ceiling: real, s: nat, l: nat)
    requires Settled(f, ceiling) && HasTop(f, s) && Crosses(f.cabins[s], l)
    ensures var g := Step(f, Sale(s, 0, 0, Seats(f, s)), ceiling);
            |g.cabins| == |f.cabins| && Seats(f, s) + SeatsOver(g, s + 1, l) == SeatsOver(f, s, l)
  {
    SaleKeepsSeats(f, Sale(s, 0, 0, Seats(f, s)), ceiling, l);
  }

  /** The run sells all the seats of the nestings of segments s, s + 1, ... over
      leg l, under the guard. */
  ghost predicate SellsOut(f: Flight, es: seq<Reservation>, ceiling: real, s: nat, l: nat)
    requires WellFormed(f) && s <= |f.cabins| && l < |f.legs|
  {
    && OnFlight(f, es) && Guarded(f, es, ceiling) && l < |Run(f, es, ceiling).legs|
    && Run(f, es, ceiling).legs[l].pool == f.legs[l].pool - SeatsOver(f, s, l) as real
  }

  /** The sale of all seats of one nesting, and then those of the nestings after it. */
  lemma SellOutOne(f: Flight, ceiling: real, s: nat, l: nat, rest: seq<Reservation>)
    requires Settled(f, ceiling) && Honest(f) && HasTop(f, s) && l < |f.legs| && Crosses(f.cabins[s], l)
    requires var g := Step(f, Sale(s, 0, 0, Seats(f, s)), ceiling);
             && WellFormed(g) && s + 1 <= |g.cabins| && l < |g.legs| && SellsOut(g, rest, ceiling, s + 1, l)
    ensures SellsOut(f, [Sale(s, 0, 0, Seats(f, s))] + rest, ceiling, s, l)
  {
    var e := Sale(s, 0, 0, Seats(f, s));
    SellOutIsAllowed(f, ceiling, s);
    SellOutNext(f, ceiling, s, l);
    SaleThenPlan(f, e, rest, ceiling, l, SeatsOver(Step(f, e, ceiling), s + 1, l));
  }

  /** Some guarded run sells all these seats. */
  lemma {:induction false} SellOutOver(f: Flight, ceiling: real, s: nat, l: nat) returns (es: seq<Reservation>)
    requires Settled(f, ceiling) && Honest(f) && s <= |f.cabins| && l < |f.legs|
    ensures SellsOut(f, es, ceiling, s, l)
    decreases |f.cabins| - s
  {
    if s == |f.cabins| {
      es := [];
    } else if !(Crosses(f.cabins[s], l) && HasTop(f, s)) {
      assert SeatsOver(f, s, l) == SeatsOver(f, s + 1, l);
      es := SellOutOver(f, ceiling, s + 1, l);
    } else {
      SellOutKeeps(f, ceiling, s);
      SellOutNext(f, ceiling, s, l);
      var e := Sale(s, 0, 0, Seats(f, s));
      var rest := SellOutOver(Step(f, e, ceiling), ceiling, s + 1, l);
      SellOutOne(f, ceiling, s, l, rest);
      es := [e] + rest;
    }
  }

  /** A sale followed by a plan for the segments after it. */
  lemma SaleThenPlan(f: Flight, e: Reservation, rest: seq<Reservation>, ceiling: real, l: nat, seats: int)
    requires Conserved(f) && HasClass(f, e.s, e.k, e.m) && Allowed(f, e) && WellFormed(Step(f, e, ceiling))
    requires e.Sale? && l < |f.legs| && Crosses(f.cabins[e.s], l)
    requires OnFlight(Step(f, e, ceiling), rest) && Guarded(Step(f, e, ceiling), rest, ceiling)
    requires l < |Run(Step(f, e, ceiling), rest, ceiling).legs|
    requires Run(Step(f, e, ceiling), rest, ceiling).legs[l].pool == Step(f, e, ceiling).legs[l].pool - seats as real
    ensures OnFlight(f, [e] + rest) && Guarded(f, [e] + rest, ceiling)
    ensures l < |Run(f, [e] + rest, ceiling).legs|
    ensures Run(f, [e] + rest, ceiling).legs[l].pool == f.legs[l].pool - (e.party + seats) as real
  {
    SaleBeforePlan(f, e, rest, ceiling);
    SaleTakesFromLeg(f, e, ceiling, l);
  }

  lemma ShownAtTop(f: Flight, ceiling: real, s: nat)
    requires Settled(f, ceiling) && HasTop(f, s)
    ensures Class(f, s, 0, 0).availability == Room(f, s)
  {
    assert CabinRefreshed(f, ceiling, s);
    ShownAvailability(f, s, 0, 0);
    assert NestedAvailability(f.cabins[s].nodes, 0) == Gap(f.cabins[s].nodes, 0);
  }

  /** The sale of all seats of a nesting is allowed. */
  lemma SellOutIsAllowed(f: Flight, ceiling: real, s: nat)
    requires Settled(f, ceiling) && Honest(f) && HasTop(f, s)
    ensures Allowed(f, Sale(s, 0, 0, Seats(f, s)))
  {
    TopCanSellItsRoom(f, s);
    ShownAtTop(f, ceiling, s);
  }

  lemma SaleKeepsSeats(f: Flight, e: Reservation, ceiling: real, l: nat)
    requires Settled(f, ceiling) && HasClass(f, e.s, e.k, e.m)
    ensures |Step(f, e, ceiling).cabins| == |f.cabins|
    ensures SeatsOver(Step(f, e, ceiling), e.s + 1, l) == SeatsOver(f, e.s + 1, l)
  {
    forall t | e.s < t < |f.cabins|
      ensures Step(f, e, ceiling).cabins[t].nodes == f.cabins[t].nodes
    {
      SaleLeavesOthers(f, e, ceiling, t);
    }
    SameSeats(f, Step(f, e, ceiling), e.s + 1, l);
  }

  lemma SaleTakesFromLeg(f: Flight, e: Reservation, ceiling: real, l: nat)
    requires Conserved(f) && HasClass(f, e.s, e.k, e.m) && l < |f.legs| && Crosses(f.cabins[e.s], l)
    ensures Step(f, e, ceiling).legs[l].pool == f.legs[l].pool - e.Net()
  {
    assert LegConserved(f, l);
  }

  lemma SaleBeforePlan(f: Flight, e: Reservation, rest: seq<Reservation>, ceiling: real)
    requires WellFormed(f) && HasClass(f, e.s, e.k, e.m) && WellFormed(Step(f, e, ceiling))
    requires OnFlight(Step(f, e, ceiling), rest) && Guarded(Step(f, e, ceiling), rest, ceiling)
    requires Allowed(f, e)
    ensures OnFlight(f, [e] + rest) && Guarded(f, [e] + rest, ceiling)
    ensures Run(f, [e] + rest, ceiling) == Run(Step(f, e, ceiling), rest, ceiling)
  {
    var es := [e] + rest;
    assert es[0] == e && es[1..] == rest;
    StepKeepsShape(f, e, ceiling);
    forall i | 0 <= i < |es|
      ensures HasClass(f, es[i].s, es[i].k, es[i].m)
    {
      if i > 0 {
        assert es[i] == rest[i - 1];
        SameShapeSameClasses(f, Step(f, e, ceiling), es[i].s, es[i].k, es[i].m);
      }
    }
    RestOnFlight(f, es, ceiling);
  }

  lemma {:induction false} NoTopNoSeats(f: Flight, s: nat, l: nat)
    requires s <= |f.cabins| && forall t :: s <= t < |f.cabins| ==> !HasTop(f, t)
    ensures SeatsOver(f, s, l) == 0
    decreases |f.cabins| - s
  {
    if s == |f.cabins| {
    } else {
      NoTopNoSeats(f, s + 1, l);
    }
  }

  lemma RefreshingKeepsSeats(f: Flight, ceiling: real, t: nat, s: nat)
    requires Honest(f) && HasTop(f, t) && s < |f.cabins|
    ensures Seats(Step(f, Cancellation(t, 0, 0, 0), ceiling), s) == Seats(f, s)
  {
    var e := Cancellation(t, 0, 0, 0);
    if HasTop(f, s) {
      EmptyCancellation(f, ceiling, t, s);
    } else if f.cabins[s].nodes != [] {
      StepNode(f, e, ceiling, s, 0);
    }
  }

  /** An empty cancellation on some nested class brings the flight up to date and
      keeps what every nesting can sell. */
  lemma Refreshing(f: Flight, ceiling: real, t: nat, l: nat)
    requires Conserved(f) && Honest(f) && HasTop(f, t) && l < |f.legs|
    ensures var g := Step(f, Cancellation(t, 0, 0, 0), ceiling);
            && Settled(g, ceiling) && Honest(g) && l < |g.legs| && g.legs[l].pool == f.legs[l].pool
            && |g.cabins| == |f.cabins| && SeatsOver(g, 0, l) == SeatsOver(f, 0, l)
  {
    var e := Cancellation(t, 0, 0, 0);
    var g := Step(f, e, ceiling);
    StepSettles(f, e, ceiling);
    GuardedStepStaysHonest(f, e, ceiling);
    forall s | 0 <= s < |f.cabins|
      ensures Seats(f, s) == Seats(g, s)
    {
      RefreshingKeepsSeats(f, ceiling, t, s);
    }
    SameSeats(f, g, 0, l);
    assert LegConserved(f, l);
  }

  /** Some guarded run takes from a leg all the seats that the nestings of the
      segments crossing it can sell. */
  lemma SomeRunTakesTheSeats(f: Flight, ceiling: real, l: nat) returns (es: seq<Reservation>)
    requires Conserved(f) && Honest(f) && l < |f.legs|
    ensures OnFlight(f, es) && Guarded(f, es, ceiling) && l < |Run(f, es, ceiling).legs|
    ensures Run(f, es, ceiling).legs[l].pool == f.legs[l].pool - SeatsOver(f, 0, l) as real
  {
    if t :| 0 <= t < |f.cabins| && HasTop(f, t) {
      var e := Cancellation(t, 0, 0, 0);
      var g := Step(f, e, ceiling);
      Refreshing(f, ceiling, t, l);
      var rest := SellOutOver(g, ceiling, 0, l);
      SaleBeforePlan(f, e, rest, ceiling);
      es := [e] + rest;
    } else {
      NoTopNoSeats(f, 0, l);
      es := [];
    }
  }

  /** Where a segment that crosses leg l shows a seat outside its nesting, some
      guarded run overbooks the leg. */
  lemma OutsideSalesOverbook(f: Flight, ceiling: real, s: nat, k: nat, m: nat, l: nat) returns (es: seq<Reservation>)
    requires Conserved(f) && HasClass(f, s, k, m) && !Nested(f, s, k) && Class(f, s, k, m).availability >= 1.0
    requires l < |f.legs| && Crosses(f.cabins[s], l)
    ensures OnFlight(f, es) && Guarded(f, es, ceiling) && l < |Run(f, es, ceiling).legs|
    ensures Run(f, es, ceiling).legs[l].pool < 0.0
  {
    var n: nat := if f.legs[l].pool < 0.0 then 0 else f.legs[l].pool.Floor + 1;
    es := SeatBySeat(s, k, m, n);
    OutsideSalesNeverStop(f, ceiling, s, k, m, n);
    var g := Run(f, es, ceiling);
    RunSettles(f, es, ceiling);
    RunKeepsShape(f, es, ceiling);
    DemandShift(f.cabins, g.cabins, s, n as real, l);
    PoolFromDemand(f, l);
    PoolFromDemand(g, l);
  }

  /** Guarded runs never overbook a leg exactly when no segment that crosses it
      shows a seat outside its nesting, and the whole seats that the nestings of
      all of them can sell, added up, fit the leg. */
  lemma NeverOverbookedIffSeatsFit(f: Flight, ceiling: real, l: nat)
    requires Conserved(f) && Honest(f) && l < |f.legs|
    ensures NeverOverbooked(f, ceiling, l) <==> SeatsFit(f, l)
  {
    if !ClosedOver(f, l) {
      var s :| 0 <= s < |f.cabins| && Crosses(f.cabins[s], l) && !ClosedOutside(f, s);
      var k, m :| HasClass(f, s, k, m) && !Nested(f, s, k) && Class(f, s, k, m).availability >= 1.0;
      var es := OutsideSalesOverbook(f, ceiling, s, k, m, l);
      assert Run(f, es, ceiling).legs[l].pool < 0.0;
    } else if SeatsOver(f, 0, l) as real > f.legs[l].pool {
      var es := SomeRunTakesTheSeats(f, ceiling, l);
      assert Run(f, es, ceiling).legs[l].pool < 0.0;
    } else {
      forall es: seq<Reservation> | OnFlight(f, es) && Guarded(f, es, ceiling)
        ensures l < |Run(f, es, ceiling).legs| && Run(f, es, ceiling).legs[l].pool >= 0.0
      {
        GuardedRunsTakeTheSeats(f, es, ceiling, l);
      }
    }
  }

  /** Two segments that cross one leg and each show a seat: with less than two
      seats left on the leg, two guarded sales overbook it. */
  lemma TwoSegmentsOverbook(f: Flight, ceiling: real, a: Reservation, b: Reservation, l: nat)
    requires Settled(f, ceiling) && HasClass(f, a.s, a.k, a.m) && HasClass(f, b.s, b.k, b.m) && a.s != b.s
    requires a.Sale? && b.Sale? && a.party == b.party == 1
    requires Class(f, a.s, a.k, a.m).availability >= 1.0 && Class(f, b.s, b.k, b.m).availability >= 1.0
    requires l < |f.legs| && Crosses(f.cabins[a.s], l) && Crosses(f.cabins[b.s], l) && f.legs[l].pool < 2.0
    ensures OnFlight(f, [a, b]) && Guarded(f, [a, b], ceiling)
    ensures l < |Run(f, [a, b], ceiling).legs| && Run(f, [a, b], ceiling).legs[l].pool < 0.0
  {
    var g := Step(f, a, ceiling);
    StepSettles(f, a, ceiling);
    SaleLeavesOthers(f, a, ceiling, b.s);
    assert Class(g, b.s, b.k, b.m) == Class(f, b.s, b.k, b.m);
    SaleTakesFromLeg(f, a, ceiling, l);
    OneSaleTakes(g, b, ceiling, l);
    SaleThenPlan(f, a, [b], ceiling, l, 1);
    assert [a] + [b] == [a, b];
  }

  lemma OneSaleTakes(f: Flight, e: Reservation, ceiling: real, l: nat)
    requires Conserved(f) && HasClass(f, e.s, e.k, e.m) && Allowed(f, e) && e.Sale?
    requires l < |f.legs| && Crosses(f.cabins[e.s], l)
    ensures OnFlight(f, [e]) && Guarded(f, [e], ceiling) && l < |Run(f, [e], ceiling).legs|
    ensures Run(f, [e], ceiling).legs[l].pool == f.legs[l].pool - e.party as real
  {
    StepKeepsShape(f, e, ceiling);
    SaleThenPlan(f, e, [], ceiling, l, 0);
    assert [e] + [] == [e];
  }

  // ------------------------------------------------------------- loaded flights

  /** From a loaded flight, guarded runs never overbook a leg exactly when the
      whole seats of all segments that cross it fit its capacity together. */
  lemma LoadedNeverOverbooksIff(f: Flight, maxCapacity: real, ceiling: real, l: nat)
    requires Loaded(f, maxCapacity) && forall s :: 0 <= s < |f.cabins| ==> f.cabins[s].pool >= 0.0
    requires l < |f.legs|
    ensures NeverOverbooked(f, ceiling, l) <==> SeatsOver(f, 0, l) as real <= f.legs[l].capacity
  {
    LoadedIsConserved(f, maxCapacity);
    LoadedIsHonest(f, maxCapacity);
    forall s | 0 <= s < |f.cabins| && Crosses(f.cabins[s], l)
      ensures ClosedOutside(f, s)
    {
      LoadedIsClosedOutside(f, maxCapacity, s);
    }
    NeverOverbookedIffSeatsFit(f, ceiling, l);
  }

  /** A loaded nesting can sell the whole seats of its pool. */
  lemma LoadedSeats(f: Flight, maxCapacity: real, s: nat)
    requires Loaded(f, maxCapacity) && s < |f.cabins| && f.cabins[s].pool >= 0.0
    ensures Seats(f, s) == if HasTop(f, s) then f.cabins[s].pool.Floor else 0
    ensures Seats(f, s) >= 0
  {
    if HasTop(f, s) {
      LoadedCanSellItsCapacity(f, maxCapacity, s, 0);
      assert NestedAvailability(f.cabins[s].nodes, 0) == Gap(f.cabins[s].nodes, 0);
    }
  }

  lemma {:induction false} SeatsOfTwo(f: Flight, n: nat, s: nat, t: nat, l: nat)
    requires n <= |f.cabins| && s < |f.cabins| && t < |f.cabins| && s != t
    requires Crosses(f.cabins[s], l) && Crosses(f.cabins[t], l)
    requires forall i :: 0 <= i < |f.cabins| ==> Seats(f, i) >= 0
    ensures SeatsOver(f, n, l) >= (if n <= s then Seats(f, s) else 0) + (if n <= t then Seats(f, t) else 0)
    decreases |f.cabins| - n
  {
    if n == |f.cabins| {
    } else {
      SeatsOfTwo(f, n + 1, s, t, l);
    }
  }

  /** Two segments of a loaded flight that cross one leg and whose whole seats
      together exceed its capacity: some guarded run overbooks the leg. */
  lemma LoadedSegmentsOverbook(f: Flight, maxCapacity: real, ceiling: real, s: nat, t: nat, l: nat)
    requires Loaded(f, maxCapacity) && forall i :: 0 <= i < |f.cabins| ==> f.cabins[i].pool >= 0.0
    requires HasTop(f, s) && HasTop(f, t) && s != t && l < |f.legs|
    requires Crosses(f.cabins[s], l) && Crosses(f.cabins[t], l)
    requires (f.cabins[s].pool.Floor + f.cabins[t].pool.Floor) as real > f.legs[l].capacity
    ensures !NeverOverbooked(f, ceiling, l)
  {
    forall i | 0 <= i < |f.cabins|
      ensures Seats(f, i) >= 0
    {
      LoadedSeats(f, maxCapacity, i);
    }
    LoadedSeats(f, maxCapacity, s);
    LoadedSeats(f, maxCapacity, t);
    SeatsOfTwo(f, 0, s, t, l);
    LoadedNeverOverbooksIff(f, maxCapacity, ceiling, l);
  }
}
