/** What a history of reservations leaves behind: nothing but the net bookings
    of each class, and the count of its cancellations. */
module FlightHistories {
  import opened NestedControls
  import opened Pools
  import opened FlightRuns

  predicate Hits(e: Reservation, s: nat, k: nat, m: nat) {
    e.s == s && e.k == k && e.m == m
  }

  /** The seats a history adds to one class. */
  function NetOn(es: seq<Reservation>, s: nat, k: nat, m: nat): real {
    if es == [] then 0.0
    else (if Hits(es[0], s, k, m) then es[0].Net() else 0.0) + NetOn(es[1..], s, k, m)
  }

  /** The seats a history cancels on one class. */
  function CancelledOn(es: seq<Reservation>, s: nat, k: nat, m: nat): real {
    if es == [] then 0.0
    else (if Hits(es[0], s, k, m) then es[0].Cancelled() else 0.0) + CancelledOn(es[1..], s, k, m)
  }

  lemma {:induction false} RunClass(f: Flight, es: seq<Reservation>, ceiling: real, s: nat, k: nat, m: nat)
    requires WellFormed(f) && OnFlight(f, es) && HasClass(f, s, k, m)
    ensures HasClass(Run(f, es, ceiling), s, k, m)
    ensures Class(Run(f, es, ceiling), s, k, m).bookings == Class(f, s, k, m).bookings + NetOn(es, s, k, m)
    ensures Class(Run(f, es, ceiling), s, k, m).cancellations
         == Class(f, s, k, m).cancellations + CancelledOn(es, s, k, m)
    decreases |es|
  {
    if es == [] {
    } else {
      RestOnFlight(f, es, ceiling);
      StepClass(f, es[0], ceiling, s, k, m);
      RunClass(Step(f, es[0], ceiling), es[1..], ceiling, s, k, m);
    }
  }

  // ----------------------------------------- settled flights and their bookings

  ghost predicate SameClassBookings(f: Flight, g: Flight)
    requires SameShape(f, g)
  {
    forall s, k, m | HasClass(f, s, k, m) && HasClass(g, s, k, m) ::
      Class(f, s, k, m).bookings == Class(g, s, k, m).bookings
  }

  /** Equal but for the cancellation counters. */
  ghost predicate SameState(f: Flight, g: Flight) {
    && SameShape(f, g)
    && f.legs == g.legs
    && (forall s :: 0 <= s < |f.cabins| ==>
        f.cabins[s].committed == g.cabins[s].committed && f.cabins[s].pool == g.cabins[s].pool)
    && forall s, k, m | HasClass(f, s, k, m) && HasClass(g, s, k, m) ::
        Class(g, s, k, m) == Class(f, s, k, m).(cancellations := Class(g, s, k, m).cancellations)
  }

  lemma SameCabinBookings(f: Flight, g: Flight, s: nat)
    requires SameShape(f, g) && SameClassBookings(f, g) && s < |f.cabins|
    ensures SameBookings(f.cabins[s].nodes, g.cabins[s].nodes)
  {
    var a, b := f.cabins[s].nodes, g.cabins[s].nodes;
    assert SameNesting(a, b);
    forall k | 0 <= k < |a|
      ensures a[k].yld == b[k].yld && |a[k].classes| == |b[k].classes|
      ensures forall m :: 0 <= m < |a[k].classes| ==> a[k].classes[m].bookings == b[k].classes[m].bookings
    {
      assert SameNode(a[k], b[k]);
      forall m | 0 <= m < |a[k].classes|
        ensures a[k].classes[m].bookings == b[k].classes[m].bookings
      {
        assert HasClass(f, s, k, m) && HasClass(g, s, k, m);
        assert Class(f, s, k, m).bookings == Class(g, s, k, m).bookings;
      }
    }
  }

  lemma {:induction false} SameDemand(a: seq<Cabin>, b: seq<Cabin>, l: nat)
    requires |a| == |b|
    requires forall s :: 0 <= s < |a| ==> a[s].first == b[s].first && a[s].last == b[s].last
    requires forall s :: 0 <= s < |a| ==> SameBookings(a[s].nodes, b[s].nodes)
    ensures Demand(a, l) == Demand(b, l)
  {
    if a == [] {
    } else {
      SameTotalBookings(a[|a| - 1].nodes, b[|a| - 1].nodes);
      SameDemand(a[..|a| - 1], b[..|a| - 1], l);
    }
  }

  lemma SameClass(f: Flight, g: Flight, ceiling: real, s: nat, k: nat, m: nat)
    requires Settled(f, ceiling) && Settled(g, ceiling) && SameShape(f, g) && SameClassBookings(f, g)
    requires HasClass(f, s, k, m) && HasClass(g, s, k, m)
    ensures Class(g, s, k, m) == Class(f, s, k, m).(cancellations := Class(g, s, k, m).cancellations)
  {
    var a, b := f.cabins[s].nodes, g.cabins[s].nodes;
    assert SameNesting(a, b);
    assert SameNode(a[k], b[k]);
    assert SameControls(a[k].classes[m], b[k].classes[m], a[k].yld < 0.0);
    assert Class(f, s, k, m).bookings == Class(g, s, k, m).bookings;
    if a[k].yld >= 0.0 {
      SameCabinBookings(f, g, s);
      forall i | 0 <= i < |a|
        ensures a[i].classes[0].authorization == b[i].classes[0].authorization
      {
        assert SameNode(a[i], b[i]);
      }
      SameNestedAvailability(a, b, k);
      assert CabinRefreshed(f, ceiling, s) && CabinRefreshed(g, ceiling, s);
      RecalculatedNode(a, k, m);
      RecalculatedNode(b, k, m);
    }
  }

  /** A settled flight is a function of its bookings. */
  lemma BookingsDetermineState(f: Flight, g: Flight, ceiling: real)
    requires Settled(f, ceiling) && Settled(g, ceiling) && SameShape(f, g) && SameClassBookings(f, g)
    ensures SameState(f, g)
  {
    forall s | 0 <= s < |f.cabins|
      ensures SameBookings(f.cabins[s].nodes, g.cabins[s].nodes)
    {
      SameCabinBookings(f, g, s);
    }
    forall l | 0 <= l < |f.legs|
      ensures f.legs[l] == g.legs[l]
    {
      assert LegConserved(f, l) && LegConserved(g, l);
      SameDemand(f.cabins, g.cabins, l);
    }
    assert f.legs == g.legs;
    forall s | 0 <= s < |f.cabins|
      ensures f.cabins[s].committed == g.cabins[s].committed && f.cabins[s].pool == g.cabins[s].pool
    {
      assert CabinRefreshed(f, ceiling, s) && CabinRefreshed(g, ceiling, s);
      SameTotalBookings(f.cabins[s].nodes, g.cabins[s].nodes);
    }
    forall s, k, m | HasClass(f, s, k, m) && HasClass(g, s, k, m)
      ensures Class(g, s, k, m) == Class(f, s, k, m).(cancellations := Class(g, s, k, m).cancellations)
    {
      SameClass(f, g, ceiling, s, k, m);
    }
  }

  lemma SameShapeIsSymmetric(f: Flight, g: Flight)
    requires SameShape(f, g)
    ensures SameShape(g, f)
  {
    forall s | 0 <= s < |f.cabins|
      ensures SameNesting(g.cabins[s].nodes, f.cabins[s].nodes)
    {
      forall k | 0 <= k < |f.cabins[s].nodes|
        ensures SameNode(g.cabins[s].nodes[k], f.cabins[s].nodes[k])
      {
        assert SameNode(f.cabins[s].nodes[k], g.cabins[s].nodes[k]);
      }
    }
  }

  /** Histories with equal net bookings on every class leave the same committed
      spaces, pools, bookings and availabilities.  The empty history counts only
      where these are up to date to begin with. */
  lemma OnlyNetBookingsMatter(f: Flight, xs: seq<Reservation>, ys: seq<Reservation>, ceiling: real)
    requires Conserved(f) && OnFlight(f, xs) && OnFlight(f, ys)
    requires Settled(f, ceiling) || (xs != [] && ys != [])
    requires forall s, k, m | HasClass(f, s, k, m) :: NetOn(xs, s, k, m) == NetOn(ys, s, k, m)
    ensures SameState(Run(f, xs, ceiling), Run(f, ys, ceiling))
  {
    var x, y := Run(f, xs, ceiling), Run(f, ys, ceiling);
    RunSettles(f, xs, ceiling);
    RunSettles(f, ys, ceiling);
    RunKeepsShape(f, xs, ceiling);
    RunKeepsShape(f, ys, ceiling);
    SameShapeIsSymmetric(f, x);
    SameShapeIsTransitive(x, f, y);
    forall s, k, m | HasClass(x, s, k, m) && HasClass(y, s, k, m)
      ensures Class(x, s, k, m).bookings == Class(y, s, k, m).bookings
    {
      SameShapeSameClasses(x, f, s, k, m);
      RunClass(f, xs, ceiling, s, k, m);
      RunClass(f, ys, ceiling, s, k, m);
    }
    BookingsDetermineState(x, y, ceiling);
  }

  /** States that also agree on their cancellation counters are equal. */
  lemma SameStateAndCancellations(f: Flight, g: Flight)
    requires SameState(f, g)
    requires forall s, k, m | HasClass(f, s, k, m) && HasClass(g, s, k, m) ::
      Class(f, s, k, m).cancellations == Class(g, s, k, m).cancellations
    ensures f == g
  {
    forall s | 0 <= s < |f.cabins|
      ensures f.cabins[s] == g.cabins[s]
    {
      assert SameNesting(f.cabins[s].nodes, g.cabins[s].nodes);
      forall k | 0 <= k < |f.cabins[s].nodes|
        ensures f.cabins[s].nodes[k] == g.cabins[s].nodes[k]
      {
        assert SameNode(f.cabins[s].nodes[k], g.cabins[s].nodes[k]);
        forall m | 0 <= m < |f.cabins[s].nodes[k].classes|
          ensures f.cabins[s].nodes[k].classes[m] == g.cabins[s].nodes[k].classes[m]
        {
          assert HasClass(f, s, k, m) && HasClass(g, s, k, m);
          assert Class(f, s, k, m) == Class(g, s, k, m);
        }
        assert f.cabins[s].nodes[k].classes == g.cabins[s].nodes[k].classes;
      }
      assert f.cabins[s].nodes == g.cabins[s].nodes;
    }
    assert f.cabins == g.cabins;
  }

  lemma TwoOn(a: Reservation, b: Reservation, s: nat, k: nat, m: nat)
    ensures NetOn([a, b], s, k, m)
         == (if Hits(a, s, k, m) then a.Net() else 0.0) + (if Hits(b, s, k, m) then b.Net() else 0.0)
    ensures CancelledOn([a, b], s, k, m)
         == (if Hits(a, s, k, m) then a.Cancelled() else 0.0) + (if Hits(b, s, k, m) then b.Cancelled() else 0.0)
  {
    assert [a, b][1..] == [b] && [b][1..] == [];
    assert NetOn([b], s, k, m) == (if Hits(b, s, k, m) then b.Net() else 0.0) + NetOn([], s, k, m);
    assert CancelledOn([b], s, k, m) == (if Hits(b, s, k, m) then b.Cancelled() else 0.0) + CancelledOn([], s, k, m);
  }

  /** Any two reservations, on whatever classes and segments, commute. */
  lemma ReservationsCommute(f: Flight, a: Reservation, b: Reservation, ceiling: real)
    requires Conserved(f) && OnFlight(f, [a, b]) && OnFlight(f, [b, a])
    ensures Run(f, [a, b], ceiling) == Run(f, [b, a], ceiling)
  {
    var x, y := Run(f, [a, b], ceiling), Run(f, [b, a], ceiling);
    forall s, k, m | HasClass(f, s, k, m)
      ensures NetOn([a, b], s, k, m) == NetOn([b, a], s, k, m)
    {
      TwoOn(a, b, s, k, m);
      TwoOn(b, a, s, k, m);
    }
    OnlyNetBookingsMatter(f, [a, b], [b, a], ceiling);
    RunKeepsShape(f, [a, b], ceiling);
    forall s, k, m | HasClass(x, s, k, m) && HasClass(y, s, k, m)
      ensures Class(x, s, k, m).cancellations == Class(y, s, k, m).cancellations
    {
      SameShapeSameClasses(f, x, s, k, m);
      TwoOn(a, b, s, k, m);
      TwoOn(b, a, s, k, m);
      RunClass(f, [a, b], ceiling, s, k, m);
      RunClass(f, [b, a], ceiling, s, k, m);
    }
    SameStateAndCancellations(x, y);
  }

  /** A flight that agrees with a settled one is settled. */
  lemma SameStateIsSettled(f: Flight, g: Flight, ceiling: real)
    requires Conserved(f) && Settled(g, ceiling) && SameState(f, g)
    ensures Settled(f, ceiling)
  {
    forall s | 0 <= s < |f.cabins|
      ensures CabinRefreshed(f, ceiling, s)
    {
      var a, b := f.cabins[s].nodes, g.cabins[s].nodes;
      assert CabinRefreshed(g, ceiling, s);
      forall k | 0 <= k < |a|
        ensures a[k] == Recalculated(a)[k]
      {
        SameStateNode(f, g, ceiling, s, k);
      }
      assert a == Recalculated(a);
    }
  }

  lemma SameStateNode(f: Flight, g: Flight, ceiling: real, s: nat, k: nat)
    requires Conserved(f) && Settled(g, ceiling) && SameState(f, g)
    requires s < |f.cabins| && k < |f.cabins[s].nodes|
    ensures f.cabins[s].nodes[k] == Recalculated(f.cabins[s].nodes)[k]
  {
    var a, b := f.cabins[s].nodes, g.cabins[s].nodes;
    assert CabinRefreshed(g, ceiling, s);
    assert SameNesting(a, b);
    forall i | 0 <= i < |a|
      ensures a[i].yld == b[i].yld && |a[i].classes| == |b[i].classes|
      ensures forall m :: 0 <= m < |a[i].classes| ==>
        b[i].classes[m] == a[i].classes[m].(cancellations := b[i].classes[m].cancellations)
    {
      assert SameNode(a[i], b[i]);
      forall m | 0 <= m < |a[i].classes|
        ensures b[i].classes[m] == a[i].classes[m].(cancellations := b[i].classes[m].cancellations)
      {
        assert HasClass(f, s, i, m) && HasClass(g, s, i, m);
        assert Class(g, s, i, m) == Class(f, s, i, m).(cancellations := Class(g, s, i, m).cancellations);
      }
    }
    if a[k].yld >= 0.0 {
      SameNestedAvailability(a, b, k);
      forall m | 0 <= m < |a[k].classes|
        ensures Recalculated(a)[k].classes[m] == a[k].classes[m]
      {
        RecalculatedNode(a, k, m);
        RecalculatedNode(b, k, m);
      }
      assert Recalculated(a)[k].classes == a[k].classes;
    }
  }

  /** Cancelling a sold party counts itself on the class, and restores everything
      else if and only if pools and availabilities were up to date before. */
  lemma CancellationUndoesSale(f: Flight, s: nat, k: nat, m: nat, party: int, ceiling: real)
    requires Conserved(f) && HasClass(f, s, k, m)
    ensures OnFlight(f, [Sale(s, k, m, party), Cancellation(s, k, m, party)])
    ensures var g := Run(f, [Sale(s, k, m, party), Cancellation(s, k, m, party)], ceiling);
            && (SameState(f, g) <==> Settled(f, ceiling))
            && forall t, i, j | HasClass(f, t, i, j) && HasClass(g, t, i, j) ::
                 && Class(g, t, i, j).bookings == Class(f, t, i, j).bookings
                 && Class(g, t, i, j).cancellations == Class(f, t, i, j).cancellations
                      + (if t == s && i == k && j == m then party as real else 0.0)
  {
    var a, b := Sale(s, k, m, party), Cancellation(s, k, m, party);
    forall t, i, j
      ensures NetOn([a, b], t, i, j) == NetOn([], t, i, j) == 0.0
      ensures CancelledOn([a, b], t, i, j) == if t == s && i == k && j == m then party as real else 0.0
    {
      TwoOn(a, b, t, i, j);
    }
    var g := Run(f, [a, b], ceiling);
    if Settled(f, ceiling) {
      OnlyNetBookingsMatter(f, [], [a, b], ceiling);
    }
    if SameState(f, g) {
      RunSettles(f, [a, b], ceiling);
      SameStateIsSettled(f, g, ceiling);
    }
    forall t, i, j | HasClass(f, t, i, j) && HasClass(g, t, i, j)
      ensures Class(g, t, i, j).bookings == Class(f, t, i, j).bookings
      ensures Class(g, t, i, j).cancellations == Class(f, t, i, j).cancellations + CancelledOn([a, b], t, i, j)
    {
      RunClass(f, [a, b], ceiling, t, i, j);
    }
  }
}
