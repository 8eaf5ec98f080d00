/** Selling and cancelling on a booking class. */
module InventoryHelper {
  import opened NestedControls
  import opened Bom
  import opened FlightRuns
  import opened FlightDateHelper

  ghost function Changed(x: ClassControl, d: real, c: real): ClassControl {
    x.(bookings := x.bookings + d, cancellations := x.cancellations + c)
  }

  /** When only class m of node k of segment-cabin s changes, by d bookings and
      c cancellations, that is all the nestings show. */
  twostate lemma BookingShows(segments: seq<SegmentCabin>, new s: nat, new k: nat, new m: nat, new d: real, new c: real)
    requires old(AllOwn(segments))
    requires s < |segments|
    requires forall t :: 0 <= t < |segments| && t != s ==> segments[t] != segments[s]
    requires forall t :: 0 <= t < |segments| ==> segments[t].nodes == old(segments[t].nodes)
    requires forall n: NestingNode :: old(allocated(n)) ==> n.yld == old(n.yld) && n.classes == old(n.classes)
    requires k < |segments[s].nodes| && m < |segments[s].nodes[k].classes|
    requires forall b: BookingClass :: old(allocated(b)) ==> b.segmentCabin == old(b.segmentCabin)
    requires forall b: BookingClass :: old(allocated(b)) && b != segments[s].nodes[k].classes[m] ==>
      b.View() == old(b.View())
    requires segments[s].nodes[k].classes[m].View() == Changed(old(segments[s].nodes[k].classes[m].View()), d, c)
    ensures AllOwn(segments)
    ensures forall t :: 0 <= t < |segments| && t != s ==>
      NodesView(segments[t].nodes) == old(NodesView(segments[t].nodes))
    ensures NodesView(segments[s].nodes) == Booking(old(NodesView(segments[s].nodes)), k, m, d, c)
  {
    forall t | 0 <= t < |segments|
      ensures Owns(segments[t])
      ensures t != s ==> NodesView(segments[t].nodes) == old(NodesView(segments[t].nodes))
      ensures t == s ==> NodesView(segments[s].nodes) == Booking(old(NodesView(segments[s].nodes)), k, m, d, c)
    {
      var nodes := segments[t].nodes;
      assert old(Owns(segments[t]));
      forall j | 0 <= j < |nodes|
        ensures t != s || j != k ==> nodes[j].View() == old(nodes[j].View())
        ensures t == s && j == k ==> nodes[j].View() == Booking(old(NodesView(nodes)), k, m, d, c)[j]
      {
        forall i | 0 <= i < |nodes[j].classes|
          ensures t != s || j != k || i != m ==> nodes[j].classes[i] != segments[s].nodes[k].classes[m]
        {
          assert old(nodes[j].classes[i].segmentCabin) == segments[t];
          assert nodes[j].classes[i] in nodes[j].classes;
        }
        if t == s && j == k {
          assert nodes[j].View().classes == Booking(old(NodesView(nodes)), k, m, d, c)[j].classes;
        } else {
          assert nodes[j].View().classes == old(nodes[j].View()).classes;
        }
      }
    }
  }

  /** The class is class m of node k of segment-cabin s of the flight-date, and
      its links lead there. */
  ghost predicate SoldAt(f: FlightDate, bc: BookingClass, s: nat, k: nat, m: nat)
    reads f, f.segmentCabins, AllNodes(f.segmentCabins), bc
  {
    && s < |f.segmentCabins| && k < |f.segmentCabins[s].nodes| && m < |f.segmentCabins[s].nodes[k].classes|
    && bc == f.segmentCabins[s].nodes[k].classes[m]
    && bc.segmentCabin == f.segmentCabins[s]
  }

  /** The nestings of all segment-cabins after a reservation is registered on
      its class. */
  ghost function RegisteredNodes(f: Flight, e: Reservation): (v: seq<seq<Node>>)
    requires WellFormed(f) && HasClass(f, e.s, e.k, e.m)
  {
    seq(|f.cabins|, t requires 0 <= t < |f.cabins| => Registered(f, e, t).nodes)
  }

  lemma RegisteredNodesKeepNesting(f: Flight, e: Reservation)
    requires WellFormed(f) && HasClass(f, e.s, e.k, e.m)
    ensures WellNestedAll(RegisteredNodes(f, e))
  {
    forall t | 0 <= t < |f.cabins|
      ensures WellNested(RegisteredNodes(f, e)[t]) && UniformAuthorization(RegisteredNodes(f, e)[t])
    {
      if t == e.s {
        BookingKeepsNesting(f.cabins[t].nodes, e.k, e.m, e.Net(), e.Cancelled());
      }
    }
  }

  lemma ShowsCabin(segment: SegmentCabin, r: Route, legs: seq<Leg>, v: Flight, e: Reservation, ceiling: real, t: nat)
    requires WellFormed(v) && HasClass(v, e.s, e.k, e.m) && t < |v.cabins|
    requires r == Route(v.cabins[t].first, v.cabins[t].last)
    requires legs == Committed(v.legs, v.cabins[e.s].first, v.cabins[e.s].last, e.Net())
    requires segment.committedSpace == v.cabins[t].committed + (if t == e.s then e.Net() else 0.0)
    requires segment.availabilityPool == RoutePool(legs, r, ceiling)
    requires NonEmptyNodes(Registered(v, e, t).nodes)
    requires NodesView(segment.nodes) == Recalculated(Registered(v, e, t).nodes)
    ensures CabinView(segment, r) == Step(v, e, ceiling).cabins[t]
  {
  }

  /** A flight-date that has been refreshed after a registration shows one step. */
  lemma ShowsStep(f: FlightDate, routes: seq<Route>, v: Flight, e: Reservation, ceiling: real)
    requires |routes| == |f.segmentCabins| == |v.cabins|
    requires WellFormed(v) && HasClass(v, e.s, e.k, e.m) && WellNestedAll(RegisteredNodes(v, e))
    requires forall t :: 0 <= t < |routes| ==> routes[t] == Route(v.cabins[t].first, v.cabins[t].last)
    requires LegsView(f.legCabins) == Committed(v.legs, routes[e.s].first, routes[e.s].last, e.Net())
    requires forall t :: 0 <= t < |routes| ==>
      f.segmentCabins[t].committedSpace == v.cabins[t].committed + (if t == e.s then e.Net() else 0.0)
    requires PoolsRefreshed(f, routes, ceiling) && NodesAre(f, RecalculatedAll(RegisteredNodes(v, e)))
    ensures View(f, routes) == Step(v, e, ceiling)
  {
    var legs := LegsView(f.legCabins);
    forall t | 0 <= t < |routes|
      ensures View(f, routes).cabins[t] == Step(v, e, ceiling).cabins[t]
    {
      RegisteredKeepsNesting(v, e, t);
      assert RegisteredNodes(v, e)[t] == Registered(v, e, t).nodes;
      ShowsCabin(f.segmentCabins[t], routes[t], legs, v, e, ceiling, t);
    }
    assert View(f, routes).cabins == Step(v, e, ceiling).cabins;
  }

  /** A reservation has reached its class, and nothing else yet. */
  ghost predicate RegisteredOn(f: FlightDate, routes: seq<Route>, v: Flight, e: Reservation)
    requires WellFormed(v) && HasClass(v, e.s, e.k, e.m)
    reads f, f.legCabins, f.segmentCabins, AllNodes(f.segmentCabins), AllClasses(f.segmentCabins)
  {
    && Wired(f, routes) && |v.cabins| == |routes|
    && NodesAre(f, RegisteredNodes(v, e))
    && LegsView(f.legCabins) == v.legs
    && forall t :: 0 <= t < |routes| ==>
         && routes[t] == Route(v.cabins[t].first, v.cabins[t].last)
         && f.segmentCabins[t].committedSpace == v.cabins[t].committed
  }

  /** Registers a sale on the class. */
  method RegisterSale(bc: BookingClass, partySize: int,
      ghost f: FlightDate, ghost routes: seq<Route>, ghost v: Flight, ghost e: Reservation)
    requires Wired(f, routes) && SoldAt(f, bc, e.s, e.k, e.m)
    requires View(f, routes) == v && WellFormed(v) && HasClass(v, e.s, e.k, e.m)
    requires e.Sale? && e.party == partySize
    modifies bc`bookings
    ensures RegisteredOn(f, routes, v, e)
  {
    bc.Sell(partySize);
    BookingShows(f.segmentCabins, e.s, e.k, e.m, e.Net(), e.Cancelled());
    assert forall l :: 0 <= l < |f.legCabins| ==> LegView(f.legCabins[l]) == v.legs[l];
    assert LegsView(f.legCabins) == v.legs;
  }

  /** Registers a cancellation on the class. */
  method RegisterCancellation(bc: BookingClass, partySize: int,
      ghost f: FlightDate, ghost routes: seq<Route>, ghost v: Flight, ghost e: Reservation)
    requires Wired(f, routes) && SoldAt(f, bc, e.s, e.k, e.m)
    requires View(f, routes) == v && WellFormed(v) && HasClass(v, e.s, e.k, e.m)
    requires e.Cancellation? && e.party == partySize
    modifies bc`bookings, bc`cancellations
    ensures RegisteredOn(f, routes, v, e)
  {
    bc.Cancel(partySize);
    BookingShows(f.segmentCabins, e.s, e.k, e.m, e.Net(), e.Cancelled());
    assert forall l :: 0 <= l < |f.legCabins| ==> LegView(f.legCabins[l]) == v.legs[l];
    assert LegsView(f.legCabins) == v.legs;
  }

  /** Updating a flight-date after a registration is one step of the flight. */
  method UpdateRegistered(f: FlightDate, segment: SegmentCabin, seats: int, ceiling: real,
      ghost routes: seq<Route>, ghost v: Flight, ghost e: Reservation)
    requires WellFormed(v) && HasClass(v, e.s, e.k, e.m) && RegisteredOn(f, routes, v, e)
    requires WellNestedAll(RegisteredNodes(v, e))
    requires segment == f.segmentCabins[e.s] && e.Net() == seats as real
    modifies segment`committedSpace, f.legCabins`committedSpace, f.legCabins`availabilityPool
    modifies f.segmentCabins`availabilityPool, AllClasses(f.segmentCabins)`availability
    ensures Wired(f, routes) && View(f, routes) == Step(v, e, ceiling)
  {
    UpdateFromReservation(f, segment, seats, ceiling, e.s, routes, RegisteredNodes(v, e));
    ShowsStep(f, routes, v, e, ceiling);
  }

  /** Takes a registered reservation to the segment-cabin, its legs and the
      whole flight-date. */
  method Propagate(bc: BookingClass, seats: int, ceiling: real,
      ghost f: FlightDate, ghost routes: seq<Route>, ghost v: Flight, ghost e: Reservation)
    requires WellFormed(v) && HasClass(v, e.s, e.k, e.m) && RegisteredOn(f, routes, v, e)
    requires SoldAt(f, bc, e.s, e.k, e.m) && e.Net() == seats as real
    modifies bc.segmentCabin`committedSpace
    modifies f.legCabins`committedSpace, f.legCabins`availabilityPool
    modifies f.segmentCabins`availabilityPool, AllClasses(f.segmentCabins)`availability
    ensures Wired(f, routes) && View(f, routes) == Step(v, e, ceiling)
  {
    RegisteredNodesKeepNesting(v, e);
    assert f.segmentCabins[e.s].flightDate == f;
    var segment: SegmentCabin := bc.segmentCabin;
    var flightDate: FlightDate := segment.flightDate;
    UpdateRegistered(flightDate, segment, seats, ceiling, routes, v, e);
  }

  /** Sells a party on a class: one Sale step of the whole flight-date.  The
      availability is not looked at. */
  method Sell(bc: BookingClass, partySize: int, ceiling: real,
      ghost f: FlightDate, ghost s: nat, ghost k: nat, ghost m: nat, ghost routes: seq<Route>) returns (done: bool)
    requires Wired(f, routes) && SoldAt(f, bc, s, k, m) && WellFormed(View(f, routes))
    modifies bc`bookings, bc.segmentCabin`committedSpace
    modifies f.legCabins`committedSpace, f.legCabins`availabilityPool
    modifies f.segmentCabins`availabilityPool, AllClasses(f.segmentCabins)`availability
    ensures done && Wired(f, routes)
    ensures HasClass(old(View(f, routes)), s, k, m)
    ensures View(f, routes) == Step(old(View(f, routes)), Sale(s, k, m, partySize), ceiling)
  {
    ghost var v, e := View(f, routes), Sale(s, k, m, partySize);
    RegisterSale(bc, partySize, f, routes, v, e);
    Propagate(bc, partySize, ceiling, f, routes, v, e);
    return true;
  }

  /** Cancels a party on a class: one Cancellation step of the whole flight-date. */
  method Cancel(bc: BookingClass, partySize: int, ceiling: real,
      ghost f: FlightDate, ghost s: nat, ghost k: nat, ghost m: nat, ghost routes: seq<Route>) returns (done: bool)
    requires Wired(f, routes) && SoldAt(f, bc, s, k, m) && WellFormed(View(f, routes))
    modifies bc`bookings, bc`cancellations, bc.segmentCabin`committedSpace
    modifies f.legCabins`committedSpace, f.legCabins`availabilityPool
    modifies f.segmentCabins`availabilityPool, AllClasses(f.segmentCabins)`availability
    ensures done && Wired(f, routes)
    ensures HasClass(old(View(f, routes)), s, k, m)
    ensures View(f, routes) == Step(old(View(f, routes)), Cancellation(s, k, m, partySize), ceiling)
  {
    ghost var v, e := View(f, routes), Cancellation(s, k, m, partySize);
    RegisterCancellation(bc, partySize, f, routes, v, e);
    Propagate(bc, -partySize, ceiling, f, routes, v, e);
    return true;
  }
}
