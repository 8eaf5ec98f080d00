/** Overbooking under guarded sales.  The sale itself never looks at the
    availability, so these results are about callers that do: a party is only
    sold where at most the class's current availability is asked for. */
module GuardedSales {
  import opened NestedControls
  import opened FlightRuns

  /** The party has no negative size, and a sale fits the availability its class
      shows. */
  ghost predicate Allowed(f: Flight, e: Reservation)
    requires HasClass(f, e.s, e.k, e.m)
  {
    e.party >= 0 && (e.Sale? ==> e.party as real <= Class(f, e.s, e.k, e.m).availability)
  }

  /** Every reservation is allowed at its moment. */
  ghost predicate Guarded(f: Flight, es: seq<Reservation>, ceiling: real)
    requires WellFormed(f) && OnFlight(f, es)
    decreases |es|
  {
    es != [] ==>
      && Allowed(f, es[0])
      && (RestOnFlight(f, es, ceiling); Guarded(Step(f, es[0], ceiling), es[1..], ceiling))
  }

  ghost predicate Nested(f: Flight, s: nat, k: nat)
    requires s < |f.cabins| && k < |f.cabins[s].nodes|
  {
    f.cabins[s].nodes[k].yld >= 0.0
  }

  /** No class of the nesting shows a negative availability. */
  ghost predicate NoNegativeAvailability(f: Flight) {
    forall s, k, m | HasClass(f, s, k, m) ::
      Nested(f, s, k) ==> Class(f, s, k, m).availability >= 0.0
  }

  /** No nested node is short of seats, and no nested class shows more than its
      node can sell, whether or not availabilities are up to date. */
  ghost predicate Honest(f: Flight) {
    && WellFormed(f)
    && forall s: nat, k: nat, m | HasClass(f, s, k, m) ::
         Nested(f, s, k) ==>
           && NestedAvailability(f.cabins[s].nodes, k) >= 0.0
           && Class(f, s, k, m).availability <= NestedAvailability(f.cabins[s].nodes, k)
  }

  lemma ShownAvailability(f: Flight, s: nat, k: nat, m: nat)
    requires WellFormed(f) && HasClass(f, s, k, m) && Nested(f, s, k)
    requires f.cabins[s].nodes == Recalculated(f.cabins[s].nodes)
    ensures Class(f, s, k, m).availability == NestedAvailability(f.cabins[s].nodes, k)
  {
    RecalculatedNode(f.cabins[s].nodes, k, m);
  }

  /** Up-to-date availabilities are honest as soon as none is negative. */
  lemma SettledIsHonest(f: Flight, ceiling: real)
    requires Settled(f, ceiling) && NoNegativeAvailability(f)
    ensures Honest(f)
  {
    forall s: nat, k: nat, m | HasClass(f, s, k, m) && Nested(f, s, k)
      ensures NestedAvailability(f.cabins[s].nodes, k) >= 0.0
      ensures Class(f, s, k, m).availability <= NestedAvailability(f.cabins[s].nodes, k)
    {
      assert CabinRefreshed(f, ceiling, s);
      ShownAvailability(f, s, k, m);
      assert Class(f, s, k, m).availability >= 0.0;
    }
  }

  /** Booking no more than node k can sell, or releasing seats, leaves no nested
      node short of seats. */
  lemma GuardedBooking(ns: seq<Node>, k: nat, m: nat, d: real, c: real, i: nat)
    requires WellNested(ns) && k < |ns| && m < |ns[k].classes| && i < |ns| && ns[i].yld >= 0.0
    requires NestedAvailability(ns, i) >= 0.0
    requires ns[k].yld >= 0.0 ==> NestedAvailability(ns, k) >= 0.0 && d <= NestedAvailability(ns, k)
    ensures NonEmptyNodes(Booking(ns, k, m, d, c))
    ensures NestedAvailability(Booking(ns, k, m, d, c), i) >= 0.0
  {
    if ns[k].yld < 0.0 {
      BookingOutsideTheNesting(ns, k, m, d, c, i);
    } else {
      BookingShiftsAvailability(ns, k, m, d, c, i);
      if i <= k {
        AvailabilityFollowsYield(ns, i, k);
      }
    }
  }

  /** After a reservation every nested class shows what its node can sell. */
  lemma StepShows(f: Flight, e: Reservation, ceiling: real, s: nat, k: nat, m: nat)
    requires WellFormed(f) && HasClass(f, e.s, e.k, e.m) && HasClass(f, s, k, m) && Nested(f, s, k)
    ensures HasClass(Step(f, e, ceiling), s, k, m) && NonEmptyNodes(Step(f, e, ceiling).cabins[s].nodes)
    ensures NonEmptyNodes(Registered(f, e, s).nodes)
    ensures Class(Step(f, e, ceiling), s, k, m).availability == NestedAvailability(Registered(f, e, s).nodes, k)
    ensures NestedAvailability(Step(f, e, ceiling).cabins[s].nodes, k)
         == NestedAvailability(Registered(f, e, s).nodes, k)
  {
    RegisteredKeepsNesting(f, e, s);
    var ns := Registered(f, e, s).nodes;
    RecalculatedNode(ns, k, m);
    RecalculatedKeepsNesting(ns);
    SameNestedAvailability(ns, Recalculated(ns), k);
  }

  /** One guarded reservation drives no availability below zero. */
  lemma GuardedStep(f: Flight, e: Reservation, ceiling: real, s: nat, k: nat, m: nat)
    requires Honest(f) && HasClass(f, e.s, e.k, e.m) && Allowed(f, e)
    requires HasClass(f, s, k, m) && Nested(f, s, k)
    ensures NonEmptyNodes(Registered(f, e, s).nodes)
    ensures NestedAvailability(Registered(f, e, s).nodes, k) >= 0.0
  {
    assert NestedAvailability(f.cabins[s].nodes, k) >= 0.0;
    RegisteredKeepsNesting(f, e, s);
    if s == e.s {
      if Nested(f, s, e.k) {
        assert Class(f, s, e.k, e.m).availability <= NestedAvailability(f.cabins[s].nodes, e.k);
      }
      GuardedBooking(f.cabins[s].nodes, e.k, e.m, e.Net(), e.Cancelled(), k);
    }
  }

  lemma GuardedStepStaysHonest(f: Flight, e: Reservation, ceiling: real)
    requires Honest(f) && HasClass(f, e.s, e.k, e.m) && Allowed(f, e)
    ensures Honest(Step(f, e, ceiling)) && NoNegativeAvailability(Step(f, e, ceiling))
  {
    var g := Step(f, e, ceiling);
    StepKeepsShape(f, e, ceiling);
    forall s: nat, k: nat, m | HasClass(g, s, k, m) && Nested(g, s, k)
      ensures NestedAvailability(g.cabins[s].nodes, k) == Class(g, s, k, m).availability >= 0.0
    {
      SameShapeSameClasses(f, g, s, k, m);
      StepNode(f, e, ceiling, s, k);
      GuardedStep(f, e, ceiling, s, k, m);
      StepShows(f, e, ceiling, s, k, m);
    }
  }

  /** No guarded run drives an availability below zero: from the first reservation
      on, or from the start where none is negative, no nested class shows one. */
  lemma {:induction false} GuardedRunKeepsNonNegative(f: Flight, es: seq<Reservation>, ceiling: real)
    requires Honest(f) && OnFlight(f, es) && Guarded(f, es, ceiling)
    ensures Honest(Run(f, es, ceiling))
    ensures es != [] || NoNegativeAvailability(f) ==> NoNegativeAvailability(Run(f, es, ceiling))
    decreases |es|
  {
    if es == [] {
    } else {
      RestOnFlight(f, es, ceiling);
      GuardedStepStaysHonest(f, es[0], ceiling);
      GuardedRunKeepsNonNegative(Step(f, es[0], ceiling), es[1..], ceiling);
    }
  }

  /** The segment-cabin has a nested class; its top node is then nested. */
  ghost predicate HasTop(f: Flight, s: nat) {
    s < |f.cabins| && f.cabins[s].nodes != [] && f.cabins[s].nodes[0].yld >= 0.0 && f.cabins[s].nodes[0].classes != []
  }

  ghost function TopLevel(f: Flight, s: nat): real
    requires HasTop(f, s)
  {
    Class(f, s, 0, 0).authorization
  }

  lemma RunKeepsTop(f: Flight, es: seq<Reservation>, ceiling: real, s: nat)
    requires WellFormed(f) && OnFlight(f, es) && HasTop(f, s)
    ensures HasTop(Run(f, es, ceiling), s) && TopLevel(Run(f, es, ceiling), s) == TopLevel(f, s)
  {
    var g := Run(f, es, ceiling);
    RunKeepsShape(f, es, ceiling);
    assert SameNesting(f.cabins[s].nodes, g.cabins[s].nodes);
    assert SameNode(f.cabins[s].nodes[0], g.cabins[s].nodes[0]);
  }

  /** In every guarded run, the bookings of all nested classes together stay
      within the authorization level of the top node. */
  lemma GuardedRunsStayWithinTheTopLevel(f: Flight, es: seq<Reservation>, ceiling: real, s: nat)
    requires Honest(f) && OnFlight(f, es) && Guarded(f, es, ceiling) && HasTop(f, s)
    ensures s < |Run(f, es, ceiling).cabins|
    ensures NestedBookings(Run(f, es, ceiling).cabins[s].nodes, 0) <= TopLevel(f, s)
  {
    var g := Run(f, es, ceiling);
    GuardedRunKeepsNonNegative(f, es, ceiling);
    RunKeepsTop(f, es, ceiling, s);
    assert HasClass(g, s, 0, 0) && Nested(g, s, 0);
    assert NestedAvailability(g.cabins[s].nodes, 0) == Gap(g.cabins[s].nodes, 0);
  }

  lemma {:induction false} EmptyNestingShowsItsLevel(ns: seq<Node>, k: nat, level: real)
    requires WellNested(ns) && k < |ns| && ns[k].yld >= 0.0
    requires forall i :: 0 <= i < |ns| && ns[i].yld >= 0.0 ==> ns[i].classes[0].authorization == level
    requires forall i :: 0 <= i <= |ns| ==> NestedBookings(ns, i) == 0.0
    ensures NestedAvailability(ns, k) == level
  {
    assert NestedBookings(ns, k) == 0.0;
    if k == 0 {
    } else {
      EmptyNestingShowsItsLevel(ns, k - 1, level);
    }
  }

  lemma {:induction false} NothingNested(ns: seq<Node>, k: nat)
    requires k <= |ns|
    requires forall i, m :: 0 <= i < |ns| && 0 <= m < |ns[i].classes| ==> ns[i].classes[m].bookings == 0.0
    ensures NestedBookings(ns, k) == 0.0
    decreases |ns| - k
  {
    if k == |ns| {
    } else {
      NothingBookedInNode(ns[k].classes);
      NothingNested(ns, k + 1);
    }
  }

  /** A loaded flight is honest: its classes show nothing yet, and can sell up to
      the capacity of their segment. */
  lemma LoadedIsHonest(f: Flight, maxCapacity: real)
    requires Loaded(f, maxCapacity) && forall s :: 0 <= s < |f.cabins| ==> f.cabins[s].pool >= 0.0
    ensures Honest(f)
  {
    forall s: nat, k: nat, m | HasClass(f, s, k, m) && Nested(f, s, k)
      ensures NestedAvailability(f.cabins[s].nodes, k) >= 0.0
      ensures Class(f, s, k, m).availability <= NestedAvailability(f.cabins[s].nodes, k)
    {
      LoadedCanSellItsCapacity(f, maxCapacity, s, k);
    }
  }

  lemma LoadedCanSellItsCapacity(f: Flight, maxCapacity: real, s: nat, k: nat)
    requires Loaded(f, maxCapacity) && s < |f.cabins| && k < |f.cabins[s].nodes| && Nested(f, s, k)
    ensures NestedAvailability(f.cabins[s].nodes, k) == f.cabins[s].pool
  {
    var ns := f.cabins[s].nodes;
    LoadedIsEmpty(f, maxCapacity, s);
    forall i | 0 <= i < |ns|
      ensures ns[i].classes[0].authorization == f.cabins[s].pool
    {
      assert HasClass(f, s, i, 0);
      assert Class(f, s, i, 0) == ClassControl(0.0, 0.0, f.cabins[s].pool, 0.0, 0.0);
    }
    forall i | 0 <= i <= |ns|
      ensures NestedBookings(ns, i) == 0.0
    {
      NothingNested(ns, i);
    }
    EmptyNestingShowsItsLevel(ns, k, f.cabins[s].pool);
  }

  // ----------------------------------------------- classes outside the nesting

  /** The bookings of the nodes of negative yield. */
  ghost function OutsideBookings(ns: seq<Node>): real {
    if ns == [] then 0.0
    else (if ns[0].yld < 0.0 then Booked(ns[0].classes) else 0.0) + OutsideBookings(ns[1..])
  }

  lemma {:induction false} BookingsAreNestedOrOutside(ns: seq<Node>, k: nat)
    requires k <= |ns|
    ensures TotalBookings(ns[k..]) == NestedBookings(ns, k) + OutsideBookings(ns[k..])
    decreases |ns| - k
  {
    if k == |ns| {
    } else {
      BookingsAreNestedOrOutside(ns, k + 1);
      assert ns[k..][0] == ns[k] && ns[k..][1..] == ns[k + 1..];
    }
  }

  lemma OutsideIsTheRest(ns: seq<Node>)
    ensures OutsideBookings(ns) == TotalBookings(ns) - NestedBookings(ns, 0)
  {
    BookingsAreNestedOrOutside(ns, 0);
    assert ns[0..] == ns;
  }

  /** No party can be sold, under the guard, outside the nesting of a segment. */
  ghost predicate ClosedOutside(f: Flight, s: nat)
    requires s < |f.cabins|
  {
    forall k, m | HasClass(f, s, k, m) :: !Nested(f, s, k) ==> Class(f, s, k, m).availability < 1.0
  }

  /** A class outside the nesting keeps what it shows. */
  lemma StepStaysClosed(f: Flight, e: Reservation, ceiling: real, s: nat)
    requires WellFormed(f) && HasClass(f, e.s, e.k, e.m) && s < |f.cabins| && ClosedOutside(f, s)
    ensures ClosedOutside(Step(f, e, ceiling), s)
  {
    var g := Step(f, e, ceiling);
    StepKeepsShape(f, e, ceiling);
    forall k, m | HasClass(g, s, k, m) && !Nested(g, s, k)
      ensures Class(g, s, k, m).availability < 1.0
    {
      SameShapeSameClasses(f, g, s, k, m);
      StepClass(f, e, ceiling, s, k, m);
      StepNode(f, e, ceiling, s, k);
    }
  }

  lemma ClosedStep(f: Flight, e: Reservation, ceiling: real, s: nat)
    requires WellFormed(f) && HasClass(f, e.s, e.k, e.m) && Allowed(f, e)
    requires s < |f.cabins| && ClosedOutside(f, s)
    ensures ClosedOutside(Step(f, e, ceiling), s)
    ensures OutsideBookings(Step(f, e, ceiling).cabins[s].nodes) <= OutsideBookings(f.cabins[s].nodes)
  {
    StepStaysClosed(f, e, ceiling, s);
    OutsideIsTheRest(f.cabins[s].nodes);
    OutsideIsTheRest(Step(f, e, ceiling).cabins[s].nodes);
    StepShiftsTotal(f, e, ceiling, s);
    StepShiftsNested(f, e, ceiling, s);
    if s == e.s && e.Sale? && !Nested(f, s, e.k) {
      assert Class(f, s, e.k, e.m).availability < 1.0;
    }
  }

  lemma StepShiftsNested(f: Flight, e: Reservation, ceiling: real, s: nat)
    requires WellFormed(f) && HasClass(f, e.s, e.k, e.m) && s < |f.cabins|
    ensures NestedBookings(Step(f, e, ceiling).cabins[s].nodes, 0)
         == NestedBookings(f.cabins[s].nodes, 0) + (if s == e.s && Nested(f, s, e.k) then e.Net() else 0.0)
  {
    RegisteredKeepsNesting(f, e, s);
    var r := Registered(f, e, s);
    RecalculatedKeepsNesting(r.nodes);
    SameNestedBookings(r.nodes, Recalculated(r.nodes), 0);
    if s == e.s {
      BookingShiftsNestedBookings(f.cabins[s].nodes, e.k, e.m, e.Net(), e.Cancelled(), 0);
    }
  }

  lemma {:induction false} ClosedRun(f: Flight, es: seq<Reservation>, ceiling: real, s: nat)
    requires WellFormed(f) && OnFlight(f, es) && Guarded(f, es, ceiling)
    requires s < |f.cabins| && ClosedOutside(f, s)
    ensures s < |Run(f, es, ceiling).cabins|
    ensures OutsideBookings(Run(f, es, ceiling).cabins[s].nodes) <= OutsideBookings(f.cabins[s].nodes)
    decreases |es|
  {
    if es == [] {
    } else {
      RestOnFlight(f, es, ceiling);
      ClosedStep(f, es[0], ceiling, s);
      ClosedRun(Step(f, es[0], ceiling), es[1..], ceiling, s);
    }
  }

  /** n single seats sold one after the other on one class. */
  ghost function SeatBySeat(s: nat, k: nat, m: nat, n: nat): seq<Reservation> {
    seq(n, _ => Sale(s, k, m, 1))
  }

  /** A class outside the nesting keeps the availability it shows, so whoever
      can buy one seat there can buy any number of them. */
  lemma {:induction false} OutsideSalesNeverStop(f: Flight, ceiling: real, s: nat, k: nat, m: nat, n: nat)
    requires WellFormed(f) && HasClass(f, s, k, m) && !Nested(f, s, k)
    requires Class(f, s, k, m).availability >= 1.0
    ensures OnFlight(f, SeatBySeat(s, k, m, n)) && Guarded(f, SeatBySeat(s, k, m, n), ceiling)
    ensures |Run(f, SeatBySeat(s, k, m, n), ceiling).cabins| == |f.cabins|
    ensures forall t :: 0 <= t < |f.cabins| ==>
              TotalBookings(Run(f, SeatBySeat(s, k, m, n), ceiling).cabins[t].nodes)
              == TotalBookings(f.cabins[t].nodes) + (if t == s then n as real else 0.0)
    decreases n
  {
    var es := SeatBySeat(s, k, m, n);
    if n == 0 {
    } else {
      var g := Step(f, es[0], ceiling);
      assert es[0] == Sale(s, k, m, 1) && es[1..] == SeatBySeat(s, k, m, n - 1);
      RestOnFlight(f, es, ceiling);
      StepClass(f, es[0], ceiling, s, k, m);
      StepNode(f, es[0], ceiling, s, k);
      OutsideSalesNeverStop(g, ceiling, s, k, m, n - 1);
      forall t | 0 <= t < |f.cabins|
        ensures TotalBookings(g.cabins[t].nodes) == TotalBookings(f.cabins[t].nodes) + (if t == s then 1.0 else 0.0)
      {
        StepShiftsTotal(f, es[0], ceiling, t);
      }
    }
  }

  // ------------------------------------------------------- what a run can sell

  /** The whole seats the nesting of a segment-cabin can still sell. */
  ghost function Seats(f: Flight, s: nat): int {
    if HasTop(f, s) then Room(f, s).Floor else 0
  }

  ghost function Room(f: Flight, s: nat): real
    requires HasTop(f, s)
  {
    TopLevel(f, s) - NestedBookings(f.cabins[s].nodes, 0)
  }

  /** Parties are whole: a run changes nested bookings by a whole number. */
  lemma {:induction false} RunSellsWholeSeats(f: Flight, es: seq<Reservation>, ceiling: real, s: nat) returns (n: int)
    requires WellFormed(f) && OnFlight(f, es) && s < |f.cabins|
    ensures s < |Run(f, es, ceiling).cabins|
    ensures NestedBookings(Run(f, es, ceiling).cabins[s].nodes, 0) == NestedBookings(f.cabins[s].nodes, 0) + n as real
    decreases |es|
  {
    if es == [] {
      n := 0;
    } else {
      var e := es[0];
      RestOnFlight(f, es, ceiling);
      StepShiftsNested(f, e, ceiling, s);
      n := RunSellsWholeSeats(Step(f, e, ceiling), es[1..], ceiling, s);
      if s == e.s && Nested(f, s, e.k) {
        n := n + if e.Sale? then e.party else -e.party;
      }
    }
  }

  lemma {:induction false} NothingNestedWithoutTop(ns: seq<Node>, k: nat)
    requires WellNested(ns) && k <= |ns| && (ns != [] ==> ns[0].yld < 0.0)
    ensures NestedBookings(ns, k) == 0.0
    decreases |ns| - k
  {
    if k == |ns| {
    } else {
      NothingNestedWithoutTop(ns, k + 1);
    }
  }

  /** A segment-cabin without a nested class has none after a run either. */
  lemma RunKeepsNoTop(f: Flight, es: seq<Reservation>, ceiling: real, s: nat)
    requires WellFormed(f) && OnFlight(f, es) && s < |f.cabins| && !HasTop(f, s)
    ensures s < |Run(f, es, ceiling).cabins|
    ensures NestedBookings(Run(f, es, ceiling).cabins[s].nodes, 0) == 0.0 == NestedBookings(f.cabins[s].nodes, 0)
  {
    var g := Run(f, es, ceiling);
    RunKeepsShape(f, es, ceiling);
    assert SameNesting(f.cabins[s].nodes, g.cabins[s].nodes);
    if f.cabins[s].nodes != [] {
      assert SameNode(f.cabins[s].nodes[0], g.cabins[s].nodes[0]);
    }
    NothingNestedWithoutTop(f.cabins[s].nodes, 0);
    NothingNestedWithoutTop(g.cabins[s].nodes, 0);
  }

  lemma WholeSeatsFit(n: int, room: real)
    requires n as real <= room
    ensures n <= room.Floor
  {
  }

  /** A guarded run adds no more than whole seats of the room of the nesting to
      the nested bookings. */
  lemma NestedWithinSeats(f: Flight, es: seq<Reservation>, ceiling: real, s: nat)
    requires Honest(f) && OnFlight(f, es) && Guarded(f, es, ceiling) && s < |f.cabins|
    ensures s < |Run(f, es, ceiling).cabins|
    ensures NestedBookings(Run(f, es, ceiling).cabins[s].nodes, 0)
         <= NestedBookings(f.cabins[s].nodes, 0) + Seats(f, s) as real
  {
    if HasTop(f, s) {
      var n := RunSellsWholeSeats(f, es, ceiling, s);
      GuardedRunsStayWithinTheTopLevel(f, es, ceiling, s);
      WholeSeatsFit(n, Room(f, s));
    } else {
      RunKeepsNoTop(f, es, ceiling, s);
    }
  }

  /** Where nothing is sold outside the nesting, a guarded run adds no more than
      the seats the nesting can sell to all bookings of a segment-cabin. */
  lemma GuardedRunsSellTheSeats(f: Flight, es: seq<Reservation>, ceiling: real, s: nat)
    requires Honest(f) && OnFlight(f, es) && Guarded(f, es, ceiling)
    requires s < |f.cabins| && ClosedOutside(f, s)
    ensures s < |Run(f, es, ceiling).cabins|
    ensures TotalBookings(Run(f, es, ceiling).cabins[s].nodes)
         <= TotalBookings(f.cabins[s].nodes) + Seats(f, s) as real
  {
    NestedWithinSeats(f, es, ceiling, s);
    ClosedRun(f, es, ceiling, s);
    OutsideIsTheRest(f.cabins[s].nodes);
    OutsideIsTheRest(Run(f, es, ceiling).cabins[s].nodes);
  }

  /** Bringing the availabilities up to date, and then selling all seats of the
      nesting at its top. */
  ghost function SellOut(f: Flight, s: nat): seq<Reservation>
    requires HasTop(f, s)
  {
    [Cancellation(s, 0, 0, 0), Sale(s, 0, 0, Seats(f, s))]
  }

  lemma TopCanSellItsRoom(f: Flight, s: nat)
    requires Honest(f) && HasTop(f, s)
    ensures 0.0 <= Seats(f, s) as real <= Room(f, s) == NestedAvailability(f.cabins[s].nodes, 0)
  {
    assert HasClass(f, s, 0, 0) && Nested(f, s, 0);
    assert NestedAvailability(f.cabins[s].nodes, 0) == Gap(f.cabins[s].nodes, 0);
    assert Class(f, s, 0, 0).availability <= NestedAvailability(f.cabins[s].nodes, 0);
  }

  /** An empty cancellation changes no bookings: it only brings pools and
      availabilities up to date. */
  lemma EmptyCancellation(f: Flight, ceiling: real, t: nat, s: nat)
    requires Honest(f) && HasTop(f, t) && HasTop(f, s)
    ensures HasTop(Step(f, Cancellation(t, 0, 0, 0), ceiling), s)
    ensures var g := Step(f, Cancellation(t, 0, 0, 0), ceiling);
            && Honest(g) && Room(g, s) == Room(f, s) && Seats(g, s) == Seats(f, s)
            && Class(g, s, 0, 0).availability == Room(f, s)
  {
    var e := Cancellation(t, 0, 0, 0);
    var g := Step(f, e, ceiling);
    GuardedStepStaysHonest(f, e, ceiling);
    StepNode(f, e, ceiling, s, 0);
    StepClass(f, e, ceiling, s, 0, 0);
    StepShiftsNested(f, e, ceiling, s);
    StepShows(f, e, ceiling, s, 0, 0);
    assert NestedAvailability(g.cabins[s].nodes, 0) == Gap(g.cabins[s].nodes, 0);
  }

  /** All seats of the nesting can be sold under the guard. */
  lemma AllSeatsCanBeSold(f: Flight, ceiling: real, s: nat)
    requires Honest(f) && HasTop(f, s)
    ensures OnFlight(f, SellOut(f, s)) && Guarded(f, SellOut(f, s), ceiling)
    ensures s < |Run(f, SellOut(f, s), ceiling).cabins|
    ensures TotalBookings(Run(f, SellOut(f, s), ceiling).cabins[s].nodes)
         == TotalBookings(f.cabins[s].nodes) + Seats(f, s) as real
  {
    var c, e := Cancellation(s, 0, 0, 0), Sale(s, 0, 0, Seats(f, s));
    var g := Step(f, c, ceiling);
    assert SellOut(f, s)[1..] == [e] && [e][1..] == [];
    TopCanSellItsRoom(f, s);
    EmptyCancellation(f, ceiling, s, s);
    RestOnFlight(f, SellOut(f, s), ceiling);
    assert Guarded(g, [e], ceiling) by {
      RestOnFlight(g, [e], ceiling);
      assert Guarded(Step(g, e, ceiling), [], ceiling);
    }
    assert Run(g, [e], ceiling) == Step(g, e, ceiling) by {
      RestOnFlight(g, [e], ceiling);
    }
    StepShiftsTotal(f, c, ceiling, s);
    StepShiftsTotal(g, e, ceiling, s);
  }

  /** In every guarded run all bookings of the segment-cabin, nested or not,
      stay within a bound. */
  ghost predicate StaysWithin(f: Flight, ceiling: real, s: nat, bound: real)
    requires WellFormed(f) && s < |f.cabins|
  {
    forall es: seq<Reservation> | OnFlight(f, es) && Guarded(f, es, ceiling) ::
      s < |Run(f, es, ceiling).cabins| && TotalBookings(Run(f, es, ceiling).cabins[s].nodes) <= bound
  }

  /** Guarded runs keep all bookings of a segment-cabin within a bound exactly
      when no class of negative yield shows a seat, for such a class is never
      recalculated and the guard never closes it, and the seats the nesting can
      still sell fit the bound. */
  lemma BookingsStayWithinIff(f: Flight, ceiling: real, s: nat, bound: real)
    requires Honest(f) && s < |f.cabins|
    ensures StaysWithin(f, ceiling, s, bound)
       <==> ClosedOutside(f, s) && TotalBookings(f.cabins[s].nodes) + Seats(f, s) as real <= bound
  {
    if !ClosedOutside(f, s) {
      var k, m :| HasClass(f, s, k, m) && !Nested(f, s, k) && Class(f, s, k, m).availability >= 1.0;
      var excess := bound - TotalBookings(f.cabins[s].nodes);
      var n: nat := if excess < 0.0 then 0 else excess.Floor + 1;
      OutsideSalesNeverStop(f, ceiling, s, k, m, n);
      assert TotalBookings(Run(f, SeatBySeat(s, k, m, n), ceiling).cabins[s].nodes) > bound;
    } else if TotalBookings(f.cabins[s].nodes) + Seats(f, s) as real > bound {
      if HasTop(f, s) {
        AllSeatsCanBeSold(f, ceiling, s);
        assert TotalBookings(Run(f, SellOut(f, s), ceiling).cabins[s].nodes) > bound;
      } else {
        assert OnFlight(f, []) && Guarded(f, [], ceiling);
        assert TotalBookings(Run(f, [], ceiling).cabins[s].nodes) > bound;
      }
    } else {
      forall es: seq<Reservation> | OnFlight(f, es) && Guarded(f, es, ceiling)
        ensures s < |Run(f, es, ceiling).cabins|
        ensures TotalBookings(Run(f, es, ceiling).cabins[s].nodes) <= bound
      {
        GuardedRunsSellTheSeats(f, es, ceiling, s);
      }
    }
  }

  lemma LoadedIsClosedOutside(f: Flight, maxCapacity: real, s: nat)
    requires Loaded(f, maxCapacity) && s < |f.cabins|
    ensures ClosedOutside(f, s)
  {
    forall k, m | HasClass(f, s, k, m)
      ensures Class(f, s, k, m).availability < 1.0
    {
      assert Class(f, s, k, m) == ClassControl(0.0, 0.0, f.cabins[s].pool, 0.0, 0.0);
    }
  }

  /** From a loaded flight, no guarded run books a segment-cabin, nested classes
      and others together, beyond its initial capacity. */
  lemma GuardedRunsStayWithinCapacity(f: Flight, maxCapacity: real, es: seq<Reservation>, ceiling: real, s: nat)
    requires Loaded(f, maxCapacity) && forall t :: 0 <= t < |f.cabins| ==> f.cabins[t].pool >= 0.0
    requires OnFlight(f, es) && Guarded(f, es, ceiling) && s < |f.cabins|
    ensures s < |Run(f, es, ceiling).cabins|
    ensures TotalBookings(Run(f, es, ceiling).cabins[s].nodes) <= f.cabins[s].pool
    ensures es != [] ==> NoNegativeAvailability(Run(f, es, ceiling))
  {
    LoadedIsHonest(f, maxCapacity);
    LoadedIsClosedOutside(f, maxCapacity, s);
    LoadedIsEmpty(f, maxCapacity, s);
    GuardedRunKeepsNonNegative(f, es, ceiling);
    GuardedRunsSellTheSeats(f, es, ceiling, s);
    if HasTop(f, s) {
      LoadedCanSellItsCapacity(f, maxCapacity, s, 0);
      TopCanSellItsRoom(f, s);
    }
  }
}
