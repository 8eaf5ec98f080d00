/** The values of the seat controls of one segment-cabin, and what the nested
    controls mean, written without loops or objects.  Classes are grouped in
    nesting nodes of decreasing yield; nodes of negative yield take no part in
    the nesting and keep the controls they have. */
module NestedControls {

  /** The counters and controls of one booking class. */
  datatype ClassControl = ClassControl(
    bookings: real,
    cancellations: real,
    authorization: real,
    bookingLimit: real,
    availability: real)

  /** One nesting node: the classes sharing one yield. */
  datatype Node = Node(yld: real, classes: seq<ClassControl>)

  ghost predicate DecreasingYields(ns: seq<Node>) {
    forall i, j :: 0 <= i < j < |ns| ==> ns[i].yld > ns[j].yld
  }

  ghost predicate NonEmptyNodes(ns: seq<Node>) {
    forall k :: 0 <= k < |ns| ==> ns[k].classes != []
  }

  /** Every class of a nested node carries the node's authorization level. */
  ghost predicate UniformAuthorization(ns: seq<Node>) {
    forall k, m :: 0 <= k < |ns| && ns[k].yld >= 0.0 && 0 <= m < |ns[k].classes| ==>
      ns[k].classes[m].authorization == ns[k].classes[0].authorization
  }

  /** Every class of a nested node carries the node's cumulative booking limit. */
  ghost predicate UniformLimit(ns: seq<Node>) {
    forall k, m :: 0 <= k < |ns| && ns[k].yld >= 0.0 && 0 <= m < |ns[k].classes| ==>
      ns[k].classes[m].bookingLimit == ns[k].classes[0].bookingLimit
  }

  ghost predicate WellNested(ns: seq<Node>) {
    DecreasingYields(ns) && NonEmptyNodes(ns)
  }

  // ---------------------------------------------------------------- bookings

  ghost function Booked(cs: seq<ClassControl>): real {
    if cs == [] then 0.0 else cs[0].bookings + Booked(cs[1..])
  }

  /** The bookings a node brings into the nesting. */
  ghost function NodeBookings(n: Node): real {
    if n.yld < 0.0 then 0.0 else Booked(n.classes)
  }

  /** The bookings of the nested nodes k, k+1, ... */
  ghost function NestedBookings(ns: seq<Node>, k: nat): real
    requires k <= |ns|
    decreases |ns| - k
  {
    if k == |ns| then 0.0 else NodeBookings(ns[k]) + NestedBookings(ns, k + 1)
  }

  /** All bookings of all nodes, nested or not. */
  ghost function TotalBookings(ns: seq<Node>): real {
    if ns == [] then 0.0 else Booked(ns[0].classes) + TotalBookings(ns[1..])
  }

  // ------------------------------------------------------------ availability

  /** The room left under the authorization level of node k alone. */
  ghost function Gap(ns: seq<Node>, k: nat): real
    requires k < |ns| && NonEmptyNodes(ns)
  {
    ns[k].classes[0].authorization - NestedBookings(ns, k)
  }

  ghost function Min(a: real, b: real): real {
    if a < b then a else b
  }

  /** The least room left under the levels of nodes 0..k. */
  ghost function NestedAvailability(ns: seq<Node>, k: nat): real
    requires k < |ns| && NonEmptyNodes(ns)
  {
    if k == 0 then Gap(ns, 0) else Min(NestedAvailability(ns, k - 1), Gap(ns, k))
  }

  /** NestedAvailability is the minimum of the gaps of nodes 0..k: a lower bound
      that is reached. */
  lemma {:induction false} NestedAvailabilityIsTheMinimum(ns: seq<Node>, k: nat)
    requires k < |ns| && NonEmptyNodes(ns)
    ensures forall j :: 0 <= j <= k ==> NestedAvailability(ns, k) <= Gap(ns, j)
    ensures exists j :: 0 <= j <= k && NestedAvailability(ns, k) == Gap(ns, j)
  {
    if k == 0 {
      assert NestedAvailability(ns, 0) == Gap(ns, 0);
    } else {
      NestedAvailabilityIsTheMinimum(ns, k - 1);
      var j :| 0 <= j <= k - 1 && NestedAvailability(ns, k - 1) == Gap(ns, j);
      assert NestedAvailability(ns, k) == Gap(ns, if NestedAvailability(ns, k - 1) < Gap(ns, k) then j else k);
    }
  }

  /** Availability never increases as the yield decreases. */
  lemma {:induction false} AvailabilityFollowsYield(ns: seq<Node>, i: nat, k: nat)
    requires i <= k < |ns| && NonEmptyNodes(ns)
    ensures NestedAvailability(ns, k) <= NestedAvailability(ns, i)
    decreases k - i
  {
    if i == k {
    } else {
      AvailabilityFollowsYield(ns, i, k - 1);
    }
  }

  // ----------------------------------------------- control changes as values

  ghost function WithAvailability(n: Node, a: real): Node {
    n.(classes := seq(|n.classes|, m requires 0 <= m < |n.classes| => n.classes[m].(availability := a)))
  }

  ghost function WithAuthorization(n: Node, a: real): Node {
    n.(classes := seq(|n.classes|, m requires 0 <= m < |n.classes| => n.classes[m].(authorization := a)))
  }

  ghost function WithLimit(n: Node, l: real): Node {
    n.(classes := seq(|n.classes|, m requires 0 <= m < |n.classes| => n.classes[m].(bookingLimit := l)))
  }

  /** Every nested class shows the nested availability of its node. */
  ghost function Recalculated(ns: seq<Node>): (r: seq<Node>)
    requires NonEmptyNodes(ns)
  {
    seq(|ns|, k requires 0 <= k < |ns| =>
      if ns[k].yld < 0.0 then ns[k] else WithAvailability(ns[k], NestedAvailability(ns, k)))
  }

  /** The limit of node k on top of the bookings already taken at its yield and below. */
  ghost function LevelFor(ns: seq<Node>, k: nat): real
    requires k < |ns| && NonEmptyNodes(ns)
  {
    NestedBookings(ns, k) + ns[k].classes[0].bookingLimit
  }

  /** Every nested class is authorized its limit on top of the bookings already
      taken at its yield and below. */
  ghost function Authorized(ns: seq<Node>): (r: seq<Node>)
    requires NonEmptyNodes(ns)
  {
    seq(|ns|, k requires 0 <= k < |ns| =>
      if ns[k].yld < 0.0 then ns[k] else WithAuthorization(ns[k], LevelFor(ns, k)))
  }

  /** Class m of node k gains d net bookings and c cancellations. */
  ghost function Booking(ns: seq<Node>, k: nat, m: nat, d: real, c: real): (r: seq<Node>)
    requires k < |ns| && m < |ns[k].classes|
  {
    var x := ns[k].classes[m];
    ns[k := ns[k].(classes := ns[k].classes[m := x.(bookings := x.bookings + d, cancellations := x.cancellations + c)])]
  }

  lemma LastAvailabilityCounts(n: Node, a: real, b: real)
    ensures WithAvailability(WithAvailability(n, a), b) == WithAvailability(n, b)
  {
    assert WithAvailability(WithAvailability(n, a), b).classes == WithAvailability(n, b).classes;
  }

  // ------------------------------------------- what the changes do not touch

  lemma {:induction false} SameBooked(a: seq<ClassControl>, b: seq<ClassControl>)
    requires |a| == |b| && forall m :: 0 <= m < |a| ==> a[m].bookings == b[m].bookings
    ensures Booked(a) == Booked(b)
  {
    if a == [] {
    } else {
      SameBooked(a[1..], b[1..]);
    }
  }

  /** Two nestings with the same yields and bookings. */
  ghost predicate SameBookings(a: seq<Node>, b: seq<Node>) {
    && |a| == |b|
    && forall k :: 0 <= k < |a| ==>
      && a[k].yld == b[k].yld
      && |a[k].classes| == |b[k].classes|
      && forall m :: 0 <= m < |a[k].classes| ==> a[k].classes[m].bookings == b[k].classes[m].bookings
  }

  lemma {:induction false} SameNestedBookings(a: seq<Node>, b: seq<Node>, k: nat)
    requires SameBookings(a, b) && k <= |a|
    ensures NestedBookings(a, k) == NestedBookings(b, k)
    decreases |a| - k
  {
    if k == |a| {
    } else {
      SameBooked(a[k].classes, b[k].classes);
      SameNestedBookings(a, b, k + 1);
    }
  }

  lemma {:induction false} SameTotalBookings(a: seq<Node>, b: seq<Node>)
    requires SameBookings(a, b)
    ensures TotalBookings(a) == TotalBookings(b)
  {
    if a == [] {
    } else {
      SameBooked(a[0].classes, b[0].classes);
      SameTotalBookings(a[1..], b[1..]);
    }
  }

  /** Two nestings with the same yields, bookings and node levels. */
  ghost predicate SameGaps(a: seq<Node>, b: seq<Node>)
    requires NonEmptyNodes(a) && NonEmptyNodes(b)
  {
    && SameBookings(a, b)
    && forall k :: 0 <= k < |a| && a[k].yld >= 0.0 ==>
      a[k].classes[0].authorization == b[k].classes[0].authorization
  }

  lemma {:induction false} SameNestedAvailability(a: seq<Node>, b: seq<Node>, k: nat)
    requires WellNested(a) && WellNested(b) && SameGaps(a, b)
    requires k < |a| && a[k].yld >= 0.0
    ensures NestedAvailability(a, k) == NestedAvailability(b, k)
  {
    SameNestedBookings(a, b, k);
    if k == 0 {
    } else {
      SameNestedAvailability(a, b, k - 1);
    }
  }

  lemma RecalculatedNode(ns: seq<Node>, k: nat, m: nat)
    requires NonEmptyNodes(ns) && k < |ns| && m < |ns[k].classes|
    ensures |Recalculated(ns)| == |ns|
    ensures |Recalculated(ns)[k].classes| == |ns[k].classes|
    ensures Recalculated(ns)[k].yld == ns[k].yld
    ensures Recalculated(ns)[k].classes[m] ==
            if ns[k].yld >= 0.0 then ns[k].classes[m].(availability := NestedAvailability(ns, k)) else ns[k].classes[m]
  {
  }

  lemma RecalculatedKeepsNesting(ns: seq<Node>)
    requires WellNested(ns)
    ensures WellNested(Recalculated(ns)) && SameGaps(ns, Recalculated(ns))
  {
    var r := Recalculated(ns);
    forall k | 0 <= k < |ns|
      ensures r[k].yld == ns[k].yld && r[k].classes != [] && |r[k].classes| == |ns[k].classes|
      ensures r[k].classes[0].authorization == ns[k].classes[0].authorization
    {
      RecalculatedNode(ns, k, 0);
    }
    forall k, m | 0 <= k < |ns| && 0 <= m < |ns[k].classes|
      ensures r[k].classes[m].bookings == ns[k].classes[m].bookings
    {
      RecalculatedNode(ns, k, m);
    }
  }

  lemma RecalculatedKeepsUniform(ns: seq<Node>)
    requires WellNested(ns) && UniformAuthorization(ns)
    ensures UniformAuthorization(Recalculated(ns))
  {
    var r := Recalculated(ns);
    forall k, m | 0 <= k < |ns| && ns[k].yld >= 0.0 && 0 <= m < |ns[k].classes|
      ensures r[k].classes[m].authorization == r[k].classes[0].authorization
    {
      RecalculatedNode(ns, k, m);
      RecalculatedNode(ns, k, 0);
    }
  }

  /** Recalculating twice is recalculating once. */
  lemma RecalculatedIsStable(ns: seq<Node>)
    requires WellNested(ns)
    ensures WellNested(Recalculated(ns))
    ensures Recalculated(Recalculated(ns)) == Recalculated(ns)
  {
    RecalculatedKeepsNesting(ns);
    var r := Recalculated(ns);
    forall k | 0 <= k < |ns|
      ensures Recalculated(r)[k] == r[k]
    {
      if ns[k].yld >= 0.0 {
        SameNestedAvailability(ns, r, k);
        assert WithAvailability(r[k], NestedAvailability(r, k)).classes == r[k].classes;
      }
    }
  }

  // ----------------------------------------------------- the effect of a sale

  lemma {:induction false} BookedUpdate(cs: seq<ClassControl>, m: nat, x: ClassControl)
    requires m < |cs|
    ensures Booked(cs[m := x]) == Booked(cs) - cs[m].bookings + x.bookings
  {
    if m == 0 {
      assert cs[0 := x][1..] == cs[1..];
    } else {
      assert cs[m := x][1..] == cs[1..][m - 1 := x];
      BookedUpdate(cs[1..], m - 1, x);
    }
  }

  lemma {:induction false} BookingShiftsNestedBookings(ns: seq<Node>, k: nat, m: nat, d: real, c: real, j: nat)
    requires k < |ns| && m < |ns[k].classes| && j <= |ns|
    ensures NestedBookings(Booking(ns, k, m, d, c), j)
         == NestedBookings(ns, j) + (if j <= k && ns[k].yld >= 0.0 then d else 0.0)
    decreases |ns| - j
  {
    if j == |ns| {
    } else {
      BookingShiftsNestedBookings(ns, k, m, d, c, j + 1);
      if j == k {
        BookedUpdate(ns[k].classes, m, Booking(ns, k, m, d, c)[k].classes[m]);
      }
    }
  }

  lemma {:induction false} BookingShiftsTotal(ns: seq<Node>, k: nat, m: nat, d: real, c: real)
    requires k < |ns| && m < |ns[k].classes|
    ensures TotalBookings(Booking(ns, k, m, d, c)) == TotalBookings(ns) + d
  {
    var b := Booking(ns, k, m, d, c);
    if k == 0 {
      BookedUpdate(ns[0].classes, m, b[0].classes[m]);
      assert b[1..] == ns[1..];
    } else {
      BookingShiftsTotal(ns[1..], k - 1, m, d, c);
      assert b[1..] == Booking(ns[1..], k - 1, m, d, c);
    }
  }

  lemma BookingKeepsNesting(ns: seq<Node>, k: nat, m: nat, d: real, c: real)
    requires WellNested(ns) && k < |ns| && m < |ns[k].classes|
    ensures WellNested(Booking(ns, k, m, d, c))
    ensures UniformAuthorization(ns) ==> UniformAuthorization(Booking(ns, k, m, d, c))
  {
    var b := Booking(ns, k, m, d, c);
    forall i | 0 <= i < |ns|
      ensures b[i].yld == ns[i].yld && |b[i].classes| == |ns[i].classes|
      ensures forall j :: 0 <= j < |ns[i].classes| ==> b[i].classes[j].authorization == ns[i].classes[j].authorization
    {
    }
  }

  /** What d more (or -d fewer) bookings in nested node k do to the availability
      of node i: nodes of equal or higher yield move by d; the others keep at
      least the smaller of their own availability and what node k has left, and
      move the same way by something between nothing and d. */
  lemma {:induction false} BookingShiftsAvailability(ns: seq<Node>, k: nat, m: nat, d: real, c: real, i: nat)
    requires WellNested(ns) && k < |ns| && m < |ns[k].classes| && i < |ns|
    requires ns[k].yld >= 0.0 && ns[i].yld >= 0.0
    ensures NonEmptyNodes(Booking(ns, k, m, d, c))
    ensures var before := NestedAvailability(ns, i);
            var after := NestedAvailability(Booking(ns, k, m, d, c), i);
            if i <= k then after == before - d
            else
              && after >= Min(before, NestedAvailability(ns, k) - d)
              && (d >= 0.0 ==> before - d <= after <= before)
              && (d <= 0.0 ==> before <= after <= before - d)
    decreases i
  {
    BookingKeepsNesting(ns, k, m, d, c);
    var b := Booking(ns, k, m, d, c);
    BookingShiftsNestedBookings(ns, k, m, d, c, i);
    assert b[i].classes[0].authorization == ns[i].classes[0].authorization;
    if i == 0 {
    } else {
      BookingShiftsAvailability(ns, k, m, d, c, i - 1);
    }
  }

  /** Bookings outside the nesting move no nested availability. */
  lemma {:induction false} BookingOutsideTheNesting(ns: seq<Node>, k: nat, m: nat, d: real, c: real, i: nat)
    requires WellNested(ns) && k < |ns| && m < |ns[k].classes| && i < |ns|
    requires ns[k].yld < 0.0
    ensures NonEmptyNodes(Booking(ns, k, m, d, c))
    ensures NestedBookings(Booking(ns, k, m, d, c), i) == NestedBookings(ns, i)
    ensures NestedAvailability(Booking(ns, k, m, d, c), i) == NestedAvailability(ns, i)
  {
    BookingKeepsNesting(ns, k, m, d, c);
    BookingShiftsNestedBookings(ns, k, m, d, c, i);
    assert Booking(ns, k, m, d, c)[i].classes[0].authorization == ns[i].classes[0].authorization;
    if i == 0 {
    } else {
      BookingOutsideTheNesting(ns, k, m, d, c, i - 1);
    }
  }

  /** A sale of p seats in a nested node lowers the availability shown by every
      class of equal or higher yield by exactly p, and the availability of every
      nested class of lower yield by something between 0 and p. */
  lemma SaleEffect(ns: seq<Node>, k: nat, m: nat, p: real, i: nat, j: nat)
    requires WellNested(ns) && Recalculated(ns) == ns
    requires k < |ns| && m < |ns[k].classes| && ns[k].yld >= 0.0 && p >= 0.0
    requires i < |ns| && j < |ns[i].classes| && ns[i].yld >= 0.0
    ensures NonEmptyNodes(Booking(ns, k, m, p, 0.0))
    ensures var before := ns[i].classes[j].availability;
            var after := Recalculated(Booking(ns, k, m, p, 0.0))[i].classes[j].availability;
            if ns[i].yld >= ns[k].yld then after == before - p else before - p <= after <= before
  {
    BookingShiftsAvailability(ns, k, m, p, 0.0, i);
    assert ns[i] == Recalculated(ns)[i];
    assert ns[i].classes[j].availability == NestedAvailability(ns, i);
  }

  // ------------------------------------------------- levels set from the limits

  lemma AuthorizedNode(ns: seq<Node>, k: nat, m: nat)
    requires NonEmptyNodes(ns) && k < |ns| && m < |ns[k].classes|
    ensures |Authorized(ns)| == |ns|
    ensures |Authorized(ns)[k].classes| == |ns[k].classes|
    ensures Authorized(ns)[k].yld == ns[k].yld
    ensures Authorized(ns)[k].classes[m] ==
            if ns[k].yld >= 0.0
            then ns[k].classes[m].(authorization := LevelFor(ns, k))
            else ns[k].classes[m]
  {
  }

  lemma AuthorizedKeepsNesting(ns: seq<Node>)
    requires WellNested(ns)
    ensures WellNested(Authorized(ns)) && UniformAuthorization(Authorized(ns)) && SameBookings(ns, Authorized(ns))
  {
    var a := Authorized(ns);
    forall k | 0 <= k < |ns|
      ensures a[k].yld == ns[k].yld && a[k].classes != [] && |a[k].classes| == |ns[k].classes|
    {
      AuthorizedNode(ns, k, 0);
    }
    forall k, m | 0 <= k < |ns| && 0 <= m < |ns[k].classes|
      ensures a[k].classes[m].bookings == ns[k].classes[m].bookings
      ensures a[k].yld >= 0.0 ==> a[k].classes[m].authorization == a[k].classes[0].authorization
    {
      AuthorizedNode(ns, k, m);
      AuthorizedNode(ns, k, 0);
    }
  }

  /** Setting the levels from the limits leaves every nested node a gap of
      exactly its limit, whatever has been booked. */
  lemma AuthorizedGap(ns: seq<Node>, k: nat)
    requires WellNested(ns) && k < |ns| && ns[k].yld >= 0.0
    ensures WellNested(Authorized(ns))
    ensures Gap(Authorized(ns), k) == ns[k].classes[0].bookingLimit
  {
    AuthorizedKeepsNesting(ns);
    AuthorizedNode(ns, k, 0);
    SameNestedBookings(ns, Authorized(ns), k);
  }

  /** With limits that never increase as the yield decreases, the cascade
      changes nothing: every nested node can sell exactly its limit. */
  lemma {:induction false} AvailabilityIsTheLimit(ns: seq<Node>, k: nat)
    requires WellNested(ns) && k < |ns| && ns[k].yld >= 0.0
    requires forall i, j :: 0 <= i <= j < |ns| && ns[j].yld >= 0.0 ==>
               ns[j].classes[0].bookingLimit <= ns[i].classes[0].bookingLimit
    ensures NonEmptyNodes(Authorized(ns))
    ensures NestedAvailability(Authorized(ns), k) == ns[k].classes[0].bookingLimit
  {
    AuthorizedGap(ns, k);
    if k == 0 {
    } else {
      AvailabilityIsTheLimit(ns, k - 1);
    }
  }
}
