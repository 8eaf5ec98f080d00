/** What an optimisation run leaves on a segment-cabin: limits read off the
    pseudo bid prices, levels set from the limits, availabilities set from the
    levels. */
module BookingControls {
  import opened NestedControls
  import opened BidPrices

  /** Every nested class gets the cumulative limit of its node's yield. */
  ghost function Limited(ns: seq<Node>, v: seq<real>, pool: real): seq<Node> {
    seq(|ns|, k requires 0 <= k < |ns| =>
      if ns[k].yld < 0.0 then ns[k] else WithLimit(ns[k], BookingLimit(v, pool, ns[k].yld)))
  }

  lemma LimitedNode(ns: seq<Node>, v: seq<real>, pool: real, k: nat, m: nat)
    requires k < |ns| && m < |ns[k].classes|
    ensures |Limited(ns, v, pool)| == |ns|
    ensures |Limited(ns, v, pool)[k].classes| == |ns[k].classes|
    ensures Limited(ns, v, pool)[k].yld == ns[k].yld
    ensures Limited(ns, v, pool)[k].classes[m] ==
            if ns[k].yld >= 0.0 then ns[k].classes[m].(bookingLimit := BookingLimit(v, pool, ns[k].yld))
            else ns[k].classes[m]
  {
  }

  lemma LimitedKeepsNesting(ns: seq<Node>, v: seq<real>, pool: real)
    requires WellNested(ns)
    ensures WellNested(Limited(ns, v, pool)) && UniformLimit(Limited(ns, v, pool))
    ensures SameBookings(ns, Limited(ns, v, pool))
  {
    var l := Limited(ns, v, pool);
    forall k | 0 <= k < |ns|
      ensures l[k].yld == ns[k].yld && |l[k].classes| == |ns[k].classes| && l[k].classes != []
    {
      LimitedNode(ns, v, pool, k, 0);
    }
    forall k, m | 0 <= k < |ns| && 0 <= m < |ns[k].classes|
      ensures l[k].classes[m].bookings == ns[k].classes[m].bookings
      ensures l[k].yld >= 0.0 ==> l[k].classes[m].bookingLimit == l[k].classes[0].bookingLimit
    {
      LimitedNode(ns, v, pool, k, m);
      LimitedNode(ns, v, pool, k, 0);
    }
  }

  /** The nesting after one optimisation: limits, then levels, then availabilities. */
  ghost function Optimised(ns: seq<Node>, v: seq<real>, pool: real): seq<Node>
    requires WellNested(ns)
  {
    LimitedKeepsNesting(ns, v, pool);
    AuthorizedKeepsNesting(Limited(ns, v, pool));
    Recalculated(Authorized(Limited(ns, v, pool)))
  }

  lemma LimitIsAvailable(ns: seq<Node>, v: seq<real>, pool: real, k: nat)
    requires WellNested(ns) && FitsPool(v, pool) && k < |ns| && ns[k].yld >= 0.0
    ensures NonEmptyNodes(Limited(ns, v, pool)) && NonEmptyNodes(Authorized(Limited(ns, v, pool)))
    ensures NestedAvailability(Authorized(Limited(ns, v, pool)), k) == BookingLimit(v, pool, ns[k].yld)
  {
    LimitedKeepsNesting(ns, v, pool);
    var l := Limited(ns, v, pool);
    forall i | 0 <= i < |ns| && ns[i].yld >= 0.0
      ensures l[i].classes[0].bookingLimit == BookingLimit(v, pool, ns[i].yld)
    {
      LimitedNode(ns, v, pool, i, 0);
    }
    forall i, j | 0 <= i <= j < |ns| && l[j].yld >= 0.0
      ensures l[j].classes[0].bookingLimit <= l[i].classes[0].bookingLimit
    {
      LimitsFollowYield(v, pool, ns[i].yld, ns[j].yld);
    }
    AvailabilityIsTheLimit(l, k);
  }

  lemma OptimisedClass(ns: seq<Node>, v: seq<real>, pool: real, k: nat, m: nat)
    requires WellNested(ns) && FitsPool(v, pool)
    requires k < |ns| && m < |ns[k].classes| && ns[k].yld >= 0.0
    ensures |Optimised(ns, v, pool)| == |ns| && |Optimised(ns, v, pool)[k].classes| == |ns[k].classes|
    ensures var limit := BookingLimit(v, pool, ns[k].yld);
            Optimised(ns, v, pool)[k].classes[m] == ns[k].classes[m].(
              bookingLimit := limit, authorization := NestedBookings(ns, k) + limit, availability := limit)
  {
    LimitIsAvailable(ns, v, pool, k);
    var l := Limited(ns, v, pool);
    LimitedNode(ns, v, pool, k, m);
    LimitedNode(ns, v, pool, k, 0);
    assert NestedBookings(l, k) == NestedBookings(ns, k) by {
      LimitedKeepsNesting(ns, v, pool);
      SameNestedBookings(ns, l, k);
    }
    AuthorizedNode(l, k, m);
    RecalculatedNode(Authorized(l), k, m);
  }

  /** After an optimisation, every class of non-negative yield can be sold
      exactly up to its cumulative booking limit, which is within the pool and
      within the limit of every class of higher yield, whatever is booked. */
  lemma OptimisedAvailability(ns: seq<Node>, v: seq<real>, pool: real, k: nat, m: nat)
    requires WellNested(ns) && FitsPool(v, pool)
    requires k < |ns| && m < |ns[k].classes| && ns[k].yld >= 0.0
    ensures |Optimised(ns, v, pool)| == |ns| && |Optimised(ns, v, pool)[k].classes| == |ns[k].classes|
    ensures var x := Optimised(ns, v, pool)[k].classes[m];
            && x.availability == x.bookingLimit == BookingLimit(v, pool, ns[k].yld) <= pool
            && x.authorization == NestedBookings(ns, k) + x.bookingLimit
            && x.bookings == ns[k].classes[m].bookings
            && x.cancellations == ns[k].classes[m].cancellations
    ensures forall i :: 0 <= i <= k ==> BookingLimit(v, pool, ns[k].yld) <= BookingLimit(v, pool, ns[i].yld)
  {
    OptimisedClass(ns, v, pool, k, m);
    LimitsAreNested(ns, v, pool, k);
  }

  lemma LimitsAreNested(ns: seq<Node>, v: seq<real>, pool: real, k: nat)
    requires DecreasingYields(ns) && FitsPool(v, pool) && k < |ns|
    ensures BookingLimit(v, pool, ns[k].yld) <= pool
    ensures forall i :: 0 <= i <= k ==> BookingLimit(v, pool, ns[k].yld) <= BookingLimit(v, pool, ns[i].yld)
  {
    forall i | 0 <= i <= k
      ensures BookingLimit(v, pool, ns[k].yld) <= BookingLimit(v, pool, ns[i].yld) <= pool
    {
      LimitsFollowYield(v, pool, ns[i].yld, ns[k].yld);
    }
  }
}
