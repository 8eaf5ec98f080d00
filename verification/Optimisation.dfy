/** What follows an optimisation of a flight-date: new booking controls on every
    segment-cabin, then new availabilities. */
module Optimisation {
  import opened NestedControls
  import opened BidPrices
  import opened BookingControls
  import opened Bom
  import opened FlightDateHelper
  import opened FlightEvents
  import opened FlightRuns
  import SegmentCabinHelper

  /** The pseudo bid prices of a segment-cabin, from its legs and its pool. */
  ghost function Prices(segment: SegmentCabin): seq<real>
    requires LongEnough(SegmentCabinHelper.LegVectors(segment.legCabins), SeatsOf(segment.availabilityPool))
    reads segment, segment.legCabins
  {
    PseudoVector(SegmentCabinHelper.LegVectors(segment.legCabins), SeatsOf(segment.availabilityPool))
  }

  /** Every leg has a bid price for every seat of the segment-cabin's pool. */
  ghost predicate LegsPriced(segment: SegmentCabin)
    reads segment, segment.legCabins
  {
    LongEnough(SegmentCabinHelper.LegVectors(segment.legCabins), SeatsOf(segment.availabilityPool))
  }

  /** The nesting v after limits and levels are set from prices and pool. */
  ghost function Controlled(v: seq<Node>, prices: seq<real>, pool: real): seq<Node>
    requires WellNested(v)
  {
    LimitedKeepsNesting(v, prices, pool);
    Authorized(Limited(v, prices, pool))
  }

  /** Prices one segment-cabin and leaves all nestings alone. */
  method PriceSegment(segments: seq<SegmentCabin>, s: nat)
    requires s < |segments| && AllOwn(segments) && LegsPriced(segments[s])
    modifies {segments[s]}`bidPrices
    ensures AllOwn(segments)
    ensures segments[s].bidPrices == old(Prices(segments[s]))
    ensures forall t :: 0 <= t < |segments| ==> NodesView(segments[t].nodes) == old(NodesView(segments[t].nodes))
  {
    SegmentCabinHelper.BuildPseudoBidPriceVector(segments[s]);
    NestingsKept(segments);
  }

  /** Sets the controls of one priced segment-cabin and leaves the others alone. */
  method ControlSegment(segments: seq<SegmentCabin>, s: nat, ghost v: seq<Node>)
    requires s < |segments| && AllOwn(segments)
    requires forall t :: 0 <= t < |segments| && t != s ==> segments[t] != segments[s]
    requires NodesView(segments[s].nodes) == v && WellNested(v)
    modifies NodeClasses(segments[s].nodes)`bookingLimit, NodeClasses(segments[s].nodes)`authorization
    ensures AllOwn(segments)
    ensures NodesView(segments[s].nodes) == Controlled(v, segments[s].bidPrices, segments[s].availabilityPool)
    ensures forall t :: 0 <= t < |segments| && t != s ==>
      NodesView(segments[t].nodes) == old(NodesView(segments[t].nodes))
  {
    SegmentCabinHelper.UpdateBookingControlsUsingPseudoBidPriceVector(segments[s]);
    OtherSegmentsKept(segments, s);
  }

  ghost function ControlledUpTo(v: seq<seq<Node>>, prices: seq<seq<real>>, pools: seq<real>, n: nat, t: nat): seq<Node>
    requires WellNestedAll(v) && |v| == |prices| == |pools| && t < |v|
  {
    if t < n then Controlled(v[t], prices[t], pools[t]) else v[t]
  }

  ghost predicate PricesAre(segments: seq<SegmentCabin>, prices: seq<seq<real>>)
    reads segments, set s, l | 0 <= s < |segments| && 0 <= l < |segments[s].legCabins| :: segments[s].legCabins[l]
  {
    && |prices| == |segments|
    && forall s :: 0 <= s < |segments| ==> LegsPriced(segments[s]) && Prices(segments[s]) == prices[s]
  }

  ghost predicate PoolsAre(segments: seq<SegmentCabin>, pools: seq<real>)
    reads segments
  {
    |pools| == |segments| && forall s :: 0 <= s < |segments| ==> segments[s].availabilityPool == pools[s]
  }

  /** Changes that reach no leg, pool or routing keep the prices to come. */
  twostate lemma PricesKept(segments: seq<SegmentCabin>, new prices: seq<seq<real>>)
    requires old(PricesAre(segments, prices))
    requires forall l: LegCabin :: old(allocated(l)) ==> l.bidPrices == old(l.bidPrices)
    requires forall s :: 0 <= s < |segments| ==>
      && segments[s].legCabins == old(segments[s].legCabins)
      && segments[s].availabilityPool == old(segments[s].availabilityPool)
    ensures PricesAre(segments, prices)
  {
    forall s | 0 <= s < |segments|
      ensures LegsPriced(segments[s]) && Prices(segments[s]) == prices[s]
    {
      var legs := segments[s].legCabins;
      assert old(LegsPriced(segments[s])) && old(Prices(segments[s])) == prices[s];
      assert SegmentCabinHelper.LegVectors(legs) == old(SegmentCabinHelper.LegVectors(legs));
    }
  }

  /** Prices and controls segment-cabin s. */
  method PriceAndControl(segments: seq<SegmentCabin>, s: nat,
      ghost v: seq<Node>, ghost prices: seq<seq<real>>)
    requires s < |segments| && AllOwn(segments)
    requires forall t :: 0 <= t < |segments| && t != s ==> segments[t] != segments[s]
    requires NodesView(segments[s].nodes) == v && WellNested(v)
    requires PricesAre(segments, prices)
    modifies {segments[s]}`bidPrices
    modifies NodeClasses(segments[s].nodes)`bookingLimit, NodeClasses(segments[s].nodes)`authorization
    ensures AllOwn(segments) && PricesAre(segments, prices)
    ensures segments[s].bidPrices == prices[s]
    ensures NodesView(segments[s].nodes) == Controlled(v, prices[s], segments[s].availabilityPool)
    ensures forall t :: 0 <= t < |segments| && t != s ==>
      NodesView(segments[t].nodes) == old(NodesView(segments[t].nodes))
  {
    PriceSegment(segments, s);
    ControlSegment(segments, s, v);
    PricesKept(segments, prices);
  }

  /** The first n segment-cabins are priced and controlled, the others as they were. */
  ghost predicate ShowControlled(segments: seq<SegmentCabin>, v: seq<seq<Node>>, prices: seq<seq<real>>,
      pools: seq<real>, n: nat)
    requires WellNestedAll(v) && |v| == |prices| == |pools|
    reads segments, AllNodes(segments), AllClasses(segments)
  {
    && |segments| == |v| && AllOwn(segments)
    && (forall t :: 0 <= t < n && t < |v| ==> segments[t].bidPrices == prices[t])
    && forall t :: 0 <= t < |v| ==> NodesView(segments[t].nodes) == ControlledUpTo(v, prices, pools, n, t)
  }

  /** Prices and controls segment-cabin s after those before it. */
  method ControlNext(segments: seq<SegmentCabin>, s: nat,
      ghost v: seq<seq<Node>>, ghost prices: seq<seq<real>>, ghost pools: seq<real>)
    requires WellNestedAll(v) && |v| == |prices| == |pools| && s < |segments|
    requires forall t :: 0 <= t < |segments| && t != s ==> segments[t] != segments[s]
    requires PricesAre(segments, prices) && PoolsAre(segments, pools)
    requires ShowControlled(segments, v, prices, pools, s)
    modifies {segments[s]}`bidPrices
    modifies NodeClasses(segments[s].nodes)`bookingLimit, NodeClasses(segments[s].nodes)`authorization
    ensures PricesAre(segments, prices) && ShowControlled(segments, v, prices, pools, s + 1)
  {
    assert NodesView(segments[s].nodes) == ControlledUpTo(v, prices, pools, s, s) == v[s];
    PriceAndControl(segments, s, v[s], prices);
    forall t | 0 <= t < |segments| && t != s
      ensures NodesView(segments[t].nodes) == ControlledUpTo(v, prices, pools, s + 1, t)
    {
      assert old(NodesView(segments[t].nodes)) == ControlledUpTo(v, prices, pools, s, t);
    }
  }

  /** Prices every segment-cabin and sets its controls from the prices. */
  method UpdateBookingControls(f: FlightDate, ghost routes: seq<Route>,
      ghost v: seq<seq<Node>>, ghost prices: seq<seq<real>>, ghost pools: seq<real>)
    requires Wired(f, routes) && NodesAre(f, v) && WellNestedAll(v)
    requires PricesAre(f.segmentCabins, prices) && PoolsAre(f.segmentCabins, pools)
    modifies f.segmentCabins`bidPrices
    modifies AllClasses(f.segmentCabins)`bookingLimit, AllClasses(f.segmentCabins)`authorization
    ensures AllOwn(f.segmentCabins)
    ensures forall t :: 0 <= t < |v| ==>
      && f.segmentCabins[t].bidPrices == prices[t]
      && NodesView(f.segmentCabins[t].nodes) == Controlled(v[t], prices[t], pools[t])
  {
    var segments := f.segmentCabins;
    for s := 0 to |segments|
      invariant PricesAre(segments, prices)
      invariant ShowControlled(segments, v, prices, pools, s)
    {
      ControlNext(segments, s, v, prices, pools);
    }
    forall t | 0 <= t < |v|
      ensures NodesView(segments[t].nodes) == Controlled(v[t], prices[t], pools[t])
    {
      assert NodesView(segments[t].nodes) == ControlledUpTo(v, prices, pools, |segments|, t);
    }
  }

  ghost function ControlledAll(v: seq<seq<Node>>, prices: seq<seq<real>>, pools: seq<real>): seq<seq<Node>>
    requires WellNestedAll(v) && |v| == |prices| == |pools|
  {
    seq(|v|, t requires 0 <= t < |v| => Controlled(v[t], prices[t], pools[t]))
  }

  lemma ControlledKeepsNesting(v: seq<seq<Node>>, prices: seq<seq<real>>, pools: seq<real>)
    requires WellNestedAll(v) && |v| == |prices| == |pools|
    ensures WellNestedAll(ControlledAll(v, prices, pools))
  {
    forall t | 0 <= t < |v|
      ensures WellNested(ControlledAll(v, prices, pools)[t]) && UniformAuthorization(ControlledAll(v, prices, pools)[t])
    {
      LimitedKeepsNesting(v[t], prices[t], pools[t]);
      AuthorizedKeepsNesting(Limited(v[t], prices[t], pools[t]));
    }
  }

  /** Setting the controls leaves the layout alone. */
  method SetControls(f: FlightDate, ghost routes: seq<Route>,
      ghost v: seq<seq<Node>>, ghost prices: seq<seq<real>>, ghost pools: seq<real>)
    requires Wired(f, routes) && NodesAre(f, v) && WellNestedAll(v)
    requires PricesAre(f.segmentCabins, prices) && PoolsAre(f.segmentCabins, pools)
    modifies f.segmentCabins`bidPrices
    modifies AllClasses(f.segmentCabins)`bookingLimit, AllClasses(f.segmentCabins)`authorization
    ensures Wired(f, routes) && NodesAre(f, ControlledAll(v, prices, pools))
    ensures forall t :: 0 <= t < |v| ==> f.segmentCabins[t].bidPrices == prices[t]
  {
    UpdateBookingControls(f, routes, v, prices, pools);
    assert Placed(f, routes) by {
      forall t | 0 <= t < |routes|
        ensures Routed(f.legCabins, f.segmentCabins[t], routes[t])
      {
        assert old(Routed(f.legCabins, f.segmentCabins[t], routes[t]));
      }
    }
  }

  /** Controls, then availabilities, on every segment-cabin. */
  method OptimiseCabins(f: FlightDate, ghost routes: seq<Route>,
      ghost v: seq<seq<Node>>, ghost prices: seq<seq<real>>, ghost pools: seq<real>)
    requires Wired(f, routes) && NodesAre(f, v) && WellNestedAll(v)
    requires PricesAre(f.segmentCabins, prices) && PoolsAre(f.segmentCabins, pools)
    modifies f.segmentCabins`bidPrices
    modifies AllClasses(f.segmentCabins)`bookingLimit, AllClasses(f.segmentCabins)`authorization
    modifies AllClasses(f.segmentCabins)`availability
    ensures Wired(f, routes)
    ensures forall t :: 0 <= t < |v| ==>
      && f.segmentCabins[t].bidPrices == prices[t]
      && NodesView(f.segmentCabins[t].nodes) == Optimised(v[t], prices[t], pools[t])
  {
    SetControls(f, routes, v, prices, pools);
    ControlledKeepsNesting(v, prices, pools);
    RecalculateAvailability(f, routes, ControlledAll(v, prices, pools));
  }

  /** The legs of a routed segment-cabin bring their part of the vectors. */
  lemma VectorsOfRoute(legs: seq<LegCabin>, segment: SegmentCabin, r: Route)
    requires Routed(legs, segment, r)
    ensures SegmentCabinHelper.LegVectors(segment.legCabins) == SegmentCabinHelper.LegVectors(legs)[r.first..r.last]
  {
  }

  /** The pseudo bid prices of the flight-date are those of the flight it shows. */
  lemma PricesShow(f: FlightDate, routes: seq<Route>, v: Flight, vectors: seq<seq<real>>, prices: seq<seq<real>>)
    requires Wired(f, routes) && View(f, routes) == v && WellFormed(v)
    requires vectors == SegmentCabinHelper.LegVectors(f.legCabins) && Priced(v, vectors)
    requires |prices| == |v.cabins| && forall t :: 0 <= t < |prices| ==> prices[t] == PricesOf(v, vectors, t)
    ensures PricesAre(f.segmentCabins, prices)
  {
    forall t | 0 <= t < |prices|
      ensures LegsPriced(f.segmentCabins[t]) && Prices(f.segmentCabins[t]) == prices[t]
    {
      assert v.cabins[t] == CabinView(f.segmentCabins[t], routes[t]);
      assert Routed(f.legCabins, f.segmentCabins[t], routes[t]);
      VectorsOfRoute(f.legCabins, f.segmentCabins[t], routes[t]);
    }
  }

  /** The end of an optimisation run: from the bid prices left on the legs,
      controls and then availabilities on every segment-cabin. */
  method Optimise(f: FlightDate, ghost routes: seq<Route>)
    requires Wired(f, routes) && WellFormed(View(f, routes))
    requires Priced(View(f, routes), SegmentCabinHelper.LegVectors(f.legCabins))
    modifies f.segmentCabins`bidPrices
    modifies AllClasses(f.segmentCabins)`bookingLimit, AllClasses(f.segmentCabins)`authorization
    modifies AllClasses(f.segmentCabins)`availability
    ensures Wired(f, routes)
    ensures WellFormed(old(View(f, routes)))
    ensures Priced(old(View(f, routes)), old(SegmentCabinHelper.LegVectors(f.legCabins)))
    ensures View(f, routes) == Repriced(old(View(f, routes)), old(SegmentCabinHelper.LegVectors(f.legCabins)))
  {
    ghost var v, vectors := View(f, routes), SegmentCabinHelper.LegVectors(f.legCabins);
    ghost var nodes := seq(|v.cabins|, t requires 0 <= t < |v.cabins| => v.cabins[t].nodes);
    ghost var prices := seq(|v.cabins|, t requires 0 <= t < |v.cabins| => PricesOf(v, vectors, t));
    ghost var pools := seq(|v.cabins|, t requires 0 <= t < |v.cabins| => v.cabins[t].pool);
    PricesShow(f, routes, v, vectors, prices);
    OptimiseCabins(f, routes, nodes, prices, pools);
    assert LegsView(f.legCabins) == v.legs;
    forall t | 0 <= t < |v.cabins|
      ensures View(f, routes).cabins[t] == Repriced(v, vectors).cabins[t]
    {
      assert View(f, routes).cabins[t] == CabinView(f.segmentCabins[t], routes[t]);
    }
    assert View(f, routes).cabins == Repriced(v, vectors).cabins;
  }

  /** What Optimise leaves on every class of non-negative yield: an
      availability equal to its limit, read off the legs' bid prices and the
      pool, and never above the pool nor above the limit of a higher yield. */
  lemma OptimisedFlight(v: seq<seq<Node>>, legVectors: seq<seq<seq<real>>>, pools: seq<real>, t: nat, k: nat, m: nat)
    requires WellNestedAll(v) && |v| == |legVectors| == |pools|
    requires t < |v| && k < |v[t]| && m < |v[t][k].classes| && v[t][k].yld >= 0.0
    requires LongEnough(legVectors[t], SeatsOf(pools[t]))
    ensures var prices := PseudoVector(legVectors[t], SeatsOf(pools[t]));
            var r := Optimised(v[t], prices, pools[t]);
            && |r| == |v[t]| && |r[k].classes| == |v[t][k].classes|
            && r[k].classes[m].availability == r[k].classes[m].bookingLimit
            && r[k].classes[m].availability == BookingLimit(prices, pools[t], v[t][k].yld) <= pools[t]
            && forall i :: 0 <= i <= k ==>
                 BookingLimit(prices, pools[t], v[t][k].yld) <= BookingLimit(prices, pools[t], v[t][i].yld)
  {
    PseudoVectorFits(legVectors[t], pools[t]);
    OptimisedAvailability(v[t], PseudoVector(legVectors[t], SeatsOf(pools[t])), pools[t], k, m);
  }
}
