/** The control updates of one segment-cabin, as the loops over its nesting
    structure that compute them. */
module SegmentCabinHelper {
  import opened NestedControls
  import opened BidPrices
  import opened BookingControls
  import opened Pools
  import opened Bom

  // -------------------------------------------------------------- node sweeps

  /** Adds the bookings of a node's classes to a running counter. */
  method CountNode(node: NestingNode, counter: real) returns (total: real)
    ensures total == counter + Booked(node.View().classes)
  {
    total := counter;
    ghost var v := node.View().classes;
    for i := 0 to |node.classes|
      invariant total + Booked(v[i..]) == counter + Booked(v)
    {
      total := total + node.classes[i].bookings;
      assert v[i..][1..] == v[i + 1..];
    }
    assert v[|v|..] == [];
  }

  /** Changes to the classes of node k show in no other node. */
  twostate lemma OtherNodesKept(nodes: seq<NestingNode>, new k: nat)
    requires k < |nodes| && old(Apart(nodes))
    requires forall n: NestingNode :: old(allocated(n)) ==> n.yld == old(n.yld) && n.classes == old(n.classes)
    requires forall c: BookingClass :: old(allocated(c)) && c !in old(nodes[k].classes) ==> c.View() == old(c.View())
    ensures forall j :: 0 <= j < |nodes| && j != k ==> nodes[j].View() == old(nodes[j].View())
  {
    forall j | 0 <= j < |nodes| && j != k
      ensures nodes[j].View() == old(nodes[j].View())
    {
      forall m | 0 <= m < |nodes[j].classes|
        ensures nodes[j].classes[m].View() == old(nodes[j].classes[m].View())
      {
        assert nodes[j].classes[m] in nodes[j].classes;
      }
      assert nodes[j].View().classes == old(nodes[j].View()).classes;
    }
  }

  /** Shows one availability on all classes of node k, and touches no other node. */
  method SetAvailability(nodes: seq<NestingNode>, k: nat, availability: real)
    requires Apart(nodes) && k < |nodes|
    modifies nodes[k].classes`availability
    ensures nodes[k].View() == WithAvailability(old(nodes[k].View()), availability)
    ensures forall j :: 0 <= j < |nodes| && j != k ==> nodes[j].View() == old(nodes[j].View())
  {
    var classes := nodes[k].classes;
    for i := 0 to |classes|
      invariant forall m :: 0 <= m < i ==> classes[m].availability == availability
    {
      classes[i].availability := availability;
    }
    assert nodes[k].View().classes == WithAvailability(old(nodes[k].View()), availability).classes;
    OtherNodesKept(nodes, k);
  }

  /** Gives all classes of node k one authorization level. */
  method SetAuthorization(nodes: seq<NestingNode>, k: nat, level: real)
    requires Apart(nodes) && k < |nodes|
    modifies nodes[k].classes`authorization
    ensures nodes[k].View() == WithAuthorization(old(nodes[k].View()), level)
    ensures forall j :: 0 <= j < |nodes| && j != k ==> nodes[j].View() == old(nodes[j].View())
  {
    var classes := nodes[k].classes;
    for i := 0 to |classes|
      invariant forall m :: 0 <= m < i ==> classes[m].authorization == level
    {
      classes[i].authorization := level;
    }
    assert nodes[k].View().classes == WithAuthorization(old(nodes[k].View()), level).classes;
    OtherNodesKept(nodes, k);
  }

  /** Gives all classes of node k one cumulative booking limit. */
  method SetLimit(nodes: seq<NestingNode>, k: nat, limit: real)
    requires Apart(nodes) && k < |nodes|
    modifies nodes[k].classes`bookingLimit
    ensures nodes[k].View() == WithLimit(old(nodes[k].View()), limit)
    ensures forall j :: 0 <= j < |nodes| && j != k ==> nodes[j].View() == old(nodes[j].View())
  {
    var classes := nodes[k].classes;
    for i := 0 to |classes|
      invariant forall m :: 0 <= m < i ==> classes[m].bookingLimit == limit
    {
      classes[i].bookingLimit := limit;
    }
    assert nodes[k].View().classes == WithLimit(old(nodes[k].View()), limit).classes;
    OtherNodesKept(nodes, k);
  }

  // ------------------------------------------------------------- availability

  /** Node j of v after the first sweep has come down to node k. */
  ghost function Swept(v: seq<Node>, k: int, j: nat): Node
    requires NonEmptyNodes(v) && j < |v|
  {
    if j >= k && v[j].yld >= 0.0 then WithAvailability(v[j], Gap(v, j)) else v[j]
  }

  /** Adds the bookings of nested node k to those of the nodes below. */
  method CountUp(node: NestingNode, counter: real, ghost v: seq<Node>, ghost k: nat) returns (total: real)
    requires k < |v| && node.View() == v[k] && v[k].yld >= 0.0 && counter == NestedBookings(v, k + 1)
    ensures total == NestedBookings(v, k)
  {
    total := CountNode(node, counter);
  }

  /** The controls of the first class of a node. */
  lemma FirstClass(node: NestingNode, n: Node)
    requires node.View() == n && n.classes != []
    ensures node.classes != [] && node.classes[0].View() == n.classes[0]
  {
    assert node.View().classes[0] == node.classes[0].View();
  }

  /** Shows on nested node k what its level leaves above a total of bookings. */
  method ShowGap(nodes: seq<NestingNode>, k: nat, total: real, ghost v: seq<Node>)
    requires Apart(nodes) && NonEmptyNodes(v) && k < |nodes| == |v|
    requires nodes[k].View() == v[k] && total == NestedBookings(v, k)
    modifies nodes[k].classes`availability
    ensures nodes[k].View() == WithAvailability(v[k], Gap(v, k))
    ensures forall j :: 0 <= j < |nodes| && j != k ==> nodes[j].View() == old(nodes[j].View())
  {
    FirstClass(nodes[k], v[k]);
    SetAvailability(nodes, k, nodes[k].classes[0].authorization - total);
  }

  /** One step of the first sweep: node k counts its bookings on top of those
      below and shows what its own level leaves. */
  method SweepNode(nodes: seq<NestingNode>, k: nat, counter: real, ghost v: seq<Node>) returns (total: real)
    requires Apart(nodes) && NonEmptyNodes(v) && k < |nodes| == |v|
    requires counter == NestedBookings(v, k + 1)
    requires nodes[k].View() == v[k]
    modifies nodes[k].classes`availability
    ensures total == NestedBookings(v, k)
    ensures nodes[k].View() == Swept(v, k, k)
    ensures forall j :: 0 <= j < |nodes| && j != k ==> nodes[j].View() == old(nodes[j].View())
  {
    total := counter;
    if nodes[k].yld >= 0.0 {
      total := CountUp(nodes[k], counter, v, k);
      ShowGap(nodes, k, total, v);
    }
  }

  /** All nodes as they are when the first sweep has come down to node k. */
  ghost predicate ShowSwept(nodes: seq<NestingNode>, v: seq<Node>, k: int)
    requires NonEmptyNodes(v)
    reads nodes, NodeClasses(nodes)
  {
    |nodes| == |v| && forall j :: 0 <= j < |nodes| ==> nodes[j].View() == Swept(v, k, j)
  }

  /** Before a sweep all nodes are as they were. */
  lemma BeforeSweeps(nodes: seq<NestingNode>, v: seq<Node>)
    requires NodesView(nodes) == v && NonEmptyNodes(v)
    ensures ShowSwept(nodes, v, |v|) && ShowLevelled(nodes, v, |v|)
  {
  }

  /** One step of the first sweep, seen from all nodes. */
  method SweepNext(nodes: seq<NestingNode>, k: nat, counter: real, ghost v: seq<Node>) returns (total: real)
    requires Apart(nodes) && NonEmptyNodes(v) && k < |nodes| && ShowSwept(nodes, v, k + 1)
    requires counter == NestedBookings(v, k + 1)
    modifies nodes[k].classes`availability
    ensures Apart(nodes) && NodeClasses(nodes) == old(NodeClasses(nodes))
    ensures total == NestedBookings(v, k) && ShowSwept(nodes, v, k)
  {
    assert nodes[k].View() == Swept(v, k + 1, k) == v[k];
    total := SweepNode(nodes, k, counter, v);
    forall j | 0 <= j < |nodes| && j != k
      ensures nodes[j].View() == Swept(v, k, j)
    {
      assert old(nodes[j].View()) == Swept(v, k + 1, j);
    }
  }

  /** First sweep of UpdateAvailabilities. */
  method SetOwnGaps(nodes: seq<NestingNode>, ghost v: seq<Node>)
    requires Apart(nodes) && NonEmptyNodes(v) && ShowSwept(nodes, v, |v|)
    modifies NodeClasses(nodes)`availability
    ensures ShowSwept(nodes, v, 0)
  {
    var counter := 0.0;
    assert counter == NestedBookings(v, |nodes|);
    for k := |nodes| downto 0
      invariant Apart(nodes) && NodeClasses(nodes) == old(NodeClasses(nodes))
      invariant counter == NestedBookings(v, k)
      invariant ShowSwept(nodes, v, k)
    {
      counter := SweepNext(nodes, k, counter, v);
    }
  }

  /** Node j of v once the cascade has come down to node k. */
  ghost function Cascaded(v: seq<Node>, k: int, j: nat): Node
    requires NonEmptyNodes(v) && j < |v|
  {
    if j <= k && v[j].yld >= 0.0 then WithAvailability(v[j], NestedAvailability(v, j)) else Swept(v, 0, j)
  }

  /** All nodes as they are once the cascade has come down to node k. */
  ghost predicate ShowCascaded(nodes: seq<NestingNode>, v: seq<Node>, k: int)
    requires NonEmptyNodes(v)
    reads nodes, NodeClasses(nodes)
  {
    |nodes| == |v| && forall j :: 0 <= j < |nodes| ==> nodes[j].View() == Cascaded(v, k, j)
  }

  /** One step of the cascade: node k+1 shows no more than node k. */
  method CascadeStep(nodes: seq<NestingNode>, k: nat, ghost v: seq<Node>)
    requires Apart(nodes) && NonEmptyNodes(v) && k + 1 < |nodes| == |v|
    requires v[k].yld >= 0.0 && v[k + 1].yld >= 0.0
    requires nodes[k].View() == Cascaded(v, k, k)
    requires nodes[k + 1].View() == Swept(v, 0, k + 1)
    modifies nodes[k + 1].classes`availability
    ensures nodes[k + 1].View() == Cascaded(v, k + 1, k + 1)
    ensures forall j :: 0 <= j < |nodes| && j != k + 1 ==> nodes[j].View() == old(nodes[j].View())
  {
    assert nodes[k].classes[0].View() == nodes[k].View().classes[0];
    assert nodes[k + 1].classes[0].View() == nodes[k + 1].View().classes[0];
    var currentAvailability := nodes[k].classes[0].availability;
    if currentAvailability < nodes[k + 1].classes[0].availability {
      SetAvailability(nodes, k + 1, currentAvailability);
      LastAvailabilityCounts(v[k + 1], Gap(v, k + 1), currentAvailability);
    }
  }

  lemma CascadedNext(v: seq<Node>, k: nat, j: nat)
    requires NonEmptyNodes(v) && j < |v| && j != k + 1
    ensures Cascaded(v, k + 1, j) == Cascaded(v, k, j)
  {
  }

  /** Past the first node of negative yield, or the last node, nothing is left to
      cascade. */
  lemma CascadeEnds(v: seq<Node>, k: nat, j: nat)
    requires WellNested(v) && k < |v| && j < |v|
    requires v[k].yld < 0.0 || k + 1 == |v| || v[k + 1].yld < 0.0
    ensures Cascaded(v, |v|, j) == Cascaded(v, k, j)
  {
    if k < j {
      assert v[k].yld > v[j].yld;
      assert k + 1 == j || v[k + 1].yld > v[j].yld;
    }
  }

  /** One step of the cascade, seen from all nodes. */
  method CascadeNext(nodes: seq<NestingNode>, k: nat, ghost v: seq<Node>)
    requires Apart(nodes) && NonEmptyNodes(v) && k + 1 < |nodes| && ShowCascaded(nodes, v, k)
    requires v[k].yld >= 0.0 && v[k + 1].yld >= 0.0
    modifies nodes[k + 1].classes`availability
    ensures Apart(nodes) && NodeClasses(nodes) == old(NodeClasses(nodes))
    ensures ShowCascaded(nodes, v, k + 1)
  {
    assert nodes[k + 1].View() == Cascaded(v, k, k + 1);
    CascadeStep(nodes, k, v);
    forall j | 0 <= j < |nodes| && j != k + 1
      ensures nodes[j].View() == Cascaded(v, k + 1, j)
    {
      assert old(nodes[j].View()) == Cascaded(v, k, j);
      CascadedNext(v, k, j);
    }
  }

  /** Second sweep of UpdateAvailabilities. */
  method Cascade(nodes: seq<NestingNode>, ghost v: seq<Node>)
    requires nodes != [] && Apart(nodes) && WellNested(v) && ShowSwept(nodes, v, 0)
    modifies NodeClasses(nodes)`availability
    ensures ShowCascaded(nodes, v, |nodes|)
  {
    var current := 0;
    assert ShowCascaded(nodes, v, 0);
    while current + 1 < |nodes|
      invariant 0 <= current < |nodes|
      invariant Apart(nodes) && NodeClasses(nodes) == old(NodeClasses(nodes))
      invariant ShowCascaded(nodes, v, current)
    {
      assert nodes[current].View() == Cascaded(v, current, current);
      if nodes[current].yld < 0.0 {
        break;
      }
      assert nodes[current + 1].View() == Cascaded(v, current, current + 1);
      if nodes[current + 1].yld < 0.0 {
        break;
      }
      CascadeNext(nodes, current, v);
      current := current + 1;
    }
    forall j | 0 <= j < |nodes|
      ensures nodes[j].View() == Cascaded(v, |nodes|, j)
    {
      CascadeEnds(v, current, j);
    }
  }

  /** After both sweeps the nodes show the nested availabilities. */
  lemma CascadedIsRecalculated(nodes: seq<NestingNode>, v: seq<Node>)
    requires WellNested(v) && ShowCascaded(nodes, v, |nodes|)
    ensures NodesView(nodes) == Recalculated(v)
  {
    forall j | 0 <= j < |nodes|
      ensures NodesView(nodes)[j] == Recalculated(v)[j]
    {
      assert nodes[j].View() == Cascaded(v, |nodes|, j);
    }
  }

  /** Both sweeps over the nodes. */
  method UpdateNodes(nodes: seq<NestingNode>, ghost v: seq<Node>)
    requires nodes != [] && Apart(nodes) && WellNested(v) && NodesView(nodes) == v
    modifies NodeClasses(nodes)`availability
    ensures NodesView(nodes) == Recalculated(v)
  {
    BeforeSweeps(nodes, v);
    SetOwnGaps(nodes, v);
    Cascade(nodes, v);
    CascadedIsRecalculated(nodes, v);
  }

  /** Recomputes the availability of every nested class: the room under each
      node's own level first, from the lowest yield up, then the cascade down
      from the highest yield. */
  method UpdateAvailabilities(cabin: SegmentCabin)
    requires cabin.nodes != [] && Apart(cabin.nodes) && WellNested(NodesView(cabin.nodes))
    requires UniformAuthorization(NodesView(cabin.nodes))
    modifies NodeClasses(cabin.nodes)`availability
    ensures NodesView(cabin.nodes) == Recalculated(old(NodesView(cabin.nodes)))
  {
    UpdateNodes(cabin.nodes, NodesView(cabin.nodes));
  }

  // ---------------------------------------------------- authorization levels

  /** Node j of v after the level sweep has come down to node k. */
  ghost function Levelled(v: seq<Node>, k: int, j: nat): Node
    requires NonEmptyNodes(v) && j < |v|
  {
    if j >= k && v[j].yld >= 0.0 then WithAuthorization(v[j], LevelFor(v, j)) else v[j]
  }

  /** Gives nested node k the level of a total of bookings and its limit. */
  method AddLimit(nodes: seq<NestingNode>, k: nat, total: real, ghost v: seq<Node>)
    requires Apart(nodes) && NonEmptyNodes(v) && k < |nodes| == |v|
    requires nodes[k].View() == v[k] && total == NestedBookings(v, k)
    modifies nodes[k].classes`authorization
    ensures nodes[k].View() == WithAuthorization(v[k], LevelFor(v, k))
    ensures forall j :: 0 <= j < |nodes| && j != k ==> nodes[j].View() == old(nodes[j].View())
  {
    FirstClass(nodes[k], v[k]);
    SetAuthorization(nodes, k, total + nodes[k].classes[0].bookingLimit);
  }

  method LevelNode(nodes: seq<NestingNode>, k: nat, counter: real, ghost v: seq<Node>) returns (total: real)
    requires Apart(nodes) && NonEmptyNodes(v) && k < |nodes| == |v|
    requires counter == NestedBookings(v, k + 1)
    requires nodes[k].View() == v[k]
    modifies nodes[k].classes`authorization
    ensures total == NestedBookings(v, k)
    ensures nodes[k].View() == Levelled(v, k, k)
    ensures forall j :: 0 <= j < |nodes| && j != k ==> nodes[j].View() == old(nodes[j].View())
  {
    total := counter;
    if nodes[k].yld >= 0.0 {
      total := CountUp(nodes[k], counter, v, k);
      AddLimit(nodes, k, total, v);
    }
  }

  /** All nodes as they are when the level sweep has come down to node k. */
  ghost predicate ShowLevelled(nodes: seq<NestingNode>, v: seq<Node>, k: int)
    requires NonEmptyNodes(v)
    reads nodes, NodeClasses(nodes)
  {
    |nodes| == |v| && forall j :: 0 <= j < |nodes| ==> nodes[j].View() == Levelled(v, k, j)
  }

  method LevelNext(nodes: seq<NestingNode>, k: nat, counter: real, ghost v: seq<Node>) returns (total: real)
    requires Apart(nodes) && NonEmptyNodes(v) && k < |nodes| && ShowLevelled(nodes, v, k + 1)
    requires counter == NestedBookings(v, k + 1)
    modifies nodes[k].classes`authorization
    ensures Apart(nodes) && NodeClasses(nodes) == old(NodeClasses(nodes))
    ensures total == NestedBookings(v, k) && ShowLevelled(nodes, v, k)
  {
    assert nodes[k].View() == Levelled(v, k + 1, k) == v[k];
    total := LevelNode(nodes, k, counter, v);
    forall j | 0 <= j < |nodes| && j != k
      ensures nodes[j].View() == Levelled(v, k, j)
    {
      assert old(nodes[j].View()) == Levelled(v, k + 1, j);
    }
  }

  method SweepLevels(nodes: seq<NestingNode>, ghost v: seq<Node>)
    requires Apart(nodes) && NonEmptyNodes(v) && ShowLevelled(nodes, v, |v|)
    modifies NodeClasses(nodes)`authorization
    ensures ShowLevelled(nodes, v, 0)
  {
    var counter := 0.0;
    assert counter == NestedBookings(v, |nodes|);
    for k := |nodes| downto 0
      invariant Apart(nodes) && NodeClasses(nodes) == old(NodeClasses(nodes))
      invariant counter == NestedBookings(v, k)
      invariant ShowLevelled(nodes, v, k)
    {
      counter := LevelNext(nodes, k, counter, v);
    }
  }

  /** After the sweep the nodes carry the levels that their limits ask for. */
  lemma LevelledIsAuthorized(nodes: seq<NestingNode>, v: seq<Node>)
    requires NonEmptyNodes(v) && ShowLevelled(nodes, v, 0)
    ensures NodesView(nodes) == Authorized(v)
  {
    forall j | 0 <= j < |nodes|
      ensures NodesView(nodes)[j] == Authorized(v)[j]
    {
      assert nodes[j].View() == Levelled(v, 0, j);
    }
  }

  /** Sets every nested class's authorization level from its booking limit and
      the bookings taken at its yield and below, from the lowest yield up. */
  method UpdateAUs(cabin: SegmentCabin)
    requires Apart(cabin.nodes) && WellNested(NodesView(cabin.nodes))
    requires UniformLimit(NodesView(cabin.nodes))
    modifies NodeClasses(cabin.nodes)`authorization
    ensures NodesView(cabin.nodes) == Authorized(old(NodesView(cabin.nodes)))
  {
    ghost var v := NodesView(cabin.nodes);
    BeforeSweeps(cabin.nodes, v);
    SweepLevels(cabin.nodes, v);
    LevelledIsAuthorized(cabin.nodes, v);
  }

  // ---------------------------------------------------------- booking limits

  /** Scans the pseudo bid prices from the current one for the first price
      above the yield. */
  method CumulativeLimit(prices: seq<real>, pool: real, yld: real) returns (limit: real)
    ensures limit == BookingLimit(prices, pool, yld)
  {
    limit := pool;
    var r := 0;
    while r < |prices|
      invariant 0 <= r <= |prices|
      invariant limit == pool
      invariant forall i :: |prices| - r <= i < |prices| ==> prices[i] <= yld
    {
      if yld < prices[|prices| - 1 - r] {
        limit := r as real;
        break;
      }
      r := r + 1;
    }
    PayableRunIsUnique(prices, yld, r);
  }

  ghost function LimitSet(v: seq<Node>, prices: seq<real>, pool: real, k: int, j: nat): Node
    requires j < |v|
  {
    if j < k then Limited(v, prices, pool)[j] else v[j]
  }

  method LimitNode(nodes: seq<NestingNode>, k: nat, prices: seq<real>, pool: real, ghost v: seq<Node>)
    requires Apart(nodes) && k < |nodes| == |v|
    requires nodes[k].View() == v[k]
    modifies nodes[k].classes`bookingLimit
    ensures nodes[k].View() == Limited(v, prices, pool)[k]
    ensures forall j :: 0 <= j < |nodes| && j != k ==> nodes[j].View() == old(nodes[j].View())
  {
    if nodes[k].yld >= 0.0 {
      var limit := CumulativeLimit(prices, pool, nodes[k].yld);
      SetLimit(nodes, k, limit);
    }
  }

  method UpdateLimits(nodes: seq<NestingNode>, prices: seq<real>, pool: real)
    requires Apart(nodes)
    modifies NodeClasses(nodes)`bookingLimit
    ensures NodesView(nodes) == Limited(old(NodesView(nodes)), prices, pool)
  {
    ghost var v := NodesView(nodes);
    for k := 0 to |nodes|
      invariant forall j :: 0 <= j < |nodes| ==> nodes[j].View() == LimitSet(v, prices, pool, k, j)
    {
      LimitNode(nodes, k, prices, pool, v);
    }
    assert NodesView(nodes) == Limited(v, prices, pool);
  }

  /** Sets the limits of all nested classes from the segment-cabin's pseudo bid
      prices, then their authorization levels from the limits. */
  method UpdateBookingControlsUsingPseudoBidPriceVector(cabin: SegmentCabin)
    requires Apart(cabin.nodes) && WellNested(NodesView(cabin.nodes))
    modifies NodeClasses(cabin.nodes)`bookingLimit, NodeClasses(cabin.nodes)`authorization
    ensures NonEmptyNodes(old(Limited(NodesView(cabin.nodes), cabin.bidPrices, cabin.availabilityPool)))
    ensures NodesView(cabin.nodes)
         == Authorized(old(Limited(NodesView(cabin.nodes), cabin.bidPrices, cabin.availabilityPool)))
  {
    LimitedKeepsNesting(NodesView(cabin.nodes), cabin.bidPrices, cabin.availabilityPool);
    UpdateLimits(cabin.nodes, cabin.bidPrices, cabin.availabilityPool);
    UpdateAUs(cabin);
  }

  // ------------------------------------------------------ pseudo bid prices

  ghost function LegVectors(legs: seq<LegCabin>): (vs: seq<seq<real>>)
    reads legs
    ensures |vs| == |legs| && forall l :: 0 <= l < |legs| ==> vs[l] == legs[l].bidPrices
  {
    seq(|legs|, l requires 0 <= l < |legs| reads legs => legs[l].bidPrices)
  }

  /** Adds a leg's vector to the pseudo vector, aligned on the last entries. */
  method AddFromEnd(pseudo: array<real>, prices: seq<real>)
    requires pseudo.Length <= |prices|
    modifies pseudo
    ensures forall i :: 0 <= i < pseudo.Length ==> pseudo[i] == old(pseudo[i]) + prices[|prices| - pseudo.Length + i]
  {
    var size := pseudo.Length;
    for r := 0 to size
      invariant forall i :: 0 <= i < size ==>
        pseudo[i] == if i >= size - r then old(pseudo[i]) + prices[|prices| - size + i] else old(pseudo[i])
    {
      pseudo[size - 1 - r] := pseudo[size - 1 - r] + prices[|prices| - 1 - r];
    }
  }

  /** The pseudo vector holds the sum of some leg vectors. */
  ghost predicate HoldsSum(pseudo: array<real>, vs: seq<seq<real>>)
    requires LongEnough(vs, pseudo.Length)
    reads pseudo
  {
    forall i :: 0 <= i < pseudo.Length ==> pseudo[i] == SumFromEnd(vs, pseudo.Length - 1 - i)
  }

  /** Adds one more leg's vector. */
  method AddLeg(pseudo: array<real>, prices: seq<real>, ghost vs: seq<seq<real>>)
    requires LongEnough(vs, pseudo.Length) && pseudo.Length <= |prices| && HoldsSum(pseudo, vs)
    modifies pseudo
    ensures LongEnough(vs + [prices], pseudo.Length) && HoldsSum(pseudo, vs + [prices])
  {
    assert (vs + [prices])[..|vs|] == vs;
    AddFromEnd(pseudo, prices);
  }

  /** Adds the leg vectors, aligned on their last entries, into a vector with
      one entry per seat of the segment-cabin's pool. */
  method BuildPseudoBidPriceVector(cabin: SegmentCabin)
    requires LongEnough(LegVectors(cabin.legCabins), SeatsOf(cabin.availabilityPool))
    modifies cabin`bidPrices
    ensures cabin.bidPrices == PseudoVector(old(LegVectors(cabin.legCabins)), SeatsOf(cabin.availabilityPool))
  {
    var size := if cabin.availabilityPool < 0.0 then 0 else cabin.availabilityPool.Floor;
    var pseudo := new real[size](_ => 0.0);
    ghost var vs := LegVectors(cabin.legCabins);
    for l := 0 to |cabin.legCabins|
      invariant LongEnough(vs[..l], size) && HoldsSum(pseudo, vs[..l])
    {
      assert vs[..l + 1] == vs[..l] + [vs[l]];
      AddLeg(pseudo, cabin.legCabins[l].bidPrices, vs[..l]);
    }
    assert vs[..|cabin.legCabins|] == vs;
    cabin.bidPrices := pseudo[..];
  }

  // ---------------------------------------------------------- initial levels

  ghost function Capacities(legs: seq<LegCabin>): (cs: seq<real>)
    reads legs
    ensures |cs| == |legs| && forall l :: 0 <= l < |legs| ==> cs[l] == legs[l].offeredCapacity
  {
    seq(|legs|, l requires 0 <= l < |legs| reads legs => legs[l].offeredCapacity)
  }

  /** Opens every class of the cabin up to the least capacity of its legs. */
  method InitialiseAU(cabin: SegmentCabin, maxCapacity: real)
    modifies cabin`capacity, cabin`availabilityPool, cabin.classes`authorization
    ensures cabin.capacity == cabin.availabilityPool == Least(old(Capacities(cabin.legCabins)), maxCapacity)
    ensures forall m :: 0 <= m < |cabin.classes| ==> cabin.classes[m].authorization == cabin.capacity
  {
    var capacity := maxCapacity;
    ghost var cs := Capacities(cabin.legCabins);
    for l := 0 to |cabin.legCabins|
      invariant capacity == Least(cs[..l], maxCapacity)
    {
      assert cs[..l + 1][..l] == cs[..l];
      if capacity > cabin.legCabins[l].offeredCapacity {
        capacity := cabin.legCabins[l].offeredCapacity;
      }
    }
    assert cs[..|cs|] == cs;
    cabin.capacity := capacity;
    cabin.availabilityPool := capacity;
    for m := 0 to |cabin.classes|
      invariant cabin.capacity == cabin.availabilityPool == capacity
      invariant forall i :: 0 <= i < m ==> cabin.classes[i].authorization == capacity
    {
      cabin.classes[m].authorization := capacity;
    }
  }
}
