/** The inventory objects of one cabin of a flight-date: leg-cabins,
    segment-cabins, their booking classes and their nesting nodes.  Seats and
    money are real numbers. */
module Bom {
  import opened NestedControls

  class BookingClass {
    const classCode: string
    var yld: real
    var bookings: real
    var cancellations: real
    var authorization: real
    var bookingLimit: real
    var availability: real
    /** The segment-cabin the class is sold on (through its fare family). */
    var segmentCabin: SegmentCabin?

    constructor (code: string, yld: real)
      ensures classCode == code && this.yld == yld && segmentCabin == null
      ensures View() == ClassControl(0.0, 0.0, 0.0, 0.0, 0.0)
    {
      classCode := code;
      this.yld := yld;
      bookings, cancellations := 0.0, 0.0;
      authorization, bookingLimit, availability := 0.0, 0.0, 0.0;
      segmentCabin := null;
    }

    ghost function View(): ClassControl
      reads this
    {
      ClassControl(bookings, cancellations, authorization, bookingLimit, availability)
    }

    /** Registers the sale of a party. */
    method Sell(partySize: int)
      modifies this`bookings
      ensures bookings == old(bookings) + partySize as real
    {
      bookings := bookings + partySize as real;
    }

    /** Registers the cancellation of a party. */
    method Cancel(partySize: int)
      modifies this`bookings, this`cancellations
      ensures bookings == old(bookings) - partySize as real
      ensures cancellations == old(cancellations) + partySize as real
    {
      bookings := bookings - partySize as real;
      cancellations := cancellations + partySize as real;
    }
  }

  class NestingNode {
    var yld: real
    var classes: seq<BookingClass>

    constructor (yld: real)
      ensures this.yld == yld && classes == []
    {
      this.yld := yld;
      classes := [];
    }

    ghost function View(): Node
      reads this, classes
    {
      Node(yld, ClassesView(classes))
    }
  }

  class LegCabin {
    const boardingPoint: string
    const offPoint: string
    var offeredCapacity: real
    var committedSpace: real
    var availabilityPool: real
    var bidPrices: seq<real>
    /** The segment-cabins that cross the leg. */
    var segmentCabins: seq<SegmentCabin>

    constructor (boardingPoint: string, offPoint: string, capacity: real)
      ensures this.boardingPoint == boardingPoint && this.offPoint == offPoint
      ensures offeredCapacity == capacity && committedSpace == 0.0 && availabilityPool == capacity
      ensures bidPrices == [] && segmentCabins == []
    {
      segmentCabins := [];
      this.boardingPoint, this.offPoint := boardingPoint, offPoint;
      offeredCapacity, committedSpace, availabilityPool := capacity, 0.0, capacity;
      bidPrices := [];
    }

    /** Commits (or, with a negative number, releases) space on the leg. */
    method UpdateFromReservation(partySize: int)
      modifies this`committedSpace, this`availabilityPool
      ensures committedSpace == old(committedSpace) + partySize as real
      ensures availabilityPool == offeredCapacity - committedSpace
    {
      committedSpace := committedSpace + partySize as real;
      availabilityPool := offeredCapacity - committedSpace;
    }
  }

  class SegmentCabin {
    var capacity: real
    var committedSpace: real
    var availabilityPool: real
    var bidPrices: seq<real>
    /** The flight-date the segment-cabin is on (through its segment-date). */
    var flightDate: FlightDate?
    /** The leg-cabins the segment-cabin is routed on. */
    var legCabins: seq<LegCabin>
    var classes: seq<BookingClass>
    /** The yield-based nesting structure. */
    var nodes: seq<NestingNode>

    constructor ()
      ensures capacity == committedSpace == availabilityPool == 0.0
      ensures bidPrices == [] && legCabins == [] && classes == [] && nodes == [] && flightDate == null
    {
      flightDate := null;
      capacity, committedSpace, availabilityPool := 0.0, 0.0, 0.0;
      bidPrices, legCabins, classes, nodes := [], [], [], [];
    }

    /** Commits (or releases) space on the segment. */
    method UpdateFromReservation(partySize: int)
      modifies this`committedSpace
      ensures committedSpace == old(committedSpace) + partySize as real
    {
      committedSpace := committedSpace + partySize as real;
    }
  }

  /** One cabin of a flight-date. */
  class FlightDate {
    var legCabins: seq<LegCabin>
    var segmentCabins: seq<SegmentCabin>

    constructor ()
      ensures legCabins == [] && segmentCabins == []
    {
      legCabins, segmentCabins := [], [];
    }
  }

  ghost function ClassesView(cs: seq<BookingClass>): (v: seq<ClassControl>)
    reads cs
    ensures |v| == |cs| && forall m :: 0 <= m < |cs| ==> v[m] == cs[m].View()
  {
    seq(|cs|, m requires 0 <= m < |cs| reads cs => cs[m].View())
  }

  /** All classes of some nodes. */
  ghost function NodeClasses(nodes: seq<NestingNode>): set<BookingClass>
    reads nodes`classes
  {
    set k, m | 0 <= k < |nodes| && 0 <= m < |nodes[k].classes| :: nodes[k].classes[m]
  }

  ghost function NodesView(nodes: seq<NestingNode>): (v: seq<Node>)
    reads nodes, NodeClasses(nodes)
    ensures |v| == |nodes| && forall k :: 0 <= k < |nodes| ==> v[k] == nodes[k].View()
  {
    seq(|nodes|, k requires 0 <= k < |nodes| reads nodes, NodeClasses(nodes) => nodes[k].View())
  }

  /** A yield-based nesting: non-empty nodes of strictly decreasing yield, each
      holding different classes of exactly its yield. */
  ghost predicate Nesting(nodes: seq<NestingNode>)
    reads nodes, NodeClasses(nodes)
  {
    && (forall i, j :: 0 <= i < j < |nodes| ==> nodes[i].yld > nodes[j].yld)
    && (forall k :: 0 <= k < |nodes| ==> nodes[k].classes != [])
    && (forall k, m :: 0 <= k < |nodes| && 0 <= m < |nodes[k].classes| ==> nodes[k].classes[m].yld == nodes[k].yld)
    && NoRepeats(nodes)
  }

  /** No class is in two nodes. */
  ghost predicate Apart(nodes: seq<NestingNode>)
    reads nodes`classes
  {
    forall i, j, m :: 0 <= i < |nodes| && 0 <= j < |nodes| && i != j && 0 <= m < |nodes[i].classes| ==>
      nodes[i].classes[m] !in nodes[j].classes
  }

  /** No class is twice in a node. */
  ghost predicate NoRepeats(nodes: seq<NestingNode>)
    reads nodes`classes
  {
    forall k, m, n :: 0 <= k < |nodes| && 0 <= m < n < |nodes[k].classes| ==> nodes[k].classes[m] != nodes[k].classes[n]
  }

  /** Classes of a node have the node's yield, so nodes of different yield share none. */
  lemma NestingFacts(nodes: seq<NestingNode>)
    requires Nesting(nodes)
    ensures Apart(nodes) && NoRepeats(nodes) && WellNested(NodesView(nodes))
  {
    forall i, j, m | 0 <= i < |nodes| && 0 <= j < |nodes| && i != j && 0 <= m < |nodes[i].classes|
      ensures nodes[i].classes[m] !in nodes[j].classes
    {
      assert nodes[i].classes[m].yld == nodes[i].yld;
    }
  }
}
