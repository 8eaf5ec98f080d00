/** Daily snapshots of a segment-cabin: its counters, and how each class's new
    bookings are attributed, to the price or to the product. */
module Snapshots {
  import opened NestedControls
  import opened Bom
  import opened FlightDateHelper
  import SegmentCabinHelper

  /** What a snapshot sees of a class. */
  datatype ClassSnap = ClassSnap(yld: real, bookings: real, cancellations: real, availability: real)

  /** What the table holds for one row (the cabin, or a class) and one day. */
  datatype Cell = Cell(
    bookings: real, cancellations: real, availability: real,
    productGross: real, productNet: real, priceGross: real, priceNet: real)

  ghost function SnapOf(c: BookingClass): (s: ClassSnap)
    reads c
    ensures s.yld == c.yld && s.bookings == c.bookings
    ensures s.cancellations == c.cancellations && s.availability == c.availability
  {
    ClassSnap(c.yld, c.bookings, c.cancellations, c.availability)
  }

  ghost function Snaps(cs: seq<BookingClass>): (v: seq<ClassSnap>)
    reads cs
    ensures |v| == |cs| && forall i :: 0 <= i < |cs| ==> v[i] == SnapOf(cs[i])
  {
    seq(|cs|, i requires 0 <= i < |cs| reads cs => SnapOf(cs[i]))
  }

  // -------------------------------------------------------------- attribution

  datatype Attribution = ToPrice | ToProduct | ToNeither

  /** The position of the first class of the lowest yield. */
  ghost predicate IsLowest(v: seq<ClassSnap>, l: nat) {
    && l < |v|
    && (forall i :: 0 <= i < |v| ==> v[l].yld <= v[i].yld)
    && (forall i :: 0 <= i < l ==> v[l].yld < v[i].yld)
  }

  /** No class seen before class i, coming from the end of the list, nor the
      lowest class, has a seat left. */
  ghost predicate NoLowerAvailable(v: seq<ClassSnap>, l: nat, i: int)
    requires l < |v| && i >= -1
  {
    && v[l].availability < 1.0
    && forall j :: i < j < |v| && v[j].yld > v[l].yld ==> v[j].availability < 1.0
  }

  ghost function LowestOf(v: seq<ClassSnap>): (l: nat)
    requires v != []
    ensures IsLowest(v, l)
  {
    if |v| == 1 then 0
    else
      var l := LowestOf(v[..|v| - 1]);
      if v[|v| - 1].yld < v[l].yld then |v| - 1 else l
  }

  ghost function AttributionOf(v: seq<ClassSnap>, l: nat, i: nat): Attribution
    requires l < |v| && i < |v|
  {
    if i == l then ToPrice
    else if v[i].yld <= v[l].yld then ToNeither
    else if NoLowerAvailable(v, l, i) then ToPrice
    else ToProduct
  }

  /** The attribution switches at most once, from price to product, along the
      reversed class list. */
  lemma AttributionSwitchesOnce(v: seq<ClassSnap>, l: nat, i: nat, j: nat)
    requires IsLowest(v, l) && i < j < |v|
    requires v[i].yld > v[l].yld && AttributionOf(v, l, j) == ToProduct
    ensures AttributionOf(v, l, i) == ToProduct
  {
    var k: int := if v[l].availability >= 1.0 then l
                  else var k :| j < k < |v| && v[k].yld > v[l].yld && v[k].availability >= 1.0; k;
    assert v[k].availability >= 1.0 && (k == l || (i < k && v[k].yld > v[l].yld));
  }

  /** The class has the lowest yield of all, and so has one before it in the list. */
  ghost predicate Tied(v: seq<ClassSnap>, i: nat)
    requires i < |v|
  {
    && (forall j :: 0 <= j < |v| ==> v[i].yld <= v[j].yld)
    && exists j :: 0 <= j < i && v[j].yld == v[i].yld
  }

  /** The classes that are not attributed are those tied for the lowest yield with
      one before them in the list. */
  lemma WhoIsAttributed(v: seq<ClassSnap>, i: nat)
    requires i < |v|
    ensures AttributionOf(v, LowestOf(v), i) == ToNeither <==> Tied(v, i)
  {
    var l := LowestOf(v);
    if i != l && v[i].yld <= v[l].yld {
      assert l < i && v[l].yld == v[i].yld;
    }
    if Tied(v, i) {
      var j :| 0 <= j < i && v[j].yld == v[i].yld;
      assert v[l].yld == v[i].yld && i != l;
    }
  }

  // --------------------------------------------------------------- the table

  /** A class's cell with its new bookings attributed, given the cell of the day
      before. */
  ghost function Attributed(c: Cell, before: Cell, a: Attribution): Cell {
    var net := c.bookings - before.bookings;
    var gross := net + (c.cancellations - before.cancellations);
    match a
    case ToPrice => c.(priceGross := gross, priceNet := net)
    case ToProduct => c.(productGross := gross, productNet := net)
    case ToNeither => c
  }

  ghost function Seen(c: Cell, s: ClassSnap): Cell {
    c.(bookings := s.bookings, cancellations := s.cancellations, availability := s.availability)
  }

  /** Cell (r, d) once the counters of the cabin and of the first n classes are
      taken for day dtd. */
  ghost function CounterCell(v: seq<ClassSnap>, pool: real, committed: real, n: nat, dtd: nat, r: nat, d: nat,
      c: Cell): Cell
    requires r <= |v|
  {
    if d != dtd || r > n then c
    else if r == 0 then c.(availability := pool, bookings := committed)
    else Seen(c, v[r - 1])
  }

  class SnapshotTable {
    /** Row 0 is the cabin, row i + 1 is class i; one column per day to departure. */
    const cells: array2<Cell>
    const maxDtd: nat

    constructor (rows: nat, maxDtd: nat)
      requires rows > 0
      ensures this.maxDtd == maxDtd && cells.Length0 == rows && cells.Length1 == maxDtd + 2 && fresh(cells)
    {
      this.maxDtd := maxDtd;
      cells := new Cell[rows, maxDtd + 2]((i, j) => Cell(0.0, 0.0, 0.0, 0.0, 0.0, 0.0, 0.0));
    }

    /** The rows of the table as values. */
    ghost function Rows(): (rows: seq<seq<Cell>>)
      reads cells
      ensures |rows| == cells.Length0
      ensures forall r :: 0 <= r < |rows| ==> |rows[r]| == cells.Length1
      ensures forall r, d :: 0 <= r < |rows| && 0 <= d < cells.Length1 ==> rows[r][d] == cells[r, d]
    {
      seq(cells.Length0, r requires 0 <= r < cells.Length0 reads cells =>
        seq(cells.Length1, d requires 0 <= d < cells.Length1 && 0 <= r < cells.Length0 reads cells => cells[r, d]))
    }

    ghost predicate Fits(classes: nat) {
      cells.Length0 == classes + 1 && cells.Length1 == maxDtd + 2
    }

    /** Writes the cabin's and the classes' counters of one day. */
    method TakeCounters(dtd: nat, pool: real, committed: real, classes: seq<BookingClass>)
      requires Fits(|classes|) && dtd <= maxDtd
      modifies cells
      ensures forall r, d :: 0 <= r < cells.Length0 && 0 <= d < cells.Length1 ==>
        cells[r, d] == CounterCell(Snaps(classes), pool, committed, |classes|, dtd, r, d, old(cells[r, d]))
    {
      cells[0, dtd] := cells[0, dtd].(availability := pool, bookings := committed);
      for i := 0 to |classes|
        invariant forall r, d :: 0 <= r < cells.Length0 && 0 <= d < cells.Length1 ==>
          cells[r, d] == CounterCell(Snaps(classes), pool, committed, i, dtd, r, d, old(cells[r, d]))
      {
        var c := classes[i];
        cells[i + 1, dtd] := cells[i + 1, dtd].(
          bookings := c.bookings, cancellations := c.cancellations, availability := c.availability);
      }
    }

    /** Attributes the new bookings of one class to the price or to the product. */
    method Attribute(row: nat, dtd: nat, toPrice: bool)
      requires row < cells.Length0 && dtd + 1 < cells.Length1
      modifies cells
      ensures cells[row, dtd]
           == Attributed(old(cells[row, dtd]), old(cells[row, dtd + 1]), if toPrice then ToPrice else ToProduct)
      ensures forall r, d :: 0 <= r < cells.Length0 && 0 <= d < cells.Length1 && (r != row || d != dtd) ==>
        cells[r, d] == old(cells[r, d])
    {
      var net := cells[row, dtd].bookings - cells[row, dtd + 1].bookings;
      var cancelled := cells[row, dtd].cancellations - cells[row, dtd + 1].cancellations;
      var gross := net + cancelled;
      if toPrice {
        cells[row, dtd] := cells[row, dtd].(priceGross := gross, priceNet := net);
      } else {
        cells[row, dtd] := cells[row, dtd].(productGross := gross, productNet := net);
      }
    }
  }

  /** Finds the first class of the lowest yield. */
  method FindLowest(classes: seq<BookingClass>) returns (lowest: nat)
    requires classes != []
    ensures IsLowest(Snaps(classes), lowest)
  {
    lowest := 0;
    for i := 0 to |classes|
      invariant lowest < |classes|
      invariant forall j :: 0 <= j < i ==> classes[lowest].yld <= classes[j].yld
      invariant forall j :: 0 <= j < lowest ==> classes[lowest].yld < classes[j].yld
    {
      if classes[i].yld < classes[lowest].yld {
        lowest := i;
      }
    }
  }

  lemma LowestIsUnique(v: seq<ClassSnap>, l: nat, m: nat)
    requires IsLowest(v, l) && IsLowest(v, m)
    ensures l == m
  {
    assert v[l].yld == v[m].yld;
  }

  /** Cell (r, dtd) once the attribution has come down to class n. */
  ghost function AttributedDownTo(v: seq<ClassSnap>, l: nat, n: int, r: nat, c: Cell, before: Cell): Cell
    requires l < |v| && r <= |v|
  {
    if r > 0 && (r > n || r == l + 1) then Attributed(c, before, AttributionOf(v, l, r - 1)) else c
  }

  /** Attributes the new bookings of all classes of a segment-cabin. */
  method RegisterBookings(t: SnapshotTable, dtd: nat, classes: seq<BookingClass>, ghost v: seq<ClassSnap>, ghost l: nat)
    requires classes != [] && t.Fits(|classes|) && dtd <= t.maxDtd
    requires v == Snaps(classes) && IsLowest(v, l)
    modifies t.cells
    ensures forall r :: 0 <= r < t.cells.Length0 ==>
      t.cells[r, dtd] == AttributedDownTo(v, l, 0, r, old(t.cells[r, dtd]), old(t.cells[r, dtd + 1]))
    ensures forall r, d :: 0 <= r < t.cells.Length0 && 0 <= d < t.cells.Length1 && d != dtd ==>
      t.cells[r, d] == old(t.cells[r, d])
  {
    var lowest := FindLowest(classes);
    LowestIsUnique(v, l, lowest);
    t.Attribute(lowest + 1, dtd, true);
    var noLowerAvailable := true;
    if classes[lowest].availability >= 1.0 {
      noLowerAvailable := false;
    }
    for i := |classes| downto 0
      invariant noLowerAvailable <==> NoLowerAvailable(v, l, i - 1)
      invariant forall r :: 0 <= r < t.cells.Length0 ==>
        t.cells[r, dtd] == AttributedDownTo(v, l, i, r, old(t.cells[r, dtd]), old(t.cells[r, dtd + 1]))
      invariant forall r, d :: 0 <= r < t.cells.Length0 && 0 <= d < t.cells.Length1 && d != dtd ==>
        t.cells[r, d] == old(t.cells[r, d])
    {
      if classes[i].yld > classes[lowest].yld {
        t.Attribute(i + 1, dtd, noLowerAvailable);
        if noLowerAvailable && classes[i].availability >= 1.0 {
          noLowerAvailable := false;
        }
      }
    }
  }

  /** Cell (r, dtd) after the snapshot of day dtd. */
  ghost function Recorded(v: seq<ClassSnap>, pool: real, committed: real, r: nat, c: Cell, before: Cell): Cell
    requires v != [] && r <= |v|
  {
    if r == 0 then c.(availability := pool, bookings := committed)
    else Attributed(Seen(c, v[r - 1]), before, AttributionOf(v, LowestOf(v), r - 1))
  }

  /** What a snapshot sees of a segment-cabin. */
  datatype CabinSnap = CabinSnap(classes: seq<ClassSnap>, pool: real, committed: real)

  ghost function CabinSnapOf(cabin: SegmentCabin): (day: CabinSnap)
    reads cabin, cabin.classes
    ensures |day.classes| == |cabin.classes|
    ensures forall i :: 0 <= i < |cabin.classes| ==> day.classes[i] == SnapOf(cabin.classes[i])
    ensures day.pool == cabin.availabilityPool && day.committed == cabin.committedSpace
  {
    CabinSnap(Snaps(cabin.classes), cabin.availabilityPool, cabin.committedSpace)
  }

  /** Row r after the snapshot of day dtd. */
  ghost function RecordedRow(row: seq<Cell>, r: nat, dtd: nat, day: CabinSnap): (after: seq<Cell>)
    requires dtd + 1 < |row| && day.classes != [] && r <= |day.classes|
    ensures |after| == |row|
  {
    row[dtd := Recorded(day.classes, day.pool, day.committed, r, row[dtd], row[dtd + 1])]
  }

  /** A table with a row for the cabin and one for each class, wide enough for day
      dtd. */
  ghost predicate Holds(rows: seq<seq<Cell>>, classes: nat, dtd: int) {
    && classes > 0 && |rows| == classes + 1
    && forall r :: 0 <= r < |rows| ==> dtd + 1 < |rows[r]|
  }

  /** The table after the snapshot of day dtd. */
  ghost function RecordedTable(rows: seq<seq<Cell>>, dtd: nat, day: CabinSnap): (after: seq<seq<Cell>>)
    requires Holds(rows, |day.classes|, dtd)
    ensures |after| == |rows| && forall r :: 0 <= r < |rows| ==> |after[r]| == |rows[r]|
  {
    seq(|rows|, r requires 0 <= r < |rows| => RecordedRow(rows[r], r, dtd, day))
  }

  /** Takes the snapshot of one day. */
  method TakeDay(t: SnapshotTable, dtd: nat, pool: real, committed: real, classes: seq<BookingClass>)
    requires classes != [] && t.Fits(|classes|) && dtd <= t.maxDtd
    modifies t.cells
    ensures t.Rows() == RecordedTable(old(t.Rows()), dtd, CabinSnap(Snaps(classes), pool, committed))
  {
    ghost var v, rows := Snaps(classes), t.Rows();
    t.TakeCounters(dtd, pool, committed, classes);
    assert Snaps(classes) == v;
    RegisterBookings(t, dtd, classes, v, LowestOf(v));
    assert Snaps(classes) == v;
    ghost var day := CabinSnap(v, pool, committed);
    forall r | 0 <= r < |rows|
      ensures t.Rows()[r] == RecordedTable(rows, dtd, day)[r]
    {
      assert t.Rows()[r] == RecordedRow(rows[r], r, dtd, day);
    }
  }

  /** A segment-cabin whose classes are its own and nested. */
  ghost predicate SnapshotReady(cabin: SegmentCabin)
    reads cabin, cabin.classes, cabin.nodes, NodeClasses(cabin.nodes)
  {
    && cabin.classes != [] && Owns(cabin)
    && WellNested(NodesView(cabin.nodes)) && UniformAuthorization(NodesView(cabin.nodes))
    && forall m :: 0 <= m < |cabin.classes| ==> cabin.classes[m].segmentCabin == cabin
  }

  /** Changes to shown availabilities leave a segment-cabin its classes and nodes. */
  twostate lemma OwnsKept(cabin: SegmentCabin)
    requires old(Owns(cabin))
    requires forall s: SegmentCabin :: old(allocated(s)) ==> s.classes == old(s.classes) && s.nodes == old(s.nodes)
    requires forall n: NestingNode :: old(allocated(n)) ==> n.classes == old(n.classes)
    requires forall c: BookingClass :: old(allocated(c)) ==> c.segmentCabin == old(c.segmentCabin)
    ensures Owns(cabin)
  {
  }

  lemma RecalculatedIsReady(v: seq<Node>, w: seq<Node>)
    requires WellNested(v) && UniformAuthorization(v) && w == Recalculated(v)
    ensures WellNested(w) && UniformAuthorization(w)
  {
    RecalculatedKeepsNesting(v);
    RecalculatedKeepsUniform(v);
  }

  /** Brings the availabilities of a segment-cabin up to date. */
  method Refresh(cabin: SegmentCabin)
    requires SnapshotReady(cabin)
    modifies NodeClasses(cabin.nodes)`availability
    ensures SnapshotReady(cabin) && NodesView(cabin.nodes) == Recalculated(old(NodesView(cabin.nodes)))
  {
    ghost var v := NodesView(cabin.nodes);
    SegmentCabinHelper.UpdateAvailabilities(cabin);
    RecalculatedIsReady(v, NodesView(cabin.nodes));
    OwnsKept(cabin);
  }

  /** A segment-cabin, its block of the table, and its departure. */
  datatype Block = Block(cabin: SegmentCabin, table: SnapshotTable, departure: int)

  function DaysToDeparture(b: Block, today: int): int {
    b.departure - today + 1
  }

  /** A segment-cabin with a block of its size. */
  ghost predicate BlockReady(b: Block)
    reads b.cabin, b.cabin.classes, b.cabin.nodes, NodeClasses(b.cabin.nodes)
  {
    SnapshotReady(b.cabin) && b.table.Fits(|b.cabin.classes|)
  }

  /** The rows of a block, and the nesting and the counters of its segment-cabin. */
  datatype BlockState = BlockState(rows: seq<seq<Cell>>, nodes: seq<Node>, snap: CabinSnap)

  ghost function StateOf(b: Block): (s: BlockState)
    reads b.table.cells, b.cabin, b.cabin.classes, b.cabin.nodes, NodeClasses(b.cabin.nodes)
    ensures s.rows == b.table.Rows() && s.nodes == NodesView(b.cabin.nodes) && s.snap == CabinSnapOf(b.cabin)
  {
    BlockState(b.table.Rows(), NodesView(b.cabin.nodes), CabinSnapOf(b.cabin))
  }

  /** What a snapshot does to a block: within the days the table covers, the
      availabilities are brought up to date and what then is seen is recorded;
      otherwise nothing changes. */
  ghost predicate SnapshotTaken(b: Block, today: int, before: BlockState, after: BlockState) {
    var dtd := DaysToDeparture(b, today);
    if 0 <= dtd <= b.table.maxDtd then
      && NonEmptyNodes(before.nodes) && after.nodes == Recalculated(before.nodes)
      && Holds(before.rows, |after.snap.classes|, dtd)
      && after.rows == RecordedTable(before.rows, dtd, after.snap)
    else
      after == before
  }

  /** The day of a snapshot is one more than the days left, and is within the days
      the table covers up to its greatest. */
  lemma SnapshotIsTakenOnItsDay(b: Block, today: int, before: BlockState, after: BlockState)
    requires SnapshotTaken(b, today, before, after)
    ensures if today - 1 <= b.departure <= today - 1 + b.table.maxDtd then
              && NonEmptyNodes(before.nodes) && after.nodes == Recalculated(before.nodes)
              && Holds(before.rows, |after.snap.classes|, b.departure - today + 1)
              && after.rows == RecordedTable(before.rows, b.departure - today + 1, after.snap)
            else
              after == before
  {
  }

  /** Changes that reach no class of the segment-cabin show in no snapshot of it. */
  twostate lemma CabinKept(cabin: SegmentCabin)
    requires old(SnapshotReady(cabin))
    requires forall s: SegmentCabin :: old(allocated(s)) ==>
      && s.classes == old(s.classes) && s.nodes == old(s.nodes)
      && s.availabilityPool == old(s.availabilityPool) && s.committedSpace == old(s.committedSpace)
    requires forall n: NestingNode :: old(allocated(n)) ==> n.yld == old(n.yld) && n.classes == old(n.classes)
    requires forall c: BookingClass :: old(allocated(c)) ==>
      c.segmentCabin == old(c.segmentCabin) && c.yld == old(c.yld)
    requires forall c: BookingClass :: old(allocated(c)) && c.segmentCabin == cabin ==> c.View() == old(c.View())
    ensures SnapshotReady(cabin) && CabinSnapOf(cabin) == old(CabinSnapOf(cabin))
    ensures NodesView(cabin.nodes) == old(NodesView(cabin.nodes))
  {
    NestingKept(cabin);
    forall i | 0 <= i < |cabin.classes|
      ensures SnapOf(cabin.classes[i]) == old(SnapOf(cabin.classes[i]))
    {
      assert cabin.classes[i].View() == old(cabin.classes[i].View());
    }
    assert Snaps(cabin.classes) == old(Snaps(cabin.classes));
  }

  /** Records a day of a block. */
  method RecordBlock(b: Block, dtd: nat)
    requires BlockReady(b) && dtd <= b.table.maxDtd
    modifies b.table.cells
    ensures BlockReady(b) && StateOf(b).nodes == old(StateOf(b).nodes) && StateOf(b).snap == old(StateOf(b).snap)
    ensures StateOf(b).rows == RecordedTable(old(StateOf(b).rows), dtd, StateOf(b).snap)
  {
    TakeDay(b.table, dtd, b.cabin.availabilityPool, b.cabin.committedSpace, b.cabin.classes);
    CabinKept(b.cabin);
  }

  /** Takes the snapshot of one block. */
  method TakeBlock(b: Block, today: int)
    requires BlockReady(b)
    modifies b.table.cells, NodeClasses(b.cabin.nodes)`availability
    ensures BlockReady(b) && SnapshotTaken(b, today, old(StateOf(b)), StateOf(b))
  {
    var dtd := DaysToDeparture(b, today);
    if 0 <= dtd <= b.table.maxDtd {
      Refresh(b.cabin);
      RecordBlock(b, dtd);
    }
  }

  // ----------------------------------------------------------------- all blocks

  ghost function Tables(blocks: seq<Block>): set<object> {
    set b | b in blocks :: b.table.cells
  }

  ghost function BlockClasses(blocks: seq<Block>): set<BookingClass>
    reads (set b | b in blocks :: b.cabin)`nodes
    reads (set i, k | 0 <= i < |blocks| && 0 <= k < |blocks[i].cabin.nodes| :: blocks[i].cabin.nodes[k])`classes
  {
    set i, k, m
      | 0 <= i < |blocks| && 0 <= k < |blocks[i].cabin.nodes| && 0 <= m < |blocks[i].cabin.nodes[k].classes| ::
      blocks[i].cabin.nodes[k].classes[m]
  }

  /** Blocks of different segment-cabins, each with its own part of the table. */
  ghost predicate Separate(blocks: seq<Block>) {
    forall i, j :: 0 <= i < |blocks| && 0 <= j < |blocks| && i != j ==>
      blocks[i].cabin != blocks[j].cabin && blocks[i].table.cells != blocks[j].table.cells
  }

  ghost predicate AllReady(blocks: seq<Block>)
    reads set b | b in blocks :: b.cabin
    reads set i, m | 0 <= i < |blocks| && 0 <= m < |blocks[i].cabin.classes| :: blocks[i].cabin.classes[m]
    reads set i, k | 0 <= i < |blocks| && 0 <= k < |blocks[i].cabin.nodes| :: blocks[i].cabin.nodes[k]
    reads BlockClasses(blocks)
  {
    forall i :: 0 <= i < |blocks| ==> BlockReady(blocks[i])
  }

  /** The snapshots of the first n blocks are taken, the other blocks as before. */
  ghost predicate Progress(blocks: seq<Block>, today: int, before: seq<BlockState>, n: nat)
    reads Tables(blocks), set b | b in blocks :: b.cabin
    reads set i, m | 0 <= i < |blocks| && 0 <= m < |blocks[i].cabin.classes| :: blocks[i].cabin.classes[m]
    reads set i, k | 0 <= i < |blocks| && 0 <= k < |blocks[i].cabin.nodes| :: blocks[i].cabin.nodes[k]
    reads BlockClasses(blocks)
  {
    && |before| == |blocks|
    && forall i :: 0 <= i < |blocks| ==> BlockAfter(blocks[i], today, before[i], i < n)
  }

  ghost predicate BlockAfter(b: Block, today: int, before: BlockState, taken: bool)
    reads b.table.cells, b.cabin, b.cabin.classes, b.cabin.nodes, NodeClasses(b.cabin.nodes)
  {
    if taken then SnapshotTaken(b, today, before, StateOf(b)) else StateOf(b) == before
  }

  /** Changes to other tables show in no row of this one. */
  twostate lemma RowsKept(t: SnapshotTable, new other: array2<Cell>)
    requires t.cells != other
    requires forall a: array2<Cell>, r, d
               | old(allocated(a)) && a != other && 0 <= r < a.Length0 && 0 <= d < a.Length1 :: a[r, d] == old(a[r, d])
    ensures t.Rows() == old(t.Rows())
  {
    forall r | 0 <= r < t.cells.Length0
      ensures t.Rows()[r] == old(t.Rows()[r])
    {
    }
  }

  /** Changes to the table and the classes of block s show in no other block. */
  twostate lemma OtherBlocksKept(blocks: seq<Block>, new s: nat)
    requires s < |blocks| && Separate(blocks) && old(AllReady(blocks))
    requires forall a: array2<Cell>, r, d
               | old(allocated(a)) && a != blocks[s].table.cells && 0 <= r < a.Length0 && 0 <= d < a.Length1 ::
               a[r, d] == old(a[r, d])
    requires forall c: SegmentCabin :: old(allocated(c)) ==>
      && c.classes == old(c.classes) && c.nodes == old(c.nodes)
      && c.availabilityPool == old(c.availabilityPool) && c.committedSpace == old(c.committedSpace)
    requires forall n: NestingNode :: old(allocated(n)) ==> n.yld == old(n.yld) && n.classes == old(n.classes)
    requires forall c: BookingClass :: old(allocated(c)) ==>
      c.segmentCabin == old(c.segmentCabin) && c.yld == old(c.yld)
    requires forall c: BookingClass :: old(allocated(c)) && c.segmentCabin != blocks[s].cabin ==>
      c.View() == old(c.View())
    ensures forall i :: 0 <= i < |blocks| && i != s ==>
      BlockReady(blocks[i]) && StateOf(blocks[i]) == old(StateOf(blocks[i]))
  {
    forall i | 0 <= i < |blocks| && i != s
      ensures BlockReady(blocks[i]) && StateOf(blocks[i]) == old(StateOf(blocks[i]))
    {
      assert old(BlockReady(blocks[i])) && blocks[i].cabin != blocks[s].cabin;
      CabinKept(blocks[i].cabin);
      RowsKept(blocks[i].table, blocks[s].table.cells);
    }
  }

  /** Taking the snapshot of block s leaves the other blocks alone. */
  method TakeOne(blocks: seq<Block>, s: nat, today: int)
    requires s < |blocks| && Separate(blocks) && AllReady(blocks)
    modifies blocks[s].table.cells, NodeClasses(blocks[s].cabin.nodes)`availability
    ensures AllReady(blocks) && BlockClasses(blocks) == old(BlockClasses(blocks))
    ensures SnapshotTaken(blocks[s], today, old(StateOf(blocks[s])), StateOf(blocks[s]))
    ensures forall i :: 0 <= i < |blocks| && i != s ==> StateOf(blocks[i]) == old(StateOf(blocks[i]))
  {
    TakeBlock(blocks[s], today);
    OtherBlocksKept(blocks, s);
  }

  /** Takes the snapshot of block s after those before it. */
  method TakeNext(blocks: seq<Block>, s: nat, today: int, ghost before: seq<BlockState>)
    requires s < |blocks| && Separate(blocks) && AllReady(blocks) && Progress(blocks, today, before, s)
    modifies blocks[s].table.cells, NodeClasses(blocks[s].cabin.nodes)`availability
    ensures AllReady(blocks) && BlockClasses(blocks) == old(BlockClasses(blocks))
    ensures Progress(blocks, today, before, s + 1)
  {
    TakeOne(blocks, s, today);
    forall i | 0 <= i < |blocks|
      ensures BlockAfter(blocks[i], today, before[i], i < s + 1)
    {
      assert old(BlockAfter(blocks[i], today, before[i], i < s));
    }
  }

  /** Takes the snapshots of all segment-cabins of a table. */
  method TakeSnapshots(blocks: seq<Block>, today: int, ghost before: seq<BlockState>)
    requires Separate(blocks) && AllReady(blocks)
    requires |before| == |blocks| && forall i :: 0 <= i < |blocks| ==> before[i] == StateOf(blocks[i])
    modifies Tables(blocks), BlockClasses(blocks)`availability
    ensures AllReady(blocks)
    ensures forall i :: 0 <= i < |blocks| ==> SnapshotTaken(blocks[i], today, before[i], StateOf(blocks[i]))
  {
    assert Progress(blocks, today, before, 0);
    for s := 0 to |blocks|
      invariant AllReady(blocks) && BlockClasses(blocks) == old(BlockClasses(blocks))
      invariant Progress(blocks, today, before, s)
    {
      TakeNext(blocks, s, today, before);
    }
    forall i | 0 <= i < |blocks|
      ensures SnapshotTaken(blocks[i], today, before[i], StateOf(blocks[i]))
    {
      assert BlockAfter(blocks[i], today, before[i], i < |blocks|);
    }
  }

  // ------------------------------------------------------ the cells of a snapshot

  /** A snapshot records the pool and the committed space of the cabin, and the
      counters of every class. */
  lemma CountersAreRecorded(rows: seq<seq<Cell>>, dtd: nat, day: CabinSnap, i: nat)
    requires Holds(rows, |day.classes|, dtd) && i < |day.classes|
    ensures var after, seen := RecordedTable(rows, dtd, day), day.classes[i];
            && after[0][dtd] == rows[0][dtd].(availability := day.pool, bookings := day.committed)
            && after[i + 1][dtd].bookings == seen.bookings
            && after[i + 1][dtd].cancellations == seen.cancellations
            && after[i + 1][dtd].availability == seen.availability
  {
  }

  lemma OtherDaysAreKept(rows: seq<seq<Cell>>, dtd: nat, day: CabinSnap, r: nat, d: nat)
    requires Holds(rows, |day.classes|, dtd) && r < |rows| && d < |rows[r]| && d != dtd
    ensures RecordedTable(rows, dtd, day)[r][d] == rows[r][d]
  {
  }

  /** The cell of a class above the lowest yield, or of the first class at it: what
      is written besides the counters. */
  lemma CellIs(rows: seq<seq<Cell>>, dtd: nat, day: CabinSnap, l: nat, i: nat)
    requires Holds(rows, |day.classes|, dtd) && IsLowest(day.classes, l) && i < |day.classes|
    ensures RecordedTable(rows, dtd, day)[i + 1][dtd]
         == Attributed(Seen(rows[i + 1][dtd], day.classes[i]), rows[i + 1][dtd + 1], AttributionOf(day.classes, l, i))
  {
    LowestIsUnique(day.classes, l, LowestOf(day.classes));
  }

  /** The new bookings of the first class of the lowest yield go to the price. */
  lemma LowestIsPriceOriented(rows: seq<seq<Cell>>, dtd: nat, day: CabinSnap, l: nat)
    requires Holds(rows, |day.classes|, dtd) && l < |day.classes|
    requires forall j :: 0 <= j < |day.classes| ==> day.classes[l].yld <= day.classes[j].yld
    requires forall j :: 0 <= j < l ==> day.classes[l].yld < day.classes[j].yld
    ensures var seen, before := day.classes[l], rows[l + 1][dtd + 1];
            var net := seen.bookings - before.bookings;
            RecordedTable(rows, dtd, day)[l + 1][dtd] == rows[l + 1][dtd].(
              bookings := seen.bookings, cancellations := seen.cancellations, availability := seen.availability,
              priceNet := net, priceGross := net + (seen.cancellations - before.cancellations))
  {
    CellIs(rows, dtd, day, l, l);
  }

  /** The new bookings of a class above the lowest yield go to the price when the
      lowest class, and every class above the lowest yield that stands after this
      one, show less than one seat; and to the product otherwise. */
  lemma ClassAboveIsAttributed(rows: seq<seq<Cell>>, dtd: nat, day: CabinSnap, l: nat, i: nat)
    requires Holds(rows, |day.classes|, dtd) && l < |day.classes| && i < |day.classes|
    requires forall j :: 0 <= j < |day.classes| ==> day.classes[l].yld <= day.classes[j].yld
    requires forall j :: 0 <= j < l ==> day.classes[l].yld < day.classes[j].yld
    requires day.classes[i].yld > day.classes[l].yld
    ensures var v, seen, before := day.classes, day.classes[i], rows[i + 1][dtd + 1];
            var net := seen.bookings - before.bookings;
            var gross := net + (seen.cancellations - before.cancellations);
            var counted := rows[i + 1][dtd].(
              bookings := seen.bookings, cancellations := seen.cancellations, availability := seen.availability);
            RecordedTable(rows, dtd, day)[i + 1][dtd] ==
            if v[l].availability < 1.0
               && forall j :: i < j < |v| && v[j].yld > v[l].yld ==> v[j].availability < 1.0
            then counted.(priceNet := net, priceGross := gross)
            else counted.(productNet := net, productGross := gross)
  {
    CellIs(rows, dtd, day, l, i);
  }

  /** Any other class has its counters recorded and nothing attributed. */
  lemma TiedClassIsNotAttributed(rows: seq<seq<Cell>>, dtd: nat, day: CabinSnap, l: nat, i: nat)
    requires Holds(rows, |day.classes|, dtd) && l < i < |day.classes|
    requires forall j :: 0 <= j < |day.classes| ==> day.classes[l].yld <= day.classes[j].yld
    requires forall j :: 0 <= j < l ==> day.classes[l].yld < day.classes[j].yld
    requires day.classes[i].yld == day.classes[l].yld
    ensures var seen := day.classes[i];
            RecordedTable(rows, dtd, day)[i + 1][dtd] == rows[i + 1][dtd].(
              bookings := seen.bookings, cancellations := seen.cancellations, availability := seen.availability)
  {
    CellIs(rows, dtd, day, l, i);
  }

  // ------------------------------------------------------------- telescoping

  /** Row r after the snapshots of consecutive days, counting down from dtd. */
  ghost function RowRun(row: seq<Cell>, r: nat, dtd: int, days: seq<CabinSnap>): (after: seq<Cell>)
    requires -1 <= dtd && dtd + 1 < |row| && |days| <= dtd + 1
    requires forall i :: 0 <= i < |days| ==> days[i].classes != [] && r <= |days[i].classes|
    ensures |after| == |row|
    decreases |days|
  {
    if days == [] then row else RowRun(RecordedRow(row, r, dtd, days[0]), r, dtd - 1, days[1..])
  }

  /** The table after the snapshots of consecutive days. */
  ghost function TableRun(rows: seq<seq<Cell>>, classes: nat, dtd: int, days: seq<CabinSnap>): (after: seq<seq<Cell>>)
    requires -1 <= dtd && Holds(rows, classes, dtd) && |days| <= dtd + 1
    requires forall i :: 0 <= i < |days| ==> |days[i].classes| == classes
    ensures |after| == |rows| && forall r :: 0 <= r < |rows| ==> |after[r]| == |rows[r]|
    decreases |days|
  {
    if days == [] then rows else TableRun(RecordedTable(rows, dtd, days[0]), classes, dtd - 1, days[1..])
  }

  /** Rows do not depend on each other. */
  lemma {:induction false} TableRunByRows(rows: seq<seq<Cell>>, classes: nat, dtd: int, days: seq<CabinSnap>, r: nat)
    requires -1 <= dtd && Holds(rows, classes, dtd) && |days| <= dtd + 1 && r <= classes
    requires forall i :: 0 <= i < |days| ==> |days[i].classes| == classes
    ensures TableRun(rows, classes, dtd, days)[r] == RowRun(rows[r], r, dtd, days)
    decreases |days|
  {
    if days == [] {
    } else {
      TableRunByRows(RecordedTable(rows, dtd, days[0]), classes, dtd - 1, days[1..], r);
    }
  }

  /** Nothing is attributed on the days up to dtd yet. */
  ghost predicate Blank(row: seq<Cell>, dtd: int)
    requires dtd < |row|
  {
    forall d :: 0 <= d <= dtd ==>
      row[d].productGross == row[d].productNet == row[d].priceGross == row[d].priceNet == 0.0
  }

  /** The net (gross) bookings attributed over days lo, ..., hi - 1. */
  ghost function NetOver(row: seq<Cell>, lo: int, hi: int): real
    requires 0 <= lo && hi <= |row|
    decreases hi - lo
  {
    if lo >= hi then 0.0 else row[hi - 1].productNet + row[hi - 1].priceNet + NetOver(row, lo, hi - 1)
  }

  ghost function GrossOver(row: seq<Cell>, lo: int, hi: int): real
    requires 0 <= lo && hi <= |row|
    decreases hi - lo
  {
    if lo >= hi then 0.0 else row[hi - 1].productGross + row[hi - 1].priceGross + GrossOver(row, lo, hi - 1)
  }

  lemma {:induction false} RunKeepsEarlierDays(row: seq<Cell>, r: nat, dtd: int, days: seq<CabinSnap>)
    requires -1 <= dtd && dtd + 1 < |row| && |days| <= dtd + 1
    requires forall i :: 0 <= i < |days| ==> days[i].classes != [] && r <= |days[i].classes|
    ensures forall d :: dtd < d < |row| ==> RowRun(row, r, dtd, days)[d] == row[d]
    decreases |days|
  {
    if days == [] {
    } else {
      RunKeepsEarlierDays(RecordedRow(row, r, dtd, days[0]), r, dtd - 1, days[1..]);
    }
  }

  /** The cell of one day of class i, with nothing attributed on it before. */
  lemma DayIsAttributed(row: seq<Cell>, i: nat, dtd: nat, day: CabinSnap)
    requires dtd + 1 < |row| && i < |day.classes| && Blank(row, dtd)
    ensures var c, before, seen := RecordedRow(row, i + 1, dtd, day)[dtd], row[dtd + 1], day.classes[i];
            var net := if Tied(day.classes, i) then 0.0 else seen.bookings - before.bookings;
            var cancelled := if Tied(day.classes, i) then 0.0 else seen.cancellations - before.cancellations;
            && c.bookings == seen.bookings && c.cancellations == seen.cancellations
            && c.productNet + c.priceNet == net && c.productGross + c.priceGross == net + cancelled
            && ((c.productGross == c.productNet == 0.0) || (c.priceGross == c.priceNet == 0.0))
  {
    WhoIsAttributed(day.classes, i);
  }

  lemma {:induction false} RowTelescopes(row: seq<Cell>, i: nat, dtd: nat, days: seq<CabinSnap>)
    requires dtd + 1 < |row| && 0 < |days| <= dtd + 1 && Blank(row, dtd)
    requires forall d :: 0 <= d < |days| ==> i < |days[d].classes| && !Tied(days[d].classes, i)
    ensures var last := days[|days| - 1].classes[i];
            var net := NetOver(RowRun(row, i + 1, dtd, days), dtd + 1 - |days|, dtd + 1);
            && net == last.bookings - row[dtd + 1].bookings
            && GrossOver(RowRun(row, i + 1, dtd, days), dtd + 1 - |days|, dtd + 1)
               == net + (last.cancellations - row[dtd + 1].cancellations)
    decreases |days|
  {
    var r1 := RecordedRow(row, i + 1, dtd, days[0]);
    var r := RowRun(row, i + 1, dtd, days);
    RunKeepsEarlierDays(r1, i + 1, dtd - 1, days[1..]);
    assert r[dtd] == r1[dtd];
    DayIsAttributed(row, i, dtd, days[0]);
    if |days| == 1 {
    } else {
      RowTelescopes(r1, i, dtd - 1, days[1..]);
    }
  }

  /** Over the snapshots of consecutive days, the net bookings that the table
      attributes to a class add up to the change of its booking counter, and the
      gross bookings to that plus the change of its cancellation counter, unless
      the class is tied for the lowest yield with one before it. */
  lemma NetBookingsTelescope(rows: seq<seq<Cell>>, classes: nat, dtd: nat, days: seq<CabinSnap>, i: nat)
    requires Holds(rows, classes, dtd) && 0 < |days| <= dtd + 1 && i < classes && Blank(rows[i + 1], dtd)
    requires forall d :: 0 <= d < |days| ==> |days[d].classes| == classes && !Tied(days[d].classes, i)
    ensures var last, first := days[|days| - 1].classes[i], rows[i + 1][dtd + 1];
            var row := TableRun(rows, classes, dtd, days)[i + 1];
            var net := NetOver(row, dtd + 1 - |days|, dtd + 1);
            && net == last.bookings - first.bookings
            && GrossOver(row, dtd + 1 - |days|, dtd + 1) == net + (last.cancellations - first.cancellations)
  {
    TableRunByRows(rows, classes, dtd, days, i + 1);
    RowTelescopes(rows[i + 1], i, dtd, days);
  }

  lemma {:induction false} RowLoses(row: seq<Cell>, i: nat, dtd: int, days: seq<CabinSnap>)
    requires -1 <= dtd && dtd + 1 < |row| && |days| <= dtd + 1 && Blank(row, dtd)
    requires forall d :: 0 <= d < |days| ==> i < |days[d].classes| && Tied(days[d].classes, i)
    ensures Blank(RowRun(row, i + 1, dtd, days), dtd)
    decreases |days|
  {
    if days == [] {
    } else {
      var r1 := RecordedRow(row, i + 1, dtd, days[0]);
      WhoIsAttributed(days[0].classes, i);
      RunKeepsEarlierDays(r1, i + 1, dtd - 1, days[1..]);
      RowLoses(r1, i, dtd - 1, days[1..]);
    }
  }

  /** A class tied for the lowest yield with one before it leaves nothing in the
      two tables, whatever is booked and cancelled on it. */
  lemma TiedClassesAreLost(rows: seq<seq<Cell>>, classes: nat, dtd: nat, days: seq<CabinSnap>, i: nat)
    requires Holds(rows, classes, dtd) && |days| <= dtd + 1 && i < classes && Blank(rows[i + 1], dtd)
    requires forall d :: 0 <= d < |days| ==> |days[d].classes| == classes && Tied(days[d].classes, i)
    ensures Blank(TableRun(rows, classes, dtd, days)[i + 1], dtd)
  {
    TableRunByRows(rows, classes, dtd, days, i + 1);
    RowLoses(rows[i + 1], i, dtd, days);
  }

  lemma {:induction false} OneTableInRow(row: seq<Cell>, i: nat, dtd: int, days: seq<CabinSnap>, d: nat)
    requires -1 <= dtd && dtd + 1 < |row| && |days| <= dtd + 1 && Blank(row, dtd) && d <= dtd
    requires forall t :: 0 <= t < |days| ==> i < |days[t].classes|
    ensures var c := RowRun(row, i + 1, dtd, days)[d];
            (c.productGross == c.productNet == 0.0) || (c.priceGross == c.priceNet == 0.0)
    decreases |days|
  {
    if days == [] {
    } else {
      var r1 := RecordedRow(row, i + 1, dtd, days[0]);
      DayIsAttributed(row, i, dtd, days[0]);
      RunKeepsEarlierDays(r1, i + 1, dtd - 1, days[1..]);
      if d < dtd {
        OneTableInRow(r1, i, dtd - 1, days[1..], d);
      }
    }
  }

  /** On every day, a class has bookings in one of the two tables only. */
  lemma OneTablePerDay(rows: seq<seq<Cell>>, classes: nat, dtd: nat, days: seq<CabinSnap>, i: nat, d: nat)
    requires Holds(rows, classes, dtd) && |days| <= dtd + 1 && i < classes && Blank(rows[i + 1], dtd) && d <= dtd
    requires forall t :: 0 <= t < |days| ==> |days[t].classes| == classes
    ensures var c := TableRun(rows, classes, dtd, days)[i + 1][d];
            (c.productGross == c.productNet == 0.0) || (c.priceGross == c.priceNet == 0.0)
  {
    TableRunByRows(rows, classes, dtd, days, i + 1);
    OneTableInRow(rows[i + 1], i, dtd, days, d);
  }
}
