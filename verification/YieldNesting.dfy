/** Building the yield-based nesting of a segment-cabin: its classes sorted by
    yield, then grouped from the highest yield down. */
module YieldNesting {
  import opened Bom
  import opened NestedControls
  import opened Sequences

  /** One entry of the multimap from yields to classes. */
  datatype Entry = Entry(yld: real, bc: BookingClass)

  ghost predicate Sorted(es: seq<Entry>) {
    forall i, j :: 0 <= i < j < |es| ==> es[i].yld <= es[j].yld
  }

  /** The classes of one yield, in list order. */
  ghost function OfYield(es: seq<Entry>, y: real): seq<BookingClass> {
    if es == [] then [] else (if es[0].yld == y then [es[0].bc] else []) + OfYield(es[1..], y)
  }

  ghost function Reversed(s: seq<BookingClass>): seq<BookingClass> {
    if s == [] then [] else Reversed(s[1..]) + [s[0]]
  }

  /** The classes of a list with their yields. */
  ghost function Entries(cs: seq<BookingClass>): (es: seq<Entry>)
    reads cs
    ensures |es| == |cs| && forall i :: 0 <= i < |cs| ==> es[i] == Entry(cs[i].yld, cs[i])
  {
    seq(|cs|, i requires 0 <= i < |cs| reads cs => Entry(cs[i].yld, cs[i]))
  }

  lemma {:induction false} OfYieldConcat(a: seq<Entry>, b: seq<Entry>, y: real)
    ensures OfYield(a + b, y) == OfYield(a, y) + OfYield(b, y)
  {
    if a == [] {
      assert a + b == b;
    } else {
      var first := if a[0].yld == y then [a[0].bc] else [];
      assert (a + b)[1..] == a[1..] + b;
      assert OfYield(a + b, y) == first + OfYield(a[1..] + b, y);
      OfYieldConcat(a[1..], b, y);
      ConcatIsAssociative(first, OfYield(a[1..], y), OfYield(b, y));
    }
  }

  lemma {:induction false} NoneOfYield(es: seq<Entry>, y: real)
    requires forall i :: 0 <= i < |es| ==> es[i].yld != y
    ensures OfYield(es, y) == []
  {
    if es == [] {
    } else {
      NoneOfYield(es[1..], y);
    }
  }

  lemma {:induction false} OfYieldHolds(es: seq<Entry>, y: real)
    ensures forall c :: c in OfYield(es, y) ==> exists i :: 0 <= i < |es| && es[i] == Entry(y, c)
    ensures forall i :: 0 <= i < |es| && es[i].yld == y ==> es[i].bc in OfYield(es, y)
  {
    if es != [] {
      OfYieldHolds(es[1..], y);
      forall c | c in OfYield(es, y)
        ensures exists i :: 0 <= i < |es| && es[i] == Entry(y, c)
      {
        if c in OfYield(es[1..], y) {
          var i :| 0 <= i < |es| - 1 && es[1..][i] == Entry(y, c);
          assert es[i + 1] == Entry(y, c);
        } else {
          assert es[0] == Entry(y, c);
        }
      }
      forall i | 0 <= i < |es| && es[i].yld == y
        ensures es[i].bc in OfYield(es, y)
      {
        if i > 0 {
          assert es[1..][i - 1] == es[i];
        }
      }
    }
  }

  lemma {:induction false} ReversedHolds(s: seq<BookingClass>)
    ensures |Reversed(s)| == |s|
    ensures forall i :: 0 <= i < |s| ==> Reversed(s)[i] == s[|s| - 1 - i]
    ensures forall c :: c in Reversed(s) <==> c in s
  {
    if s == [] {
    } else {
      ReversedHolds(s[1..]);
      assert s == [s[0]] + s[1..];
    }
  }

  /** An entry moved over entries of higher yield keeps its place among its equals. */
  lemma InsertedOfYield(a: seq<Entry>, b: seq<Entry>, e: Entry, y: real)
    requires forall j :: 0 <= j < |b| ==> b[j].yld > e.yld
    ensures OfYield(a + [e] + b, y) == OfYield(a + b + [e], y)
  {
    OfYieldConcat(a + [e], b, y);
    OfYieldConcat(a, [e], y);
    OfYieldConcat(a + b, [e], y);
    OfYieldConcat(a, b, y);
    if y == e.yld {
      NoneOfYield(b, y);
    } else {
      NoneOfYield([e], y);
    }
  }

  lemma SortedAfterInsert(a: seq<Entry>, b: seq<Entry>, e: Entry)
    requires Sorted(a) && Sorted(b)
    requires forall j :: 0 <= j < |a| ==> a[j].yld <= e.yld
    requires forall j :: 0 <= j < |b| ==> b[j].yld > e.yld
    ensures Sorted(a + [e] + b)
  {
    var r := a + [e] + b;
    forall i, j | 0 <= i < j < |r|
      ensures r[i].yld <= r[j].yld
    {
      assert r[i] == if i < |a| then a[i] else if i == |a| then e else b[i - |a| - 1];
      assert r[j] == if j < |a| then a[j] else if j == |a| then e else b[j - |a| - 1];
    }
  }

  /** The parts before and after the place of an entry among sorted ones. */
  lemma PartsAround(es: seq<Entry>, i: nat, y: real)
    requires Sorted(es) && i <= |es| && (i > 0 ==> es[i - 1].yld <= y)
    ensures Sorted(es[..i]) && Sorted(es[i..])
    ensures forall j :: 0 <= j < i ==> es[j].yld <= y
  {
    forall j | 0 <= j < i
      ensures es[j].yld <= y
    {
      assert j == i - 1 || es[j].yld <= es[i - 1].yld;
    }
  }

  lemma SameMembers(a: seq<Entry>, b: seq<Entry>, e: Entry, x: Entry)
    ensures x in a + [e] + b <==> x in a + b || x == e
  {
  }

  /** What inserting an entry at the end of its equals keeps. */
  lemma InsertedAt(es: seq<Entry>, a: seq<Entry>, b: seq<Entry>, e: Entry)
    requires es == a + b && Sorted(a) && Sorted(b)
    requires forall j :: 0 <= j < |a| ==> a[j].yld <= e.yld
    requires forall j :: 0 <= j < |b| ==> b[j].yld > e.yld
    ensures Sorted(a + [e] + b)
    ensures forall y :: OfYield(a + [e] + b, y) == OfYield(es + [e], y)
    ensures forall x :: x in a + [e] + b <==> x in es || x == e
  {
    SortedAfterInsert(a, b, e);
    forall y
      ensures OfYield(a + [e] + b, y) == OfYield(es + [e], y)
    {
      InsertedOfYield(a, b, e, y);
    }
    forall x
      ensures x in a + [e] + b <==> x in es || x == e
    {
      SameMembers(a, b, e, x);
    }
  }

  /** Inserts an entry after all entries of its yield or less, as a multimap does. */
  method Insert(es: seq<Entry>, e: Entry) returns (r: seq<Entry>)
    requires Sorted(es)
    ensures Sorted(r)
    ensures forall y :: OfYield(r, y) == OfYield(es + [e], y)
    ensures forall x :: x in r <==> x in es || x == e
  {
    var i := |es|;
    while i > 0 && es[i - 1].yld > e.yld
      invariant 0 <= i <= |es|
      invariant forall j :: i <= j < |es| ==> es[j].yld > e.yld
    {
      i := i - 1;
    }
    PartsAround(es, i, e.yld);
    InsertedAt(es, es[..i], es[i..], e);
    r := es[..i] + [e] + es[i..];
  }

  /** The classes of a list sorted by yield, those of one yield in list order. */
  method ClassMap(cs: seq<BookingClass>) returns (es: seq<Entry>)
    ensures Sorted(es)
    ensures forall y :: OfYield(es, y) == OfYield(Entries(cs), y)
    ensures forall x :: x in es <==> x in Entries(cs)
  {
    es := [];
    ghost var all := Entries(cs);
    for i := 0 to |cs|
      invariant Sorted(es)
      invariant forall y :: OfYield(es, y) == OfYield(all[..i], y)
      invariant forall x :: x in es <==> x in all[..i]
    {
      assert all[..i + 1] == all[..i] + [all[i]];
      ghost var before := es;
      es := Insert(es, Entry(cs[i].yld, cs[i]));
      forall y
        ensures OfYield(es, y) == OfYield(all[..i + 1], y)
      {
        OfYieldConcat(before, [all[i]], y);
        OfYieldConcat(all[..i], [all[i]], y);
      }
    }
    assert all[..|cs|] == all;
  }

  // ----------------------------------------------------------------- grouping

  /** What a nesting node holds. */
  datatype Group = Group(yld: real, classes: seq<BookingClass>)

  ghost function Groups(nodes: seq<NestingNode>): (gs: seq<Group>)
    reads nodes
    ensures |gs| == |nodes| && forall k :: 0 <= k < |nodes| ==> gs[k] == Group(nodes[k].yld, nodes[k].classes)
  {
    seq(|nodes|, k requires 0 <= k < |nodes| reads nodes => Group(nodes[k].yld, nodes[k].classes))
  }

  ghost predicate HasGroup(gs: seq<Group>, y: real) {
    exists k :: 0 <= k < |gs| && gs[k].yld == y
  }

  /** One group per yield, highest yield first, each holding all classes of its
      yield, last entry first. */
  ghost predicate Grouped(gs: seq<Group>, es: seq<Entry>) {
    && (forall i, j :: 0 <= i < j < |gs| ==> gs[i].yld > gs[j].yld)
    && (forall k :: 0 <= k < |gs| ==> gs[k].classes != [])
    && (forall k :: 0 <= k < |gs| ==> gs[k].classes == Reversed(OfYield(es, gs[k].yld)))
    && (forall i :: 0 <= i < |es| ==> HasGroup(gs, es[i].yld))
  }

  /** A class joins the last group, or opens a new one. */
  ghost function Joined(gs: seq<Group>, e: Entry): seq<Group> {
    if gs != [] && gs[|gs| - 1].yld == e.yld
    then gs[..|gs| - 1] + [Group(e.yld, gs[|gs| - 1].classes + [e.bc])]
    else gs + [Group(e.yld, [e.bc])]
  }

  lemma OfYieldCons(e: Entry, es: seq<Entry>, y: real)
    ensures OfYield([e] + es, y) == (if e.yld == y then [e.bc] else []) + OfYield(es, y)
    ensures Reversed(OfYield([e] + es, y)) == Reversed(OfYield(es, y)) + (if e.yld == y then [e.bc] else [])
  {
    assert ([e] + es)[1..] == es;
    if e.yld == y {
      assert ([e.bc] + OfYield(es, y))[1..] == OfYield(es, y);
    } else {
      assert [] + OfYield(es, y) == OfYield(es, y);
    }
  }

  lemma SortedTail(e: Entry, es: seq<Entry>)
    requires Sorted([e] + es)
    ensures Sorted(es) && (es != [] ==> e.yld <= es[0].yld)
  {
    forall i, j | 0 <= i < j < |es|
      ensures es[i].yld <= es[j].yld
    {
      assert ([e] + es)[i + 1] == es[i] && ([e] + es)[j + 1] == es[j];
    }
    if es != [] {
      assert ([e] + es)[0] == e && ([e] + es)[1] == es[0];
    }
  }

  lemma NoneOfYieldBelow(es: seq<Entry>, y: real)
    requires Sorted(es) && (es != [] ==> y < es[0].yld)
    ensures OfYield(es, y) == []
  {
    NoneOfYield(es, y);
  }

  lemma NewGroup(es: seq<Entry>, e: Entry)
    requires Sorted(es) && (es != [] ==> e.yld < es[0].yld)
    ensures [e.bc] == Reversed(OfYield([e] + es, e.yld))
  {
    OfYieldCons(e, es, e.yld);
    NoneOfYieldBelow(es, e.yld);
  }

  /** Group k of the joined groups. */
  lemma JoinedGroup(gs: seq<Group>, es: seq<Entry>, e: Entry, k: nat)
    requires Sorted(es)
    requires gs != [] ==> es != [] && gs[|gs| - 1].yld == es[0].yld && e.yld <= es[0].yld
    requires gs == [] ==> es == []
    requires k < |gs| - 1 ==> gs[k].yld > gs[|gs| - 1].yld
    requires k < |gs| ==> gs[k].classes != [] && gs[k].classes == Reversed(OfYield(es, gs[k].yld))
    requires k < |Joined(gs, e)|
    ensures Joined(gs, e)[k].classes != []
    ensures Joined(gs, e)[k].classes == Reversed(OfYield([e] + es, Joined(gs, e)[k].yld))
  {
    if k == |gs| {
      NewGroup(es, e);
    } else {
      OfYieldCons(e, es, gs[k].yld);
    }
  }

  lemma JoinedCovers(gs: seq<Group>, e: Entry, y: real)
    requires y == e.yld || HasGroup(gs, y)
    ensures HasGroup(Joined(gs, e), y)
  {
    var js := Joined(gs, e);
    if y == e.yld {
      assert js[|js| - 1].yld == y;
    } else {
      var k :| 0 <= k < |gs| && gs[k].yld == y;
      assert js[k].yld == y;
    }
  }

  lemma JoinedIsGrouped(gs: seq<Group>, es: seq<Entry>, e: Entry)
    requires Grouped(gs, es) && Sorted([e] + es)
    requires gs != [] ==> es != [] && gs[|gs| - 1].yld == es[0].yld
    requires gs == [] ==> es == []
    ensures Grouped(Joined(gs, e), [e] + es)
    ensures Joined(gs, e) != [] && Joined(gs, e)[|Joined(gs, e)| - 1].yld == e.yld
  {
    var js := Joined(gs, e);
    SortedTail(e, es);
    forall k | 0 <= k < |js|
      ensures js[k].classes != [] && js[k].classes == Reversed(OfYield([e] + es, js[k].yld))
    {
      JoinedGroup(gs, es, e, k);
    }
    forall i | 0 <= i < |es| + 1
      ensures HasGroup(js, ([e] + es)[i].yld)
    {
      assert i > 0 ==> HasGroup(gs, es[i - 1].yld);
      JoinedCovers(gs, e, ([e] + es)[i].yld);
    }
  }

  /** Adds a class of at most the last yield to the nodes; fails when there is no
      node yet and the class's yield is the one that stands for "no node". */
  method GroupOne(nodes: seq<NestingNode>, e: Entry, lastYield: real) returns (done: bool, more: seq<NestingNode>)
    requires lastYield == if nodes == [] then -1.0 else nodes[|nodes| - 1].yld
    requires forall i :: 0 <= i < |nodes| - 1 ==> nodes[i] != nodes[|nodes| - 1]
    modifies nodes`classes
    ensures done <==> !(nodes == [] && e.yld == -1.0)
    ensures done ==> Groups(more) == Joined(old(Groups(nodes)), e)
    ensures done ==> more != [] && more[|more| - 1].yld == e.yld
    ensures forall k :: 0 <= k < |more| - 1 ==> more[k] != more[|more| - 1]
    ensures forall k :: 0 <= k < |more| ==> (k < |nodes| && more[k] == nodes[k]) || fresh(more[k])
  {
    more := nodes;
    ghost var gs := Groups(nodes);
    if e.yld != lastYield {
      var node := new NestingNode(e.yld);
      node.classes := node.classes + [e.bc];
      more := nodes + [node];
      done := true;
    } else if nodes == [] {
      done := false;
    } else {
      var node := nodes[|nodes| - 1];
      node.classes := node.classes + [e.bc];
      done := true;
    }
    if done {
      ghost var js := Joined(gs, e);
      forall k | 0 <= k < |more|
        ensures Groups(more)[k] == js[k]
      {
        assert k < |nodes| ==> more[k] == nodes[k];
      }
      assert Groups(more) == js;
    }
  }

  /** The greatest yield is the value the sweep starts from. */
  ghost predicate StartsAtMinusOne(cs: seq<BookingClass>)
    reads cs
  {
    && (exists i :: 0 <= i < |cs| && cs[i].yld == -1.0)
    && (forall i :: 0 <= i < |cs| ==> cs[i].yld <= -1.0)
  }

  /** The groups formed by entries i, i+1, ... when the last comes first. */
  ghost function GroupsOf(es: seq<Entry>, i: nat): seq<Group>
    requires i <= |es|
    decreases |es| - i
  {
    if i == |es| then [] else Joined(GroupsOf(es, i + 1), es[i])
  }

  lemma SortedFrom(es: seq<Entry>, i: nat)
    requires Sorted(es) && i < |es|
    ensures es[i..] == [es[i]] + es[i + 1..] && Sorted([es[i]] + es[i + 1..])
  {
    assert es[i..] == [es[i]] + es[i + 1..];
  }

  /** Grouping sorted entries from the last one groups them by yield. */
  lemma {:induction false} SortedEntriesAreGrouped(es: seq<Entry>, i: nat)
    requires Sorted(es) && i <= |es|
    ensures Grouped(GroupsOf(es, i), es[i..])
    ensures i < |es| ==> GroupsOf(es, i) != [] && GroupsOf(es, i)[|GroupsOf(es, i)| - 1].yld == es[i].yld
    decreases |es| - i
  {
    if i == |es| {
    } else {
      SortedEntriesAreGrouped(es, i + 1);
      SortedFrom(es, i);
      JoinedIsGrouped(GroupsOf(es, i + 1), es[i + 1..], es[i]);
    }
  }

  /** Lists with the same classes of every yield, and the same entries, are
      grouped alike. */
  lemma SameGrouped(gs: seq<Group>, es: seq<Entry>, all: seq<Entry>)
    requires Grouped(gs, es)
    requires forall y :: OfYield(es, y) == OfYield(all, y)
    requires forall x :: x in es <==> x in all
    ensures Grouped(gs, all)
  {
    forall i | 0 <= i < |all|
      ensures HasGroup(gs, all[i].yld)
    {
      assert all[i] in all;
      var j :| 0 <= j < |es| && es[j] == all[i];
      assert HasGroup(gs, es[j].yld);
    }
  }

  /** The groups of the sweep, from each entry on. */
  ghost predicate IsHistory(h: seq<seq<Group>>, es: seq<Entry>) {
    && |h| == |es| + 1 && h[|es|] == []
    && forall i :: 0 <= i < |es| ==> Follows(h, es, i)
  }

  ghost predicate Follows(h: seq<seq<Group>>, es: seq<Entry>, i: nat)
    requires i < |es| && i + 1 < |h|
  {
    h[i] == Joined(h[i + 1], es[i])
  }

  lemma HistoryOf(es: seq<Entry>) returns (h: seq<seq<Group>>)
    ensures IsHistory(h, es) && h[0] == GroupsOf(es, 0)
  {
    h := seq(|es| + 1, i requires 0 <= i < |es| + 1 => GroupsOf(es, i));
    forall i | 0 <= i < |es|
      ensures Follows(h, es, i)
    {
      assert h[i] == GroupsOf(es, i) && h[i + 1] == GroupsOf(es, i + 1);
    }
  }

  /** Where the sweep stands when it has come down to entry i. */
  ghost predicate SweptTo(es: seq<Entry>, h: seq<seq<Group>>, i: nat, nodes: seq<NestingNode>, lastYield: real)
    reads nodes
  {
    && i <= |es| && i < |h| && Groups(nodes) == h[i]
    && lastYield == (if nodes == [] then -1.0 else nodes[|nodes| - 1].yld)
    && (nodes == [] <==> i == |es|)
    && (forall k :: 0 <= k < |nodes| - 1 ==> nodes[k] != nodes[|nodes| - 1])
    && (i < |es| ==> es[|es| - 1].yld != -1.0)
  }

  /** One step of the sweep: entry i - 1 joins the groups of entries i, i + 1, ... */
  method GroupNext(es: seq<Entry>, ghost h: seq<seq<Group>>, i: nat, nodes: seq<NestingNode>, lastYield: real)
      returns (done: bool, more: seq<NestingNode>)
    requires IsHistory(h, es) && i > 0 && SweptTo(es, h, i, nodes, lastYield)
    modifies nodes`classes
    ensures done ==> SweptTo(es, h, i - 1, more, es[i - 1].yld)
    ensures !done ==> es[|es| - 1].yld == -1.0
    ensures forall k :: 0 <= k < |more| ==> (k < |nodes| && more[k] == nodes[k]) || fresh(more[k])
  {
    done, more := GroupOne(nodes, es[i - 1], lastYield);
    assert Follows(h, es, i - 1);
  }

  /** Sweeps the entries from the last one down. */
  method GroupAll(es: seq<Entry>, ghost h: seq<seq<Group>>) returns (done: bool, nodes: seq<NestingNode>)
    requires IsHistory(h, es)
    ensures done <==> !(es != [] && es[|es| - 1].yld == -1.0)
    ensures done ==> Groups(nodes) == h[0]
    ensures done ==> forall k :: 0 <= k < |nodes| ==> fresh(nodes[k])
  {
    nodes := [];
    var lastYield := -1.0;
    var i: nat := |es|;
    while i > 0
      invariant SweptTo(es, h, i, nodes, lastYield)
      invariant forall k :: 0 <= k < |nodes| ==> fresh(nodes[k])
    {
      done, nodes := GroupNext(es, h, i, nodes, lastYield);
      if !done {
        return;
      }
      lastYield := es[i - 1].yld;
      i := i - 1;
    }
    done := true;
  }

  /** The nodes of a list of classes. */
  method BuildNodes(cs: seq<BookingClass>) returns (done: bool, nodes: seq<NestingNode>)
    ensures done <==> !StartsAtMinusOne(cs)
    ensures done ==> Grouped(Groups(nodes), Entries(cs))
    ensures done ==> forall k :: 0 <= k < |nodes| ==> fresh(nodes[k])
  {
    var es := ClassMap(cs);
    SameClasses(es, cs);
    ghost var h := HistoryOf(es);
    done, nodes := GroupAll(es, h);
    if done {
      NodesAreGrouped(nodes, es, cs);
    }
  }

  /** Builds the yield-based nesting of a segment-cabin.  It fails, adding a
      class to a node that does not exist, exactly when the greatest yield is
      -1; otherwise every node holds the classes of one yield. */
  method InitYieldBasedNestingStructure(cabin: SegmentCabin) returns (done: bool)
    modifies cabin`nodes
    ensures done <==> !StartsAtMinusOne(cabin.classes)
    ensures done ==> Grouped(Groups(cabin.nodes), old(Entries(cabin.classes)))
    ensures done ==> forall k :: 0 <= k < |cabin.nodes| ==> fresh(cabin.nodes[k])
    ensures !done ==> cabin.nodes == old(cabin.nodes)
  {
    var nodes;
    done, nodes := BuildNodes(cabin.classes);
    if done {
      ghost var gs := Groups(nodes);
      cabin.nodes := nodes;
      assert Groups(cabin.nodes) == gs;
    }
  }

  lemma NodesAreGrouped(nodes: seq<NestingNode>, es: seq<Entry>, cs: seq<BookingClass>)
    requires Sorted(es) && Groups(nodes) == GroupsOf(es, 0)
    requires forall y :: OfYield(es, y) == OfYield(Entries(cs), y)
    requires forall x :: x in es <==> x in Entries(cs)
    ensures Grouped(Groups(nodes), Entries(cs))
  {
    SortedEntriesAreGrouped(es, 0);
    assert es[0..] == es;
    SameGrouped(GroupsOf(es, 0), es, Entries(cs));
  }

  /** The greatest yield of the list is that of the last sorted entry. */
  lemma SameClasses(es: seq<Entry>, cs: seq<BookingClass>)
    requires Sorted(es)
    requires forall x :: x in es <==> x in Entries(cs)
    ensures StartsAtMinusOne(cs) <==> es != [] && es[|es| - 1].yld == -1.0
  {
    var all := Entries(cs);
    forall i | 0 <= i < |cs|
      ensures exists j :: 0 <= j < |es| && es[j].yld == cs[i].yld
    {
      assert all[i] in all;
      assert all[i] in es;
      var j :| 0 <= j < |es| && es[j] == all[i];
      assert es[j].yld == cs[i].yld;
    }
    if es != [] {
      assert es[|es| - 1] in es;
      assert es[|es| - 1] in all;
      var i :| 0 <= i < |all| && all[i] == es[|es| - 1];
      assert cs[i].yld == es[|es| - 1].yld;
    }
  }

  // ---------------------------------------------------------------- partition

  ghost predicate NoClassTwice(cs: seq<BookingClass>) {
    forall i, j :: 0 <= i < j < |cs| ==> cs[i] != cs[j]
  }

  lemma {:induction false} DifferentOfYield(es: seq<Entry>, y: real)
    requires forall i, j :: 0 <= i < j < |es| ==> es[i].bc != es[j].bc
    ensures NoClassTwice(OfYield(es, y))
  {
    if es == [] {
    } else {
      DifferentOfYield(es[1..], y);
      if es[0].yld == y {
        OfYieldHolds(es[1..], y);
        var rest := OfYield(es[1..], y);
        forall j | 0 <= j < |rest|
          ensures rest[j] != es[0].bc
        {
          assert rest[j] in rest;
          var i :| 0 <= i < |es| - 1 && es[1..][i] == Entry(y, rest[j]);
          assert es[i + 1].bc == rest[j];
        }
      }
    }
  }

  /** The members of one group: different classes of the list, of its yield. */
  lemma GroupMembers(gs: seq<Group>, cs: seq<BookingClass>, k: nat)
    requires Grouped(gs, Entries(cs)) && NoClassTwice(cs) && k < |gs|
    ensures NoClassTwice(gs[k].classes)
    ensures forall c :: c in gs[k].classes <==> c in cs && c.yld == gs[k].yld
  {
    var es, y := Entries(cs), gs[k].yld;
    OfYieldHolds(es, y);
    ReversedHolds(OfYield(es, y));
    DifferentOfYield(es, y);
    forall c | c in gs[k].classes
      ensures c in cs && c.yld == y
    {
      var i :| 0 <= i < |es| && es[i] == Entry(y, c);
    }
    forall c | c in cs && c.yld == y
      ensures c in gs[k].classes
    {
      var i :| 0 <= i < |cs| && cs[i] == c;
      assert es[i].bc in OfYield(es, y);
    }
  }

  ghost predicate InSomeNode(nodes: seq<NestingNode>, c: BookingClass)
    reads nodes
  {
    exists k, m :: 0 <= k < |nodes| && 0 <= m < |nodes[k].classes| && nodes[k].classes[m] == c
  }

  /** The nodes built from a list of different classes are a nesting, and every
      class of the list is in exactly one place of one node, and no other class
      in any. */
  lemma NodesPartitionTheClasses(nodes: seq<NestingNode>, cs: seq<BookingClass>)
    requires Grouped(Groups(nodes), Entries(cs)) && NoClassTwice(cs)
    ensures Nesting(nodes)
    ensures forall k, m :: 0 <= k < |nodes| && 0 <= m < |nodes[k].classes| ==> nodes[k].classes[m] in cs
    ensures forall i :: 0 <= i < |cs| ==> InSomeNode(nodes, cs[i])
    ensures forall k, m, j, n
      | 0 <= k < |nodes| && 0 <= m < |nodes[k].classes| && 0 <= j < |nodes| && 0 <= n < |nodes[j].classes| ::
      nodes[k].classes[m] == nodes[j].classes[n] ==> k == j && m == n
  {
    var gs := Groups(nodes);
    forall k | 0 <= k < |nodes|
      ensures NoClassTwice(nodes[k].classes)
      ensures forall c :: c in nodes[k].classes <==> c in cs && c.yld == nodes[k].yld
    {
      GroupMembers(gs, cs, k);
    }
    forall i, j | 0 <= i < j < |nodes|
      ensures nodes[i].yld > nodes[j].yld
    {
      assert gs[i].yld > gs[j].yld;
    }
    forall k | 0 <= k < |nodes|
      ensures nodes[k].classes != []
    {
      assert gs[k].classes != [];
    }
    forall k, m | 0 <= k < |nodes| && 0 <= m < |nodes[k].classes|
      ensures nodes[k].classes[m].yld == nodes[k].yld && nodes[k].classes[m] in cs
    {
      assert nodes[k].classes[m] in nodes[k].classes;
    }
    forall i | 0 <= i < |cs|
      ensures InSomeNode(nodes, cs[i])
    {
      assert HasGroup(gs, Entries(cs)[i].yld);
      var k :| 0 <= k < |gs| && gs[k].yld == cs[i].yld;
      assert cs[i] in nodes[k].classes;
      var m :| 0 <= m < |nodes[k].classes| && nodes[k].classes[m] == cs[i];
    }
  }

  /** Nodes built from classes that are all opened up to one level are ready for
      the control updates. */
  lemma NodesAreReady(nodes: seq<NestingNode>, cs: seq<BookingClass>, level: real)
    requires Grouped(Groups(nodes), Entries(cs)) && NoClassTwice(cs) && cs != []
    requires forall i :: 0 <= i < |cs| ==> cs[i].authorization == level
    ensures nodes != [] && Apart(nodes) && NoRepeats(nodes)
    ensures WellNested(NodesView(nodes)) && UniformAuthorization(NodesView(nodes))
  {
    NodesPartitionTheClasses(nodes, cs);
    NestingFacts(nodes);
    assert InSomeNode(nodes, cs[0]);
    forall k, m | 0 <= k < |nodes| && 0 <= m < |nodes[k].classes|
      ensures NodesView(nodes)[k].classes[m].authorization == level
    {
      assert nodes[k].classes[m] in cs;
      var i :| 0 <= i < |cs| && cs[i] == nodes[k].classes[m];
      assert NodesView(nodes)[k].classes[m] == cs[i].View();
    }
  }
}
