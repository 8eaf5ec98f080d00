/** The usable policies of a segment-cabin: which classes can be open together,
    one per fare family, from the first family down. */
module Policies {
  import opened Sequences

  /** A booking class as far as policies are concerned. */
  datatype FareClass = FareClass(code: string, yld: real)

  type Family = seq<FareClass>

  datatype Policy = Policy(key: nat, classes: seq<FareClass>)

  // ------------------------------------------------------------ specification

  /** What comes in depth-first order after the policy cur, whose last class has
      yield prev, from class b of family i on. */
  ghost function Extensions(fs: seq<Family>, i: nat, b: nat, cur: seq<FareClass>, prev: real): seq<seq<FareClass>>
    requires i <= |fs| && (i < |fs| ==> b <= |fs[i]|)
    decreases |fs| - i, if i < |fs| then |fs[i]| - b else 0
  {
    if i == |fs| || b == |fs[i]| then []
    else
      var c := fs[i][b];
      (if c.yld < prev then [cur + [c]] + Extensions(fs, i + 1, 0, cur + [c], c.yld) else [])
      + Extensions(fs, i, b + 1, cur, prev)
  }

  /** All policies, in the order they are created. */
  ghost function AllPolicies(fs: seq<Family>, maxYield: real): seq<seq<FareClass>> {
    [[]] + Extensions(fs, 0, 0, [], maxYield)
  }

  /** One class from each of the first families, of strictly decreasing yield
      below a given one. */
  ghost predicate IsPolicy(fs: seq<Family>, maxYield: real, p: seq<FareClass>) {
    && |p| <= |fs|
    && (forall t :: 0 <= t < |p| ==> p[t] in fs[t])
    && (forall t :: 0 <= t < |p| ==> p[t].yld < maxYield)
    && (forall t, u :: 0 <= t < u < |p| ==> p[t].yld > p[u].yld)
  }

  /** Classes of a family differ. */
  ghost predicate DifferentClasses(fs: seq<Family>) {
    forall i, b, c :: 0 <= i < |fs| && 0 <= b < c < |fs[i]| ==> fs[i][b] != fs[i][c]
  }

  /** The policy x goes on from cur with a class of family i from position b on. */
  ghost predicate Continues(fs: seq<Family>, i: nat, b: nat, cur: seq<FareClass>, prev: real, x: seq<FareClass>)
    requires i <= |fs|
  {
    && |cur| == i && i < |x| <= |fs| && x[..i] == cur
    && b <= |fs[i]| && x[i] in fs[i][b..]
    && (forall t :: i <= t < |x| ==> x[t] in fs[t])
    && (forall t :: i <= t < |x| ==> x[t].yld < prev)
    && (forall t, u :: i <= t < u < |x| ==> x[t].yld > x[u].yld)
  }

  lemma {:induction false} ExtensionsContinue(fs: seq<Family>, i: nat, b: nat, cur: seq<FareClass>, prev: real,
      x: seq<FareClass>)
    requires i <= |fs| && (i < |fs| ==> b <= |fs[i]|) && |cur| == i
    ensures x in Extensions(fs, i, b, cur, prev) <==> Continues(fs, i, b, cur, prev, x)
    decreases |fs| - i, if i < |fs| then |fs[i]| - b else 0
  {
    if i < |fs| && b < |fs[i]| {
      var c := fs[i][b];
      ExtensionsContinue(fs, i, b + 1, cur, prev, x);
      if c.yld < prev {
        ExtensionsContinue(fs, i + 1, 0, cur + [c], c.yld, x);
        ContinuesWith(fs, i, b, cur, prev, x);
      } else {
        ContinuesWithout(fs, i, b, cur, prev, x);
      }
    }
  }

  /** Going on with class b itself: stopping there, or going on below its yield. */
  lemma ContinuesWith(fs: seq<Family>, i: nat, b: nat, cur: seq<FareClass>, prev: real, x: seq<FareClass>)
    requires i < |fs| && b < |fs[i]| && |cur| == i && fs[i][b].yld < prev
    ensures Continues(fs, i, b, cur, prev, x) <==>
      || x == cur + [fs[i][b]]
      || Continues(fs, i + 1, 0, cur + [fs[i][b]], fs[i][b].yld, x)
      || Continues(fs, i, b + 1, cur, prev, x)
  {
    var c := fs[i][b];
    assert fs[i][b..] == [c] + fs[i][b + 1..];
    if Continues(fs, i + 1, 0, cur + [c], c.yld, x) {
      assert x[..i] == x[..i + 1][..i] == cur;
      assert x[i] == x[..i + 1][i] == c;
      assert Continues(fs, i, b, cur, prev, x);
    }
    if Continues(fs, i, b, cur, prev, x) && x[i] == c {
      assert x[..i + 1] == cur + [c];
      if |x| == i + 1 {
        assert x == x[..i + 1];
      } else {
        assert fs[i + 1][0..] == fs[i + 1];
        assert Continues(fs, i + 1, 0, cur + [c], c.yld, x);
      }
    }
  }

  lemma ContinuesWithout(fs: seq<Family>, i: nat, b: nat, cur: seq<FareClass>, prev: real, x: seq<FareClass>)
    requires i < |fs| && b < |fs[i]| && |cur| == i && fs[i][b].yld >= prev
    ensures Continues(fs, i, b, cur, prev, x) <==> Continues(fs, i, b + 1, cur, prev, x)
  {
    assert fs[i][b..] == [fs[i][b]] + fs[i][b + 1..];
  }

  // ------------------------------------------------------------- main results

  /** The policies generated are exactly the strictly yield-decreasing choices of
      one class from each of the first families, the empty choice included. */
  lemma PoliciesAreTheDecreasingChoices(fs: seq<Family>, maxYield: real, x: seq<FareClass>)
    ensures x in AllPolicies(fs, maxYield) <==> IsPolicy(fs, maxYield, x)
  {
    ExtensionsContinue(fs, 0, 0, [], maxYield, x);
    if x != [] {
      assert x[..0] == [];
      if fs != [] {
        assert fs[0][0..] == fs[0];
      }
    }
  }

  ghost predicate Distinct(ps: seq<seq<FareClass>>) {
    forall p, q :: 0 <= p < q < |ps| ==> ps[p] != ps[q]
  }

  lemma DistinctConcat(a: seq<seq<FareClass>>, b: seq<seq<FareClass>>)
    requires Distinct(a) && Distinct(b) && forall x :: x in a ==> x !in b
    ensures Distinct(a + b)
  {
    forall p, q | 0 <= p < q < |a + b|
      ensures (a + b)[p] != (a + b)[q]
    {
      if p < |a| <= q {
        assert a[p] in a && b[q - |a|] in b;
      }
    }
  }

  lemma {:induction false} ExtensionsDiffer(fs: seq<Family>, i: nat, b: nat, cur: seq<FareClass>, prev: real)
    requires i <= |fs| && (i < |fs| ==> b <= |fs[i]|) && |cur| == i && DifferentClasses(fs)
    ensures Distinct(Extensions(fs, i, b, cur, prev))
    decreases |fs| - i, if i < |fs| then |fs[i]| - b else 0
  {
    if i >= |fs| || b >= |fs[i]| {
    } else {
      var c := fs[i][b];
      var rest := Extensions(fs, i, b + 1, cur, prev);
      ExtensionsDiffer(fs, i, b + 1, cur, prev);
      if c.yld < prev {
        var deeper := Extensions(fs, i + 1, 0, cur + [c], c.yld);
        ExtensionsDiffer(fs, i + 1, 0, cur + [c], c.yld);
        forall x | x in deeper
          ensures x != cur + [c] && x !in rest
        {
          ExtensionsContinue(fs, i + 1, 0, cur + [c], c.yld, x);
          assert x[i] == x[..i + 1][i] == c;
          ClassIsLeftBehind(fs, i, b, cur, prev, x);
        }
        ClassIsLeftBehind(fs, i, b, cur, prev, cur + [c]);
        DistinctConcat([cur + [c]], deeper);
        DistinctConcat([cur + [c]] + deeper, rest);
      }
    }
  }

  /** No policy that goes on from a later class of family i holds class b there. */
  lemma ClassIsLeftBehind(fs: seq<Family>, i: nat, b: nat, cur: seq<FareClass>, prev: real, x: seq<FareClass>)
    requires i < |fs| && b < |fs[i]| && |cur| == i && DifferentClasses(fs)
    requires i < |x| && x[i] == fs[i][b]
    ensures x !in Extensions(fs, i, b + 1, cur, prev)
  {
    ExtensionsContinue(fs, i, b + 1, cur, prev, x);
    var later := fs[i][b + 1..];
    forall a | 0 <= a < |later|
      ensures later[a] != x[i]
    {
      assert later[a] == fs[i][b + 1 + a];
    }
  }

  /** No policy is generated twice. */
  lemma PoliciesDiffer(fs: seq<Family>, maxYield: real)
    requires DifferentClasses(fs)
    ensures Distinct(AllPolicies(fs, maxYield))
  {
    ExtensionsDiffer(fs, 0, 0, [], maxYield);
    forall x | x in Extensions(fs, 0, 0, [], maxYield)
      ensures x != []
    {
      ExtensionsContinue(fs, 0, 0, [], maxYield, x);
    }
    DistinctConcat([[]], Extensions(fs, 0, 0, [], maxYield));
  }

  // --------------------------------------------------------------- generation

  /** Policies numbered from a key on. */
  ghost function Keyed(ps: seq<seq<FareClass>>, key: nat): seq<Policy> {
    seq(|ps|, j requires 0 <= j < |ps| => Policy(key + j, ps[j]))
  }

  /** All policies of a new table, numbered from 0. */
  lemma AllPoliciesAreKeyed(fs: seq<Family>, maxYield: real)
    ensures var keyed := Keyed(AllPolicies(fs, maxYield), 0);
            && |keyed| == |AllPolicies(fs, maxYield)| && keyed[0].classes == []
            && forall j :: 0 <= j < |keyed| ==> keyed[j] == Policy(j, AllPolicies(fs, maxYield)[j])
  {
  }

  lemma KeyedConcat(a: seq<seq<FareClass>>, b: seq<seq<FareClass>>, key: nat)
    ensures Keyed(a + b, key) == Keyed(a, key) + Keyed(b, key + |a|)
  {
  }

  /** What class b of family i adds to the extensions made so far. */
  lemma ExtensionsMade(fs: seq<Family>, i: nat, b: nat, current: seq<FareClass>, prev: real, made: seq<seq<FareClass>>)
    requires i < |fs| && b < |fs[i]|
    ensures var c := fs[i][b];
            var more := [current + [c]] + Extensions(fs, i + 1, 0, current + [c], c.yld);
            made + Extensions(fs, i, b, current, prev)
            == (if c.yld >= prev then made else made + more) + Extensions(fs, i, b + 1, current, prev)
  {
    var c := fs[i][b];
    var more := [current + [c]] + Extensions(fs, i + 1, 0, current + [c], c.yld);
    var rest := Extensions(fs, i, b + 1, current, prev);
    assert Extensions(fs, i, b, current, prev) == (if c.yld < prev then more else []) + rest;
    assert [] + rest == rest;
    if c.yld < prev {
      ConcatIsAssociative(made, more, rest);
    }
  }

  /** The classes of a policy and one more. */
  method CopyAndAdd(current: seq<FareClass>, c: FareClass) returns (classes: seq<FareClass>)
    ensures classes == current + [c]
  {
    classes := [];
    for t := 0 to |current|
      invariant classes == current[..t]
    {
      classes := classes + [current[t]];
    }
    classes := classes + [c];
  }

  /** The policies held by a segment-cabin. */
  class PolicyTable {
    var policies: seq<Policy>

    constructor ()
      ensures policies == []
    {
      policies := [];
    }

    /** Creates the policies that extend the current one with class c of family
        i - 1, numbering them on from the counter. */
    method CreateWith(fs: seq<Family>, i: nat, c: FareClass, current: seq<FareClass>, counter: nat) returns (last: nat)
      requires i <= |fs|
      modifies this
      ensures policies
           == old(policies) + Keyed([current + [c]] + Extensions(fs, i, 0, current + [c], c.yld), counter + 1)
      ensures last == counter + 1 + |Extensions(fs, i, 0, current + [c], c.yld)|
      decreases |fs| - i, 1
    {
      last := counter + 1;
      var classes := CopyAndAdd(current, c);
      policies := policies + [Policy(last, classes)];
      KeyedConcat([classes], Extensions(fs, i, 0, classes, c.yld), last);
      last := CreatePolicies(fs, i, classes, last, c.yld);
    }

    /** Creates every policy that extends the current one with a class of family
        i or further, numbering them on from the counter. */
    method CreatePolicies(fs: seq<Family>, i: nat, current: seq<FareClass>, counter: nat, prev: real)
        returns (last: nat)
      requires i <= |fs|
      modifies this
      ensures policies == old(policies) + Keyed(Extensions(fs, i, 0, current, prev), counter + 1)
      ensures last == counter + |Extensions(fs, i, 0, current, prev)|
      decreases |fs| - i, 0
    {
      last := counter;
      if i < |fs| {
        ghost var all := Extensions(fs, i, 0, current, prev);
        ghost var made: seq<seq<FareClass>> := [];
        for b := 0 to |fs[i]|
          invariant all == made + Extensions(fs, i, b, current, prev)
          invariant policies == old(policies) + Keyed(made, counter + 1)
          invariant last == counter + |made|
        {
          var c := fs[i][b];
          ExtensionsMade(fs, i, b, current, prev, made);
          if c.yld >= prev {
            continue;
          }
          ghost var more := [current + [c]] + Extensions(fs, i + 1, 0, current + [c], c.yld);
          last := CreateWith(fs, i + 1, c, current, last);
          KeyedConcat(made, more, counter + 1);
          made := made + more;
        }
      }
    }

    /** Creates the empty policy, numbered 0, and then all its extensions. */
    method InitListOfUsablePolicies(fs: seq<Family>, maxYield: real)
      modifies this
      ensures policies == old(policies) + Keyed(AllPolicies(fs, maxYield), 0)
      ensures old(policies) == [] ==>
        policies[0].classes == [] && forall j :: 0 <= j < |policies| ==> policies[j].key == j
    {
      policies := policies + [Policy(0, [])];
      var last := CreatePolicies(fs, 0, [], 0, maxYield);
      KeyedConcat([[]], Extensions(fs, 0, 0, [], maxYield), 0);
      AllPoliciesAreKeyed(fs, maxYield);
    }
  }
}
