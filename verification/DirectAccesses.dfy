/** Linking segment-cabins and leg-cabins both ways, from the routing keys of the
    segments. */
module DirectAccesses {
  import opened Bom
  import opened FlightDateHelper
  import opened Sequences

  ghost predicate DifferentBoardings(legs: seq<LegCabin>) {
    var ks := Boardings(legs);
    forall i, j :: 0 <= i < j < |ks| ==> ks[i] != ks[j]
  }

  ghost function Boardings(legs: seq<LegCabin>): (ks: seq<string>)
    ensures |ks| == |legs| && forall l :: 0 <= l < |legs| ==> ks[l] == legs[l].boardingPoint
  {
    seq(|legs|, l requires 0 <= l < |legs| => legs[l].boardingPoint)
  }

  // ---------------------------------------------------------------- one segment

  /** The leg with a key, or none. */
  ghost function LegWith(legs: seq<LegCabin>, key: string): seq<LegCabin> {
    if legs == [] then []
    else if legs[|legs| - 1].boardingPoint == key then [legs[|legs| - 1]]
    else LegWith(legs[..|legs| - 1], key)
  }

  lemma {:induction false} LegWithIs(legs: seq<LegCabin>, key: string)
    requires DifferentBoardings(legs)
    ensures forall l :: 0 <= l < |legs| && legs[l].boardingPoint == key ==> LegWith(legs, key) == [legs[l]]
    ensures (forall l :: 0 <= l < |legs| ==> legs[l].boardingPoint != key) ==> LegWith(legs, key) == []
  {
    if legs == [] {
    } else {
      var rest := legs[..|legs| - 1];
      assert Boardings(rest) == Boardings(legs)[..|legs| - 1];
      LegWithIs(rest, key);
      forall l | 0 <= l < |legs| && legs[l].boardingPoint == key
        ensures LegWith(legs, key) == [legs[l]]
      {
        assert Boardings(legs)[l] == key;
        if l < |legs| - 1 {
          assert Boardings(legs)[l] != Boardings(legs)[|legs| - 1];
          assert rest[l] == legs[l];
        }
      }
    }
  }

  /** The legs that some keys lead to, in the order of the keys; keys without a
      leg lead to none. */
  ghost function LegsWith(legs: seq<LegCabin>, keys: seq<string>): seq<LegCabin> {
    if keys == [] then [] else LegsWith(legs, keys[..|keys| - 1]) + LegWith(legs, keys[|keys| - 1])
  }

  /** The segment-cabin, once for each time its keys name the leg. */
  ghost function Crossings(keys: seq<string>, key: string, segment: SegmentCabin): seq<SegmentCabin> {
    if keys == [] then []
    else Crossings(keys[..|keys| - 1], key, segment) + (if keys[|keys| - 1] == key then [segment] else [])
  }

  /** The position of the leg with a key, if there is one. */
  method FindLeg(legs: seq<LegCabin>, key: string) returns (found: bool, position: nat)
    ensures found ==> position < |legs| && legs[position].boardingPoint == key
    ensures !found ==> forall l :: 0 <= l < |legs| ==> legs[l].boardingPoint != key
  {
    found, position := false, 0;
    while position < |legs|
      invariant position <= |legs|
      invariant forall l :: 0 <= l < position ==> legs[l].boardingPoint != key
    {
      if legs[position].boardingPoint == key {
        return true, position;
      }
      position := position + 1;
    }
  }

  /** Links a segment-cabin and the leg of a key, both ways; skips a key without a
      leg. */
  method LinkKey(legs: seq<LegCabin>, segment: SegmentCabin, key: string)
    requires DifferentBoardings(legs)
    modifies {segment}`legCabins, legs`segmentCabins
    ensures segment.legCabins == old(segment.legCabins) + LegWith(legs, key)
    ensures forall l :: 0 <= l < |legs| ==>
      legs[l].segmentCabins == old(legs[l].segmentCabins) + (if legs[l].boardingPoint == key then [segment] else [])
  {
    var found, position := FindLeg(legs, key);
    LegWithIs(legs, key);
    if found {
      segment.legCabins := segment.legCabins + [legs[position]];
      legs[position].segmentCabins := legs[position].segmentCabins + [segment];
      forall l | 0 <= l < |legs| && l != position
        ensures legs[l].boardingPoint != key
      {
        assert Boardings(legs)[l] != Boardings(legs)[position];
      }
    }
  }

  /** Links a segment-cabin and the legs of its keys, both ways. */
  method LinkSegment(legs: seq<LegCabin>, segment: SegmentCabin, keys: seq<string>)
    requires DifferentBoardings(legs)
    modifies {segment}`legCabins, legs`segmentCabins
    ensures segment.legCabins == old(segment.legCabins) + LegsWith(legs, keys)
    ensures forall l :: 0 <= l < |legs| ==>
      legs[l].segmentCabins == old(legs[l].segmentCabins) + Crossings(keys, legs[l].boardingPoint, segment)
  {
    for t := 0 to |keys|
      invariant segment.legCabins == old(segment.legCabins) + LegsWith(legs, keys[..t])
      invariant forall l :: 0 <= l < |legs| ==>
        legs[l].segmentCabins == old(legs[l].segmentCabins) + Crossings(keys[..t], legs[l].boardingPoint, segment)
    {
      assert keys[..t + 1][..t] == keys[..t];
      LinkKey(legs, segment, keys[t]);
      ConcatIsAssociative(old(segment.legCabins), LegsWith(legs, keys[..t]), LegWith(legs, keys[t]));
      forall l | 0 <= l < |legs|
        ensures legs[l].segmentCabins
             == old(legs[l].segmentCabins) + Crossings(keys[..t + 1], legs[l].boardingPoint, segment)
      {
        ConcatIsAssociative(old(legs[l].segmentCabins), Crossings(keys[..t], legs[l].boardingPoint, segment),
          if keys[t] == legs[l].boardingPoint then [segment] else []);
      }
    }
    assert keys[..|keys|] == keys;
  }

  // --------------------------------------------------------------- all segments

  /** What the first n segment-cabins leave on the leg with a key. */
  ghost function AllCrossings(segments: seq<SegmentCabin>, keys: seq<seq<string>>, n: nat, key: string):
      seq<SegmentCabin>
    requires n <= |segments| == |keys|
  {
    if n == 0 then [] else AllCrossings(segments, keys, n - 1, key) + Crossings(keys[n - 1], key, segments[n - 1])
  }

  /** What the first n segments leave on segment-cabin t. */
  ghost function LegsUpTo(legs: seq<LegCabin>, keys: seq<seq<string>>, n: nat, t: nat): seq<LegCabin>
    requires t < |keys|
  {
    if t < n then LegsWith(legs, keys[t]) else []
  }

  /** Links segment-cabin s after all those before it. */
  method LinkNext(legs: seq<LegCabin>, segments: seq<SegmentCabin>, s: nat, keys: seq<seq<string>>)
    requires DifferentBoardings(legs) && s < |segments| == |keys|
    requires forall t :: 0 <= t < |segments| && t != s ==> segments[t] != segments[s]
    requires forall t :: 0 <= t < |segments| ==> segments[t].legCabins == LegsUpTo(legs, keys, s, t)
    requires forall l :: 0 <= l < |legs| ==>
      legs[l].segmentCabins == AllCrossings(segments, keys, s, legs[l].boardingPoint)
    modifies {segments[s]}`legCabins, legs`segmentCabins
    ensures forall t :: 0 <= t < |segments| ==> segments[t].legCabins == LegsUpTo(legs, keys, s + 1, t)
    ensures forall l :: 0 <= l < |legs| ==>
      legs[l].segmentCabins == AllCrossings(segments, keys, s + 1, legs[l].boardingPoint)
  {
    assert segments[s].legCabins == [];
    LinkSegment(legs, segments[s], keys[s]);
    assert [] + LegsWith(legs, keys[s]) == LegsWith(legs, keys[s]);
  }

  /** Links every segment-cabin of a flight-date with the legs its keys lead to. */
  method CreateDirectAccesses(f: FlightDate, keys: seq<seq<string>>)
    requires DifferentBoardings(f.legCabins)
    requires forall i, j :: 0 <= i < j < |f.segmentCabins| ==> f.segmentCabins[i] != f.segmentCabins[j]
    requires |keys| == |f.segmentCabins|
    requires forall s :: 0 <= s < |f.segmentCabins| ==> f.segmentCabins[s].legCabins == []
    requires forall l :: 0 <= l < |f.legCabins| ==> f.legCabins[l].segmentCabins == []
    modifies f.segmentCabins`legCabins, f.legCabins`segmentCabins
    ensures forall s :: 0 <= s < |keys| ==> f.segmentCabins[s].legCabins == LegsWith(f.legCabins, keys[s])
    ensures forall l :: 0 <= l < |f.legCabins| ==>
      f.legCabins[l].segmentCabins == AllCrossings(f.segmentCabins, keys, |keys|, f.legCabins[l].boardingPoint)
  {
    LinkAll(f.legCabins, f.segmentCabins, keys);
  }

  method LinkAll(legs: seq<LegCabin>, segments: seq<SegmentCabin>, keys: seq<seq<string>>)
    requires DifferentBoardings(legs) && |keys| == |segments|
    requires forall i, j :: 0 <= i < j < |segments| ==> segments[i] != segments[j]
    requires forall s :: 0 <= s < |segments| ==> segments[s].legCabins == []
    requires forall l :: 0 <= l < |legs| ==> legs[l].segmentCabins == []
    modifies segments`legCabins, legs`segmentCabins
    ensures forall s :: 0 <= s < |keys| ==> segments[s].legCabins == LegsWith(legs, keys[s])
    ensures forall l :: 0 <= l < |legs| ==>
      legs[l].segmentCabins == AllCrossings(segments, keys, |keys|, legs[l].boardingPoint)
  {
    for s := 0 to |segments|
      invariant forall t :: 0 <= t < |segments| ==> segments[t].legCabins == LegsUpTo(legs, keys, s, t)
      invariant forall l :: 0 <= l < |legs| ==>
        legs[l].segmentCabins == AllCrossings(segments, keys, s, legs[l].boardingPoint)
    {
      LinkNext(legs, segments, s, keys);
    }
  }

  // ------------------------------------------------------------------ both ways

  lemma {:induction false} CrossingsHold(keys: seq<string>, key: string, segment: SegmentCabin, x: SegmentCabin)
    ensures x in Crossings(keys, key, segment) <==> x == segment && key in keys
  {
    if keys == [] {
    } else {
      CrossingsHold(keys[..|keys| - 1], key, segment, x);
      assert keys == keys[..|keys| - 1] + [keys[|keys| - 1]];
    }
  }

  lemma {:induction false} AllCrossingsHold(segments: seq<SegmentCabin>, keys: seq<seq<string>>, n: nat, key: string,
      s: nat)
    requires n <= |segments| == |keys| && s < |segments|
    requires forall i, j :: 0 <= i < j < |segments| ==> segments[i] != segments[j]
    ensures segments[s] in AllCrossings(segments, keys, n, key) <==> s < n && key in keys[s]
  {
    if n == 0 {
    } else {
      AllCrossingsHold(segments, keys, n - 1, key, s);
      CrossingsHold(keys[n - 1], key, segments[n - 1], segments[s]);
    }
  }

  /** Keys that are all different name a leg at most once. */
  lemma {:induction false} CrossingsOnce(keys: seq<string>, key: string, segment: SegmentCabin)
    requires forall i, j :: 0 <= i < j < |keys| ==> keys[i] != keys[j]
    ensures Crossings(keys, key, segment) == if key in keys then [segment] else []
  {
    if keys == [] {
    } else {
      CrossingsOnce(keys[..|keys| - 1], key, segment);
      assert keys == keys[..|keys| - 1] + [keys[|keys| - 1]];
    }
  }

  /** A leg lists the segment-cabins that cross it in their own order. */
  lemma {:induction false} CrossingsInOrder(segments: seq<SegmentCabin>, keys: seq<seq<string>>, n: nat, key: string,
      s: nat, t: nat) returns (p: nat, q: nat)
    requires n <= |segments| == |keys| && s < t < n && key in keys[s] && key in keys[t]
    ensures var list := AllCrossings(segments, keys, n, key);
            p < q < |list| && list[p] == segments[s] && list[q] == segments[t]
  {
    var before := AllCrossings(segments, keys, n - 1, key);
    if t < n - 1 {
      p, q := CrossingsInOrder(segments, keys, n - 1, key, s, t);
    } else {
      p := CrossingIn(segments, keys, n - 1, key, s);
      CrossingsHold(keys[t], key, segments[t], segments[t]);
      var own := Crossings(keys[t], key, segments[t]);
      var i :| 0 <= i < |own| && own[i] == segments[t];
      q := |before| + i;
    }
  }

  lemma {:induction false} CrossingIn(segments: seq<SegmentCabin>, keys: seq<seq<string>>, n: nat, key: string, s: nat)
      returns (p: nat)
    requires n <= |segments| == |keys| && s < n && key in keys[s]
    ensures p < |AllCrossings(segments, keys, n, key)| && AllCrossings(segments, keys, n, key)[p] == segments[s]
  {
    if s < n - 1 {
      p := CrossingIn(segments, keys, n - 1, key, s);
    } else {
      CrossingsHold(keys[s], key, segments[s], segments[s]);
      var own := Crossings(keys[s], key, segments[s]);
      var i :| 0 <= i < |own| && own[i] == segments[s];
      p := |AllCrossings(segments, keys, n - 1, key)| + i;
    }
  }

  lemma {:induction false} LegsWithHold(legs: seq<LegCabin>, keys: seq<string>, l: nat)
    requires DifferentBoardings(legs) && l < |legs|
    ensures legs[l] in LegsWith(legs, keys) <==> legs[l].boardingPoint in keys
  {
    if keys == [] {
    } else {
      var key := keys[|keys| - 1];
      LegsWithHold(legs, keys[..|keys| - 1], l);
      assert keys == keys[..|keys| - 1] + [key];
      LegWithIs(legs, key);
      if i :| 0 <= i < |legs| && legs[i].boardingPoint == key {
        assert LegWith(legs, key) == [legs[i]];
      }
    }
  }

  /** In a linked flight-date a segment-cabin lists a leg-cabin exactly when the
      leg-cabin lists the segment-cabin, that is, when its keys name the leg. */
  lemma LinksAreMutual(f: FlightDate, keys: seq<seq<string>>, s: nat, l: nat)
    requires DifferentBoardings(f.legCabins)
    requires forall i, j :: 0 <= i < j < |f.segmentCabins| ==> f.segmentCabins[i] != f.segmentCabins[j]
    requires |keys| == |f.segmentCabins| && s < |keys| && l < |f.legCabins|
    requires f.segmentCabins[s].legCabins == LegsWith(f.legCabins, keys[s])
    requires f.legCabins[l].segmentCabins == AllCrossings(f.segmentCabins, keys, |keys|, f.legCabins[l].boardingPoint)
    ensures f.legCabins[l] in f.segmentCabins[s].legCabins <==> f.segmentCabins[s] in f.legCabins[l].segmentCabins
    ensures f.legCabins[l] in f.segmentCabins[s].legCabins <==> f.legCabins[l].boardingPoint in keys[s]
  {
    AllCrossingsHold(f.segmentCabins, keys, |keys|, f.legCabins[l].boardingPoint, s);
    LegsWithHold(f.legCabins, keys[s], l);
  }

  /** The keys are those of the consecutive legs of the route. */
  ghost predicate KeysOf(legs: seq<LegCabin>, keys: seq<string>, r: Route) {
    r.first < r.last <= |legs| && keys == Boardings(legs)[r.first..r.last]
  }

  lemma {:induction false} LegsOfRoute(legs: seq<LegCabin>, first: nat, last: nat)
    requires DifferentBoardings(legs) && first <= last <= |legs|
    ensures LegsWith(legs, Boardings(legs)[first..last]) == legs[first..last]
    decreases last
  {
    var keys := Boardings(legs)[first..last];
    if first == last {
    } else {
      LegsOfRoute(legs, first, last - 1);
      assert keys[..|keys| - 1] == Boardings(legs)[first..last - 1];
      LegWithIs(legs, keys[|keys| - 1]);
      assert keys[|keys| - 1] == legs[last - 1].boardingPoint;
      assert legs[first..last] == legs[first..last - 1] + [legs[last - 1]];
    }
  }

  /** A segment-cabin linked by the keys of a route runs over its legs. */
  lemma LinkedIsRouted(legs: seq<LegCabin>, segment: SegmentCabin, keys: seq<string>, r: Route)
    requires DifferentBoardings(legs) && KeysOf(legs, keys, r)
    requires segment.legCabins == LegsWith(legs, keys)
    ensures Routed(legs, segment, r)
  {
    LegsOfRoute(legs, r.first, r.last);
  }
}
