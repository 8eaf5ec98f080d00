/** Segments of a flight and their routing: all pairs of airports, and the walk
    over the legs that leads from one to the other. */
module Routing {
  import opened Sequences

  datatype Segment = Segment(boardingPoint: string, offPoint: string)

  datatype ScheduledLeg = ScheduledLeg(boardingPoint: string, offPoint: string)

  ghost predicate DifferentAirports(airports: seq<string>) {
    forall i, j :: 0 <= i < j < |airports| ==> airports[i] != airports[j]
  }

  // ----------------------------------------------------------- all the segments

  /** The segments boarding at airport i and getting off at airport j or later. */
  ghost function SegmentsFrom(airports: seq<string>, i: nat, j: nat): seq<Segment>
    requires i < j <= |airports|
    decreases |airports| - j
  {
    if j == |airports| then [] else [Segment(airports[i], airports[j])] + SegmentsFrom(airports, i, j + 1)
  }

  /** The segments boarding at airport i or later. */
  ghost function SegmentsAfter(airports: seq<string>, i: nat): seq<Segment>
    requires i <= |airports|
    decreases |airports| - i
  {
    if i >= |airports| - 1 then [] else SegmentsFrom(airports, i, i + 1) + SegmentsAfter(airports, i + 1)
  }

  ghost predicate Links(airports: seq<string>, i: int, j: int, x: Segment) {
    0 <= i < j < |airports| && x == Segment(airports[i], airports[j])
  }

  /** The segment leads from airport i to airport j or a later one. */
  ghost predicate LinksFrom(airports: seq<string>, i: nat, j: nat, x: Segment) {
    exists k :: j <= k && Links(airports, i, k, x)
  }

  lemma {:induction false} SegmentsFromAre(airports: seq<string>, i: nat, j: nat, x: Segment)
    requires i < j <= |airports|
    ensures x in SegmentsFrom(airports, i, j) <==> LinksFrom(airports, i, j, x)
    decreases |airports| - j
  {
    if j == |airports| {
    } else {
      SegmentsFromAre(airports, i, j + 1, x);
      if LinksFrom(airports, i, j + 1, x) {
        var k :| j + 1 <= k && Links(airports, i, k, x);
        assert j <= k && Links(airports, i, k, x);
      }
      if x == Segment(airports[i], airports[j]) {
        assert Links(airports, i, j, x);
      }
      if LinksFrom(airports, i, j, x) {
        var k :| j <= k && Links(airports, i, k, x);
        assert k == j || (j + 1 <= k && Links(airports, i, k, x));
      }
    }
  }

  /** The segment leads from airport i or a later one to a still later one. */
  ghost predicate LinksAfter(airports: seq<string>, i: nat, x: Segment) {
    exists k, l :: i <= k && Links(airports, k, l, x)
  }

  /** The segments are exactly the pairs of an airport and a later one. */
  lemma {:induction false} SegmentsAre(airports: seq<string>, i: nat, x: Segment)
    requires i <= |airports|
    ensures x in SegmentsAfter(airports, i) <==> LinksAfter(airports, i, x)
    decreases |airports| - i
  {
    if i < |airports| - 1 {
      SegmentsFromAre(airports, i, i + 1, x);
      SegmentsAre(airports, i + 1, x);
      if LinksFrom(airports, i, i + 1, x) {
        var k :| i + 1 <= k && Links(airports, i, k, x);
        assert i <= i && Links(airports, i, k, x);
      }
      if LinksAfter(airports, i + 1, x) {
        var k, l :| i + 1 <= k && Links(airports, k, l, x);
        assert i <= k && Links(airports, k, l, x);
      }
      if LinksAfter(airports, i, x) {
        var k, l :| i <= k && Links(airports, k, l, x);
        if k == i {
          assert i + 1 <= l && Links(airports, i, l, x);
        } else {
          assert i + 1 <= k && Links(airports, k, l, x);
        }
      }
    }
  }

  /** The number of pairs among n things. */
  ghost function Pairs(n: nat): nat {
    if n == 0 then 0 else n - 1 + Pairs(n - 1)
  }

  lemma {:induction false} PairsFormula(n: nat)
    ensures Pairs(n) == n * (n - 1) / 2
  {
    if n == 0 {
    } else {
      PairsFormula(n - 1);
      assert n * (n - 1) == 2 * (n - 1) + (n - 1) * (n - 2);
    }
  }

  lemma {:induction false} CountSegmentsFrom(airports: seq<string>, i: nat, j: nat)
    requires i < j <= |airports|
    ensures |SegmentsFrom(airports, i, j)| == |airports| - j
    decreases |airports| - j
  {
    if j == |airports| {
    } else {
      CountSegmentsFrom(airports, i, j + 1);
    }
  }

  lemma NextSegments(airports: seq<string>, i: nat)
    requires i < |airports| - 1
    ensures SegmentsAfter(airports, i) == SegmentsFrom(airports, i, i + 1) + SegmentsAfter(airports, i + 1)
  {
  }

  lemma CountNext(airports: seq<string>, i: nat)
    requires i < |airports| - 1
    ensures |SegmentsAfter(airports, i)| == |airports| - i - 1 + |SegmentsAfter(airports, i + 1)|
  {
    CountSegmentsFrom(airports, i, i + 1);
  }

  lemma LastSegments(airports: seq<string>)
    requires airports != []
    ensures SegmentsAfter(airports, |airports| - 1) == []
  {
  }

  lemma CountLast(airports: seq<string>, i: nat)
    requires |airports| - 1 <= i <= |airports|
    ensures |SegmentsAfter(airports, i)| == 0
  {
  }

  lemma PairsNext(n: nat)
    requires n > 0
    ensures Pairs(n) == n - 1 + Pairs(n - 1)
  {
  }

  lemma {:induction false} CountSegments(airports: seq<string>, i: nat, n: nat)
    requires i + n == |airports|
    ensures |SegmentsAfter(airports, i)| == Pairs(n)
    decreases n
  {
    if n <= 1 {
      CountLast(airports, i);
      assert Pairs(0) == 0 && Pairs(1) == 0;
    } else {
      CountNext(airports, i);
      PairsNext(n);
      CountSegments(airports, i + 1, n - 1);
    }
  }

  /** n airports give n(n-1)/2 segments. */
  lemma NumberOfSegments(airports: seq<string>)
    ensures |SegmentsAfter(airports, 0)| == |airports| * (|airports| - 1) / 2
  {
    CountSegments(airports, 0, |airports|);
    PairsFormula(|airports|);
  }

  ghost predicate DifferentSegments(xs: seq<Segment>) {
    forall p, q :: 0 <= p < q < |xs| ==> xs[p] != xs[q]
  }

  lemma {:induction false} SegmentsFromDiffer(airports: seq<string>, i: nat, j: nat)
    requires DifferentAirports(airports) && i < j <= |airports|
    ensures DifferentSegments(SegmentsFrom(airports, i, j))
    decreases |airports| - j
  {
    if j == |airports| {
    } else {
      SegmentsFromDiffer(airports, i, j + 1);
      var rest := SegmentsFrom(airports, i, j + 1);
      forall q | 0 <= q < |rest|
        ensures rest[q] != Segment(airports[i], airports[j])
      {
        SegmentsFromAre(airports, i, j + 1, rest[q]);
        assert LinksFrom(airports, i, j + 1, rest[q]);
        var k :| j + 1 <= k && Links(airports, i, k, rest[q]);
        assert airports[j] != airports[k];
      }
    }
  }

  /** Segments that board at airport i differ from those that board later. */
  lemma BoardingsDiffer(airports: seq<string>, i: nat, x: Segment, y: Segment)
    requires DifferentAirports(airports) && i < |airports| - 1
    requires x in SegmentsFrom(airports, i, i + 1) && y in SegmentsAfter(airports, i + 1)
    ensures x != y
  {
    SegmentsFromAre(airports, i, i + 1, x);
    SegmentsAre(airports, i + 1, y);
    var k :| i + 1 <= k && Links(airports, i, k, x);
    var m, l :| i + 1 <= m && Links(airports, m, l, y);
    assert airports[i] != airports[m];
  }

  lemma RowsDiffer(airports: seq<string>, i: nat, a: seq<Segment>, b: seq<Segment>)
    requires DifferentAirports(airports) && i < |airports| - 1
    requires a == SegmentsFrom(airports, i, i + 1) && b == SegmentsAfter(airports, i + 1)
    ensures forall p, q :: 0 <= p < |a| && 0 <= q < |b| ==> a[p] != b[q]
  {
    forall p, q | 0 <= p < |a| && 0 <= q < |b|
      ensures a[p] != b[q]
    {
      BoardingsDiffer(airports, i, a[p], b[q]);
    }
  }

  lemma DifferentTogether(a: seq<Segment>, b: seq<Segment>)
    requires DifferentSegments(a) && DifferentSegments(b)
    requires forall p, q :: 0 <= p < |a| && 0 <= q < |b| ==> a[p] != b[q]
    ensures DifferentSegments(a + b)
  {
  }

  /** Different airports give different segments. */
  lemma {:induction false} SegmentsDiffer(airports: seq<string>, i: nat)
    requires DifferentAirports(airports) && i <= |airports|
    ensures DifferentSegments(SegmentsAfter(airports, i))
    decreases |airports| - i
  {
    if i >= |airports| - 1 {
    } else {
      var a, b := SegmentsFrom(airports, i, i + 1), SegmentsAfter(airports, i + 1);
      SegmentsFromDiffer(airports, i, i + 1);
      SegmentsDiffer(airports, i + 1);
      RowsDiffer(airports, i, a, b);
      DifferentTogether(a, b);
      NextSegments(airports, i);
    }
  }

  /** The segments from one airport are listed in the order of their off airports. */
  lemma {:induction false} SegmentsFromInOrder(airports: seq<string>, i: nat, j: nat, p: nat)
    requires i < j <= |airports| && p < |SegmentsFrom(airports, i, j)|
    ensures j + p < |airports| && SegmentsFrom(airports, i, j)[p] == Segment(airports[i], airports[j + p])
    decreases |airports| - j
  {
    if p == 0 {
    } else {
      SegmentsFromInOrder(airports, i, j + 1, p - 1);
    }
  }

  class FlightPeriod {
    var airportList: set<string>
    var airportOrderedList: seq<string>
    var segmentList: seq<Segment>

    /** The set and the ordered list hold the same airports, each once. */
    ghost predicate Valid()
      reads this
    {
      DifferentAirports(airportOrderedList) && airportList == (set a | a in airportOrderedList)
    }

    constructor ()
      ensures Valid() && airportOrderedList == [] && segmentList == []
    {
      airportList, airportOrderedList, segmentList := {}, [], [];
    }

    /** Notes an airport the first time the flight calls there. */
    method AddAirport(airport: string)
      requires Valid()
      modifies this
      ensures Valid() && segmentList == old(segmentList)
      ensures airportOrderedList
           == if airport in old(airportOrderedList) then old(airportOrderedList)
              else old(airportOrderedList) + [airport]
    {
      if airport !in airportList {
        airportList := airportList + {airport};
        airportOrderedList := airportOrderedList + [airport];
      }
    }

    /** Adds the segments boarding at airport i. */
    method AddSegmentsFrom(airports: seq<string>, i: nat)
      requires i < |airports|
      modifies this`segmentList
      ensures segmentList == old(segmentList) + SegmentsFrom(airports, i, i + 1)
    {
      for j := i + 1 to |airports|
        invariant old(segmentList) + SegmentsFrom(airports, i, i + 1) == segmentList + SegmentsFrom(airports, i, j)
      {
        segmentList := segmentList + [Segment(airports[i], airports[j])];
      }
    }

    /** Goes on from the segments boarding before airport i to those boarding
        before airport i + 1. */
    method AddRow(airports: seq<string>, i: nat, ghost all: seq<Segment>)
      requires i < |airports| - 1 && all == segmentList + SegmentsAfter(airports, i)
      modifies this`segmentList
      ensures all == segmentList + SegmentsAfter(airports, i + 1)
    {
      AddSegmentsFrom(airports, i);
      ConcatIsAssociative(old(segmentList), SegmentsFrom(airports, i, i + 1), SegmentsAfter(airports, i + 1));
    }

    /** Builds one segment per pair of an airport and a later one, and clears the
        airports for the next flight. */
    method BuildSegments()
      requires Valid() && |airportOrderedList| >= 2
      modifies this
      ensures Valid() && airportOrderedList == []
      ensures segmentList == SegmentsAfter(old(airportOrderedList), 0)
    {
      segmentList := [];
      var airports := airportOrderedList;
      ghost var all := SegmentsAfter(airports, 0);
      for i := 0 to |airports| - 1
        invariant airportOrderedList == airports
        invariant all == segmentList + SegmentsAfter(airports, i)
      {
        AddRow(airports, i, all);
      }
      LastSegments(airports);
      airportList := {};
      airportOrderedList := [];
    }
  }

  // -------------------------------------------------- the airports of a schedule

  /** A list of airports after a call at one. */
  function Called(airports: seq<string>, a: string): seq<string> {
    if a in airports then airports else airports + [a]
  }

  /** The airports noted for legs read in order, boarding before off point. */
  function AirportsOf(schedule: seq<ScheduledLeg>): seq<string> {
    if schedule == [] then []
    else
      var leg := schedule[|schedule| - 1];
      Called(Called(AirportsOf(schedule[..|schedule| - 1]), leg.boardingPoint), leg.offPoint)
  }

  /** Notes the airports of the legs of a flight as they are read. */
  method ReadAirports(period: FlightPeriod, schedule: seq<ScheduledLeg>)
    requires period.Valid() && period.airportOrderedList == []
    modifies period
    ensures period.Valid() && period.airportOrderedList == AirportsOf(schedule)
  {
    for l := 0 to |schedule|
      invariant period.Valid() && period.airportOrderedList == AirportsOf(schedule[..l])
    {
      assert schedule[..l + 1][..l] == schedule[..l];
      period.AddAirport(schedule[l].boardingPoint);
      period.AddAirport(schedule[l].offPoint);
    }
    assert schedule[..|schedule|] == schedule;
  }

  /** Every leg boards where the one before it gets off. */
  ghost predicate Chained(schedule: seq<ScheduledLeg>) {
    forall l :: 0 <= l < |schedule| - 1 ==> schedule[l].offPoint == schedule[l + 1].boardingPoint
  }

  /** The boarding point of the first leg, and the off points of all legs. */
  ghost function Stops(schedule: seq<ScheduledLeg>): (stops: seq<string>)
    requires schedule != []
    ensures |stops| == |schedule| + 1
  {
    [schedule[0].boardingPoint] + seq(|schedule|, l requires 0 <= l < |schedule| => schedule[l].offPoint)
  }

  lemma {:induction false} AirportsDiffer(schedule: seq<ScheduledLeg>)
    ensures DifferentAirports(AirportsOf(schedule))
  {
    if schedule == [] {
    } else {
      AirportsDiffer(schedule[..|schedule| - 1]);
    }
  }

  /** Calling at the last stop again and at the next one adds the next one. */
  lemma CalledNext(stops: seq<string>, n: nat)
    requires DifferentAirports(stops) && 0 < n < |stops|
    ensures Called(Called(stops[..n], stops[n - 1]), stops[n]) == stops[..n + 1]
  {
    assert stops[..n][n - 1] == stops[n - 1];
    assert stops[n] !in stops[..n];
    assert stops[..n] + [stops[n]] == stops[..n + 1];
  }

  lemma AirportsNext(schedule: seq<ScheduledLeg>, n: nat)
    requires 0 < n <= |schedule| && Chained(schedule)
    ensures AirportsOf(schedule[..n])
         == Called(Called(AirportsOf(schedule[..n - 1]), Stops(schedule)[n - 1]), Stops(schedule)[n])
  {
    assert schedule[..n][..n - 1] == schedule[..n - 1] && schedule[..n][n - 1] == schedule[n - 1];
  }

  lemma {:induction false} AirportsUpTo(schedule: seq<ScheduledLeg>, n: nat)
    requires 0 < n <= |schedule| && Chained(schedule) && DifferentAirports(Stops(schedule))
    ensures AirportsOf(schedule[..n]) == Stops(schedule)[..n + 1]
  {
    var stops := Stops(schedule);
    AirportsNext(schedule, n);
    if n == 1 {
      assert AirportsOf(schedule[..0]) == [] && stops[..1] == [stops[0]];
      assert Called([], stops[0]) == Called(stops[..1], stops[0]);
    } else {
      AirportsUpTo(schedule, n - 1);
    }
    CalledNext(stops, n);
  }

  /** The airports noted for chained legs are their stops exactly when no stop is
      revisited. */
  lemma AirportsAreTheStopsIff(schedule: seq<ScheduledLeg>)
    requires schedule != [] && Chained(schedule)
    ensures AirportsOf(schedule) == Stops(schedule) <==> DifferentAirports(Stops(schedule))
  {
    AirportsDiffer(schedule);
    if DifferentAirports(Stops(schedule)) {
      AirportsUpTo(schedule, |schedule|);
      assert schedule[..|schedule|] == schedule;
      assert Stops(schedule)[..|schedule| + 1] == Stops(schedule);
    }
  }

  /** The legs of a flight by their boarding point. */
  function ByBoarding(schedule: seq<ScheduledLeg>): map<string, ScheduledLeg> {
    if schedule == [] then map[]
    else
      var leg := schedule[|schedule| - 1];
      ByBoarding(schedule[..|schedule| - 1])[leg.boardingPoint := leg]
  }

  lemma {:induction false} ByBoardingHolds(schedule: seq<ScheduledLeg>, n: nat, l: nat)
    requires l < n <= |schedule| && Chained(schedule) && DifferentAirports(Stops(schedule))
    ensures var x := schedule[l].boardingPoint;
            x in ByBoarding(schedule[..n]) && ByBoarding(schedule[..n])[x] == schedule[l]
  {
    assert schedule[..n][..n - 1] == schedule[..n - 1] && schedule[..n][n - 1] == schedule[n - 1];
    if l == n - 1 {
    } else {
      ByBoardingHolds(schedule, n - 1, l);
      var stops := Stops(schedule);
      assert schedule[l].boardingPoint == stops[l] && schedule[n - 1].boardingPoint == stops[n - 1];
      assert stops[l] != stops[n - 1];
    }
  }

  // ----------------------------------------------------------------- the walk

  /** What the walk over the legs collects, or how it fails: at an airport no leg
      leaves, or with the leg counter beyond its maximum. */
  datatype Walk = Collected(keys: seq<string>) | MissingLeg | TooManyLegs

  /** Walks from the boarding point of a segment to its off point, collecting the
      keys of the legs.  The counter starts at 1 and is checked after the loop. */
  method RoutingLegKeys(legs: map<string, ScheduledLeg>, segment: Segment, maxLegs: nat) returns (w: Walk)
    ensures w == WalkFrom(legs, segment.boardingPoint, segment.offPoint, [], 1, maxLegs)
  {
    var current := segment.boardingPoint;
    var keys: seq<string> := [];
    var i := 1;
    while current != segment.offPoint && i <= maxLegs
      invariant 1 <= i
      invariant WalkFrom(legs, current, segment.offPoint, keys, i, maxLegs)
             == WalkFrom(legs, segment.boardingPoint, segment.offPoint, [], 1, maxLegs)
      decreases maxLegs - i
    {
      if current !in legs {
        return MissingLeg;
      }
      keys := keys + [legs[current].boardingPoint];
      current := legs[current].offPoint;
      i := i + 1;
    }
    w := if i <= maxLegs then Collected(keys) else TooManyLegs;
  }

  ghost function WalkFrom(legs: map<string, ScheduledLeg>, current: string, off: string, keys: seq<string>, i: nat,
      maxLegs: nat): Walk
    decreases maxLegs + 1 - i
  {
    if current != off && i <= maxLegs then
      if current !in legs then MissingLeg
      else WalkFrom(legs, legs[current].offPoint, off, keys + [legs[current].boardingPoint], i + 1, maxLegs)
    else if i <= maxLegs then Collected(keys)
    else TooManyLegs
  }

  /** The legs fly along the airports, in order. */
  ghost predicate FliesAlong(legs: map<string, ScheduledLeg>, airports: seq<string>) {
    forall t :: 0 <= t < |airports| - 1 ==>
      airports[t] in legs && legs[airports[t]] == ScheduledLeg(airports[t], airports[t + 1])
  }

  /** Chained legs without a revisited stop fly along their stops. */
  lemma ScheduleFliesAlong(schedule: seq<ScheduledLeg>)
    requires schedule != [] && Chained(schedule) && DifferentAirports(Stops(schedule))
    ensures FliesAlong(ByBoarding(schedule), Stops(schedule))
  {
    var stops := Stops(schedule);
    assert schedule[..|schedule|] == schedule;
    forall t | 0 <= t < |stops| - 1
      ensures stops[t] in ByBoarding(schedule)
      ensures ByBoarding(schedule)[stops[t]] == ScheduledLeg(stops[t], stops[t + 1])
    {
      ByBoardingHolds(schedule, |schedule|, t);
      assert schedule[t].boardingPoint == stops[t] && schedule[t].offPoint == stops[t + 1];
    }
  }

  lemma {:induction false} WalkAlong(legs: map<string, ScheduledLeg>, airports: seq<string>, i: nat, t: nat, j: nat,
      n: nat, maxLegs: nat)
    requires DifferentAirports(airports) && FliesAlong(legs, airports)
    requires i <= t <= j < |airports| && n == t - i + 1
    ensures n <= maxLegs + 1 ==>
      WalkFrom(legs, airports[t], airports[j], airports[i..t], n, maxLegs)
        == if j - i < maxLegs then Collected(airports[i..j]) else TooManyLegs
    decreases j - t
  {
    if t == j || n > maxLegs {
    } else {
      assert airports[t] != airports[j];
      assert airports[i..t] + [airports[t]] == airports[i..t + 1];
      WalkAlong(legs, airports, i, t + 1, j, n + 1, maxLegs);
    }
  }

  lemma {:induction false} DeadEndAlong(legs: map<string, ScheduledLeg>, airports: seq<string>, i: nat, t: nat,
      off: string, n: nat, maxLegs: nat)
    requires FliesAlong(legs, airports) && i <= t < |airports| && n == t - i + 1 && n <= maxLegs + 1
    requires off !in airports && airports[|airports| - 1] !in legs
    ensures WalkFrom(legs, airports[t], off, airports[i..t], n, maxLegs)
         == if |airports| - i <= maxLegs then MissingLeg else TooManyLegs
    decreases |airports| - t
  {
    assert airports[t] != off;
    if n > maxLegs || t == |airports| - 1 {
    } else {
      assert airports[i..t] + [airports[t]] == airports[i..t + 1];
      DeadEndAlong(legs, airports, i, t + 1, off, n + 1, maxLegs);
    }
  }

  /** Where the legs end before the off point is reached, the walk fails for want of
      a leg, unless it has used up the maximum before. */
  lemma RoutingMeetsADeadEnd(legs: map<string, ScheduledLeg>, airports: seq<string>, i: nat, off: string, maxLegs: nat)
    requires FliesAlong(legs, airports) && i < |airports|
    requires off !in airports && airports[|airports| - 1] !in legs
    ensures WalkFrom(legs, airports[i], off, [], 1, maxLegs)
         == if |airports| - i <= maxLegs then MissingLeg else TooManyLegs
  {
    assert airports[i..i] == [];
    DeadEndAlong(legs, airports, i, i, off, 1, maxLegs);
  }

  /** On a route with no revisited airport, the walk for segment (i, j) collects
      legs i, ..., j - 1 in order, exactly when they are fewer than the maximum. */
  lemma RoutingIsTheLegsBetween(legs: map<string, ScheduledLeg>, airports: seq<string>, i: nat, j: nat, maxLegs: nat)
    requires DifferentAirports(airports) && FliesAlong(legs, airports) && i < j < |airports|
    ensures WalkFrom(legs, airports[i], airports[j], [], 1, maxLegs)
         == if j - i < maxLegs then Collected(airports[i..j]) else TooManyLegs
  {
    assert airports[i..i] == [];
    WalkAlong(legs, airports, i, i, j, 1, maxLegs);
  }
}
