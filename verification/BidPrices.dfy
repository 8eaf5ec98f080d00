/** Bid-price vectors as values.  Entry x-1 of a vector is the bid price with x
    seats left, so the last entry is the current bid price, and a vector whose
    price rises as seats run out is non-increasing. */
module BidPrices {

  ghost predicate NonIncreasing(v: seq<real>) {
    forall i, j :: 0 <= i <= j < |v| ==> v[i] >= v[j]
  }

  /** How many prices of the vector a given yield can pay. */
  ghost function Affordable(v: seq<real>, yld: real): nat {
    if v == [] then 0 else (if v[0] <= yld then 1 else 0) + Affordable(v[1..], yld)
  }

  /** How many prices of the vector exceed a given yield. */
  ghost function Above(v: seq<real>, yld: real): nat {
    if v == [] then 0 else (if v[0] > yld then 1 else 0) + Above(v[1..], yld)
  }

  lemma {:induction false} AffordableOrAbove(v: seq<real>, yld: real)
    ensures Affordable(v, yld) + Above(v, yld) == |v|
  {
    if v == [] {
    } else {
      AffordableOrAbove(v[1..], yld);
    }
  }

  /** Once the leading entries exceed the yield and the others do not, the
      counts are the lengths of the two parts. */
  lemma {:induction false} CountsOfSplit(v: seq<real>, yld: real, a: nat)
    requires a <= |v|
    requires forall i :: 0 <= i < a ==> v[i] > yld
    requires forall i :: a <= i < |v| ==> v[i] <= yld
    ensures Above(v, yld) == a && Affordable(v, yld) == |v| - a
  {
    AffordableOrAbove(v, yld);
    if v == [] {
    } else {
      CountsOfSplit(v[1..], yld, if a == 0 then 0 else a - 1);
    }
  }

  /** In a non-increasing vector the prices above a yield come first. */
  lemma {:induction false} AboveComesFirst(v: seq<real>, yld: real)
    requires NonIncreasing(v)
    ensures Above(v, yld) <= |v|
    ensures forall i :: 0 <= i < Above(v, yld) ==> v[i] > yld
    ensures forall i :: Above(v, yld) <= i < |v| ==> v[i] <= yld
  {
    if v == [] {
    } else {
      AboveComesFirst(v[1..], yld);
      if v[0] <= yld {
        CountsOfSplit(v, yld, 0);
      }
    }
  }

  /** Counting what is left of a non-increasing vector cut to its first n
      entries: the cut removes payable prices first. */
  lemma AffordableAfterCut(v: seq<real>, yld: real, n: nat)
    requires NonIncreasing(v) && n <= |v|
    ensures Affordable(v[..n], yld) == if n <= Above(v, yld) then 0 else n - Above(v, yld)
  {
    AboveComesFirst(v, yld);
    var a := Above(v, yld);
    CountsOfSplit(v[..n], yld, if n <= a then n else a);
  }

  lemma TailNonIncreasing(v: seq<real>, n: nat)
    requires NonIncreasing(v) && n <= |v|
    ensures NonIncreasing(v[..n]) && NonIncreasing(v[|v| - n..])
  {
  }

  /** Counting what is left of a non-increasing vector cut to its last n entries:
      the cut removes the dear prices first. */
  lemma AffordableInTail(v: seq<real>, yld: real, n: nat)
    requires NonIncreasing(v) && n <= |v|
    ensures Affordable(v[|v| - n..], yld) == if n <= |v| - Above(v, yld) then n else |v| - Above(v, yld)
  {
    AboveComesFirst(v, yld);
    var a := Above(v, yld);
    CountsOfSplit(v[|v| - n..], yld, if n <= |v| - a then 0 else n - (|v| - a));
  }

  // ------------------------------------------------------- cumulative limits

  /** Seats payable by the yield, counted from the current bid price towards
      the last seat, up to the first price above the yield. */
  ghost function PayableRun(v: seq<real>, yld: real): (r: nat)
    ensures r <= |v|
  {
    if v == [] || v[|v| - 1] > yld then 0 else 1 + PayableRun(v[..|v| - 1], yld)
  }

  /** The cumulative booking limit of a yield: the payable run, or the whole
      pool when no price exceeds the yield. */
  ghost function BookingLimit(v: seq<real>, pool: real, yld: real): real {
    if PayableRun(v, yld) == |v| then pool else PayableRun(v, yld) as real
  }

  /** The payable run is cut by the first price above the yield, and nothing
      before that. */
  lemma {:induction false} PayableRunStops(v: seq<real>, yld: real)
    ensures forall i :: |v| - PayableRun(v, yld) <= i < |v| ==> v[i] <= yld
    ensures PayableRun(v, yld) < |v| ==> v[|v| - 1 - PayableRun(v, yld)] > yld
  {
    if v == [] || v[|v| - 1] > yld {
    } else {
      PayableRunStops(v[..|v| - 1], yld);
    }
  }

  /** The two properties above leave only one value for the run. */
  lemma PayableRunIsUnique(v: seq<real>, yld: real, n: nat)
    requires n <= |v|
    requires forall i :: |v| - n <= i < |v| ==> v[i] <= yld
    requires n < |v| ==> v[|v| - 1 - n] > yld
    ensures n == PayableRun(v, yld)
  {
    PayableRunStops(v, yld);
  }

  /** The limit in plain terms: the pool when no price exceeds the yield, and
      otherwise the number of prices after the last one that does. */
  lemma BookingLimitIs(v: seq<real>, pool: real, yld: real)
    ensures (forall i :: 0 <= i < |v| ==> v[i] <= yld) ==> BookingLimit(v, pool, yld) == pool
    ensures forall t :: 0 <= t < |v| && v[t] > yld && (forall i :: t < i < |v| ==> v[i] <= yld) ==>
              BookingLimit(v, pool, yld) == (|v| - 1 - t) as real
  {
    if forall i :: 0 <= i < |v| ==> v[i] <= yld {
      PayableRunIsUnique(v, yld, |v|);
    }
    forall t | 0 <= t < |v| && v[t] > yld && (forall i :: t < i < |v| ==> v[i] <= yld)
      ensures BookingLimit(v, pool, yld) == (|v| - 1 - t) as real
    {
      PayableRunIsUnique(v, yld, |v| - 1 - t);
    }
  }

  /** A vector holds no more entries than the pool has seats. */
  ghost predicate FitsPool(v: seq<real>, pool: real) {
    v == [] || |v| as real <= pool
  }

  /** Limits never increase as the yield decreases, and never exceed the pool. */
  lemma LimitsFollowYield(v: seq<real>, pool: real, high: real, low: real)
    requires FitsPool(v, pool) && high >= low
    ensures BookingLimit(v, pool, low) <= BookingLimit(v, pool, high) <= pool
  {
    PayableRunStops(v, low);
    PayableRunStops(v, high);
  }

  /** For a non-increasing vector with one entry per seat of the pool, the
      limit is the number of payable entries. */
  lemma LimitCountsPayableSeats(v: seq<real>, yld: real)
    requires NonIncreasing(v)
    ensures BookingLimit(v, |v| as real, yld) == Affordable(v, yld) as real
  {
    AboveComesFirst(v, yld);
    AffordableOrAbove(v, yld);
    var n := |v| - Above(v, yld);
    PayableRunIsUnique(v, yld, n);
  }

  // ---------------------------------------------------- pseudo bid prices

  /** The number of seats a (possibly negative or fractional) pool offers. */
  ghost function SeatsOf(pool: real): nat {
    if pool < 0.0 then 0 else pool.Floor
  }

  /** The whole seats within the pool, none when it is negative. */
  lemma SeatsOfIs(pool: real)
    ensures pool < 0.0 ==> SeatsOf(pool) == 0
    ensures pool >= 0.0 ==> SeatsOf(pool) as real <= pool < SeatsOf(pool) as real + 1.0
  {
  }

  /** The sum, over the legs, of the bid price r entries before the last. */
  ghost function SumFromEnd(vs: seq<seq<real>>, r: nat): real
    requires forall l :: 0 <= l < |vs| ==> r < |vs[l]|
  {
    if vs == [] then 0.0 else SumFromEnd(vs[..|vs| - 1], r) + vs[|vs| - 1][|vs[|vs| - 1]| - 1 - r]
  }

  ghost predicate LongEnough(vs: seq<seq<real>>, n: nat) {
    forall l :: 0 <= l < |vs| ==> n <= |vs[l]|
  }

  /** The right-aligned pointwise sum of the leg vectors, one entry per seat. */
  ghost function PseudoVector(vs: seq<seq<real>>, n: nat): (v: seq<real>)
    requires LongEnough(vs, n)
    ensures |v| == n
  {
    seq(n, i requires 0 <= i < n => SumFromEnd(vs, n - 1 - i))
  }

  lemma {:induction false} SumFromEndAdds(a: seq<seq<real>>, b: seq<seq<real>>, n: nat, r: nat)
    requires LongEnough(a, n) && LongEnough(b, n) && r < n
    ensures LongEnough(a + b, n) && SumFromEnd(a + b, r) == SumFromEnd(a, r) + SumFromEnd(b, r)
  {
    if b == [] {
      assert a + b == a;
    } else {
      var last := b[|b| - 1];
      assert (a + b)[..|a + b| - 1] == a + b[..|b| - 1] && (a + b)[|a + b| - 1] == last;
      SumFromEndAdds(a, b[..|b| - 1], n, r);
    }
  }

  /** The pseudo prices over the legs of two lists are the sums of those over each:
      with one leg giving the tail of its own vector, every entry is the sum of the
      bid prices of all legs. */
  lemma PseudoVectorAdds(a: seq<seq<real>>, b: seq<seq<real>>, n: nat)
    requires LongEnough(a, n) && LongEnough(b, n)
    ensures LongEnough(a + b, n)
    ensures forall i :: 0 <= i < n ==> PseudoVector(a + b, n)[i] == PseudoVector(a, n)[i] + PseudoVector(b, n)[i]
  {
    forall i | 0 <= i < n
      ensures PseudoVector(a + b, n)[i] == PseudoVector(a, n)[i] + PseudoVector(b, n)[i]
    {
      SumFromEndAdds(a, b, n, n - 1 - i);
    }
  }

  lemma {:induction false} SumFromEndGrows(vs: seq<seq<real>>, n: nat, r: nat, t: nat)
    requires LongEnough(vs, n) && r <= t < n
    requires forall l :: 0 <= l < |vs| ==> NonIncreasing(vs[l])
    ensures SumFromEnd(vs, r) <= SumFromEnd(vs, t)
  {
    if vs == [] {
    } else {
      SumFromEndGrows(vs[..|vs| - 1], n, r, t);
      var v := vs[|vs| - 1];
      assert v[|v| - 1 - t] >= v[|v| - 1 - r];
    }
  }

  /** The pseudo vector is non-increasing whenever every leg vector is. */
  lemma PseudoVectorNonIncreasing(vs: seq<seq<real>>, n: nat)
    requires LongEnough(vs, n)
    requires forall l :: 0 <= l < |vs| ==> NonIncreasing(vs[l])
    ensures NonIncreasing(PseudoVector(vs, n))
  {
    forall i, j | 0 <= i <= j < n
      ensures PseudoVector(vs, n)[i] >= PseudoVector(vs, n)[j]
    {
      SumFromEndGrows(vs, n, n - 1 - j, n - 1 - i);
    }
  }

  /** Over a single leg the pseudo vector is the tail of the leg's vector. */
  lemma PseudoVectorOfOneLeg(v: seq<real>, n: nat)
    requires n <= |v|
    ensures LongEnough([v], n) && PseudoVector([v], n) == v[|v| - n..]
  {
    forall i | 0 <= i < n
      ensures PseudoVector([v], n)[i] == v[|v| - n..][i]
    {
      assert [v][..0] == [];
      assert SumFromEnd([v], n - 1 - i) == 0.0 + v[|v| - 1 - (n - 1 - i)];
    }
  }

  /** A pseudo vector never has more entries than the pool has seats. */
  lemma PseudoVectorFits(vs: seq<seq<real>>, pool: real)
    requires LongEnough(vs, SeatsOf(pool))
    ensures FitsPool(PseudoVector(vs, SeatsOf(pool)), pool)
  {
  }
}
