/** Availability of the fare options of a travel solution: by authorization
    levels, by revenue availability exchange (RAE), and by interline bid price
    (IBP), plain and protective. */
module TravelSolutions {
  import opened BidPrices
  import opened Pools

  // --------------------------------------------------- bid prices of a segment

  ghost predicate NoneEmpty(vs: seq<seq<real>>) {
    forall i :: 0 <= i < |vs| ==> vs[i] != []
  }

  /** The sum of the current bid prices of some vectors. */
  ghost function SumOfCurrent(vs: seq<seq<real>>): real
    requires NoneEmpty(vs)
  {
    if vs == [] then 0.0
    else SumOfCurrent(vs[..|vs| - 1]) + vs[|vs| - 1][|vs[|vs| - 1]| - 1]
  }

  /** The vector offered for a segment before it is cut to the pool: that of its
      only leg, or the sum of its legs' current prices, if there is one below
      the value that stands for "no price". */
  ghost function OfferedVector(legs: seq<seq<real>>, noPrice: real): seq<real>
    requires legs != []
  {
    if |legs| == 1 then legs[0]
    else if NoneEmpty(legs) && SumOfCurrent(legs) < noPrice then [SumOfCurrent(legs)]
    else []
  }

  /** A vector cut to its first entries when the pool is smaller. */
  ghost function CutToPool(v: seq<real>, pool: real): seq<real>
    requires pool >= 0.0
  {
    if pool < |v| as real then v[..pool.Floor] else v
  }

  /** The bid-price vector of a segment-cabin for a travel solution. */
  method SegmentVector(legs: seq<seq<real>>, pool: real, noPrice: real) returns (v: seq<real>)
    requires legs != [] && pool >= 0.0
    ensures v == CutToPool(OfferedVector(legs, noPrice), pool)
  {
    v := [];
    if |legs| > 1 {
      var value := 0.0;
      var l := 0;
      while l < |legs|
        invariant 0 <= l <= |legs|
        invariant NoneEmpty(legs[..l]) && value == SumOfCurrent(legs[..l])
      {
        if legs[l] == [] {
          value := noPrice;
          break;
        }
        assert legs[..l + 1][..l] == legs[..l];
        value := value + legs[l][|legs[l]| - 1];
        l := l + 1;
      }
      assert legs[..|legs|] == legs;
      if value < noPrice {
        v := [value];
      }
    } else {
      v := legs[0];
    }
    if pool < |v| as real {
      v := v[..pool.Floor];
    }
  }

  // ------------------------------------------------------------ one segment

  /** Prices above the yield come before the payable ones: what the binary search
      needs of the vector. */
  ghost predicate Searchable(v: seq<real>, yld: real) {
    forall i, j :: 0 <= i < j < |v| && v[i] <= yld ==> v[j] <= yld
  }

  lemma NonIncreasingIsSearchable(v: seq<real>, yld: real)
    requires NonIncreasing(v)
    ensures Searchable(v, yld)
  {
  }

  method ReverseCopy(v: seq<real>) returns (r: array<real>)
    ensures fresh(r) && r.Length == |v|
    ensures forall i :: 0 <= i < |v| ==> r[i] == v[|v| - 1 - i]
  {
    r := new real[|v|];
    for i := 0 to |v|
      invariant forall k :: 0 <= k < i ==> r[k] == v[|v| - 1 - k]
    {
      r[i] := v[|v| - 1 - i];
    }
  }

  /** The position of the first entry above a value, by bisection. */
  method UpperBound(a: array<real>, x: real) returns (first: nat)
    requires forall i, j :: 0 <= i < j < a.Length && a[j] <= x ==> a[i] <= x
    ensures first <= a.Length
    ensures forall i :: 0 <= i < first ==> a[i] <= x
    ensures forall i :: first <= i < a.Length ==> a[i] > x
  {
    first := 0;
    var len := a.Length;
    while len > 0
      invariant 0 <= len && first + len <= a.Length
      invariant forall i :: 0 <= i < first ==> a[i] <= x
      invariant forall i :: first + len <= i < a.Length ==> a[i] > x
    {
      var half := len / 2;
      if x < a[first + half] {
        len := half;
      } else {
        first := first + half + 1;
        len := len - half - 1;
      }
    }
  }

  /** The seats of a segment a yield can pay for. */
  method SegmentAvailability(v: seq<real>, yld: real) returns (n: nat)
    requires Searchable(v, yld)
    ensures n == Affordable(v, yld)
  {
    var reversed := ReverseCopy(v);
    forall i, j | 0 <= i < j < reversed.Length && reversed[j] <= yld
      ensures reversed[i] <= yld
    {
      assert v[|v| - 1 - j] <= yld;
    }
    n := UpperBound(reversed, yld);
    forall i | 0 <= i < |v|
      ensures if i < |v| - n then v[i] > yld else v[i] <= yld
    {
      assert reversed[|v| - 1 - i] == v[i];
    }
    CountsOfSplit(v, yld, |v| - n);
  }

  // ----------------------------------------------------------- class paths

  /** The bid prices and the yield of one class of a class path. */
  datatype Quote = Quote(prices: seq<real>, yld: real)

  ghost predicate AllSearchable(qs: seq<Quote>) {
    forall t :: 0 <= t < |qs| ==> Searchable(qs[t].prices, qs[t].yld)
  }

  /** The least number of payable seats over the segments of a path. */
  ghost function LeastAffordable(qs: seq<Quote>): nat
    requires qs != []
  {
    var n := Affordable(qs[|qs| - 1].prices, qs[|qs| - 1].yld);
    if |qs| == 1 then n
    else
      var rest := LeastAffordable(qs[..|qs| - 1]);
      if n < rest then n else rest
  }

  lemma {:induction false} LeastAffordableIsTheMinimum(qs: seq<Quote>)
    requires qs != []
    ensures forall t :: 0 <= t < |qs| ==> LeastAffordable(qs) <= Affordable(qs[t].prices, qs[t].yld)
    ensures exists t :: 0 <= t < |qs| && LeastAffordable(qs) == Affordable(qs[t].prices, qs[t].yld)
  {
    if |qs| > 1 {
      var rest := qs[..|qs| - 1];
      LeastAffordableIsTheMinimum(rest);
      var t :| 0 <= t < |rest| && LeastAffordable(rest) == Affordable(rest[t].prices, rest[t].yld);
      var u := if Affordable(qs[|qs| - 1].prices, qs[|qs| - 1].yld) < LeastAffordable(rest) then |qs| - 1 else t;
      assert LeastAffordable(qs) == Affordable(qs[u].prices, qs[u].yld);
    } else {
      assert LeastAffordable(qs) == Affordable(qs[0].prices, qs[0].yld);
    }
  }

  ghost function Vectors(qs: seq<Quote>): (vs: seq<seq<real>>)
    ensures |vs| == |qs|
  {
    seq(|qs|, t requires 0 <= t < |qs| => qs[t].prices)
  }

  /** The total bid price: current prices added up, starting over from the value
      that stands for "no price" wherever a segment has none. */
  ghost function TotalBidPrice(qs: seq<Quote>, noPrice: real): real {
    if qs == [] then 0.0
    else if qs[|qs| - 1].prices == [] then noPrice
    else TotalBidPrice(qs[..|qs| - 1], noPrice) + qs[|qs| - 1].prices[|qs[|qs| - 1].prices| - 1]
  }

  /** The greatest current bid price, at least zero. */
  ghost function MaxBidPrice(qs: seq<Quote>): real {
    if qs == [] then 0.0
    else
      var rest := MaxBidPrice(qs[..|qs| - 1]);
      var v := qs[|qs| - 1].prices;
      if v != [] && rest < v[|v| - 1] then v[|v| - 1] else rest
  }

  ghost function Max(a: real, b: real): real {
    if a < b then b else a
  }

  /** The protective total. */
  ghost function ProtectivePrice(qs: seq<Quote>, noPrice: real): real {
    Max(Times(MaxBidPrice(qs), |qs|), TotalBidPrice(qs, noPrice))
  }

  function Times(a: real, n: nat): real {
    a * n as real
  }

  /** The availability of a path of several segments once the fare is compared
      with a total bid price. */
  ghost function PathAvailability(qs: seq<Quote>, fare: real, total: real): real
    requires qs != []
  {
    var available := if fare >= total then 1.0 else 0.0;
    if |qs| == 1 then LeastAffordable(qs) as real
    else if LeastAffordable(qs) > 0 then available * LeastAffordable(qs) as real
    else available
  }

  /** Seats, total and greatest bid price along a class path. */
  method Browse(qs: seq<Quote>, availability: real, noPrice: real)
      returns (seats: real, total: real, greatest: real)
    requires AllSearchable(qs)
    ensures seats == if qs == [] then availability else LeastAffordable(qs) as real
    ensures total == TotalBidPrice(qs, noPrice) && greatest == MaxBidPrice(qs)
  {
    seats, total, greatest := availability, 0.0, 0.0;
    for t := 0 to |qs|
      invariant seats == if t == 0 then availability else LeastAffordable(qs[..t]) as real
      invariant total == TotalBidPrice(qs[..t], noPrice) && greatest == MaxBidPrice(qs[..t])
    {
      assert qs[..t + 1][..t] == qs[..t];
      var v := qs[t].prices;
      AffordableOrAbove(v, qs[t].yld);
      if t == 0 {
        seats := |v| as real;
      }
      if seats > 0.0 {
        var n := SegmentAvailability(v, qs[t].yld);
        if n as real < seats {
          seats := n as real;
        }
      }
      if v != [] {
        total := total + v[|v| - 1];
        if greatest < v[|v| - 1] {
          greatest := v[|v| - 1];
        }
      } else {
        total := noPrice;
      }
    }
    assert qs[..|qs|] == qs;
  }

  // ---------------------------------------------------------- fare options

  datatype FareOption = FareOption(classPath: seq<string>, fare: real, availability: real)

  /** The class looked up for a segment: the first of its list. */
  function ClassCode(classes: string): string {
    if classes == "" then "" else classes[..1]
  }

  /** The availabilities of the classes of a path, over the segments for which
      both a class and a map are given. */
  ghost function PathAvailabilities(maps: seq<map<string, real>>, path: seq<string>): seq<real>
    requires forall t :: 0 <= t < |maps| && t < |path| ==> ClassCode(path[t]) in maps[t]
  {
    var n := if |maps| < |path| then |maps| else |path|;
    seq(n, t requires 0 <= t < n => maps[t][ClassCode(path[t])])
  }

  /** There is one yield map and one price map per segment of the path, and its
      class is in both. */
  ghost predicate Covered(path: seq<string>, yieldOf: seq<map<string, real>>, prices: seq<map<string, seq<real>>>) {
    && |path| == |yieldOf| == |prices|
    && forall t :: 0 <= t < |path| ==> ClassCode(path[t]) in yieldOf[t] && ClassCode(path[t]) in prices[t]
  }

  /** Looks up the class of every segment of a path. */
  function QuotesOf(path: seq<string>, yieldOf: seq<map<string, real>>, prices: seq<map<string, seq<real>>>):
      (qs: seq<Quote>)
    requires Covered(path, yieldOf, prices)
    ensures |qs| == |path|
  {
    if path == [] then []
    else
      [Quote(prices[0][ClassCode(path[0])], yieldOf[0][ClassCode(path[0])])]
      + QuotesOf(path[1..], yieldOf[1..], prices[1..])
  }

  class TravelSolution {
    var availabilityMaps: seq<map<string, real>>
    var yieldMaps: seq<map<string, real>>
    var priceMaps: seq<map<string, seq<real>>>
    var fareOptions: seq<FareOption>

    constructor (availabilityMaps: seq<map<string, real>>, yieldMaps: seq<map<string, real>>,
        priceMaps: seq<map<string, seq<real>>>, fareOptions: seq<FareOption>)
      ensures this.availabilityMaps == availabilityMaps && this.yieldMaps == yieldMaps
      ensures this.priceMaps == priceMaps && this.fareOptions == fareOptions
    {
      this.availabilityMaps, this.yieldMaps := availabilityMaps, yieldMaps;
      this.priceMaps, this.fareOptions := priceMaps, fareOptions;
    }

    /** Every class of the path has an availability on its segment. */
    ghost predicate HasAvailabilities(o: FareOption)
      reads this`availabilityMaps
    {
      && availabilityMaps != [] && o.classPath != []
      && forall t :: 0 <= t < |availabilityMaps| && t < |o.classPath| ==>
           o.classPath[t] != "" && ClassCode(o.classPath[t]) in availabilityMaps[t]
    }

    ghost predicate Quotable(o: FareOption)
      reads this`yieldMaps, this`priceMaps
    {
      Covered(o.classPath, yieldMaps, priceMaps)
    }

    function Quotes(o: FareOption): (qs: seq<Quote>)
      requires Quotable(o)
      reads this`yieldMaps, this`priceMaps
      ensures |qs| == |o.classPath|
    {
      QuotesOf(o.classPath, yieldMaps, priceMaps)
    }

    ghost predicate Ready(o: FareOption)
      reads this`yieldMaps, this`priceMaps
    {
      Quotable(o) && AllSearchable(Quotes(o))
    }

    /** The option with the least of its classes' availabilities. */
    ghost function ByAU(o: FareOption, maxAvailability: real): FareOption
      requires HasAvailabilities(o)
      reads this`availabilityMaps
    {
      o.(availability := Least(PathAvailabilities(availabilityMaps, o.classPath), maxAvailability))
    }

    /** The option with the least number of payable seats of its segments. */
    ghost function ByRAE(o: FareOption): FareOption
      requires Quotable(o)
      reads this`yieldMaps, this`priceMaps
    {
      if o.classPath == [] then o else o.(availability := LeastAffordable(Quotes(o)) as real)
    }

    /** The option after its fare is compared with the total bid price. */
    ghost function ByIBP(o: FareOption, noPrice: real): FareOption
      requires Quotable(o)
      reads this`yieldMaps, this`priceMaps
    {
      if o.classPath == [] then o
      else o.(availability := PathAvailability(Quotes(o), o.fare, TotalBidPrice(Quotes(o), noPrice)))
    }

    /** The option after its fare is compared with the protective total. */
    ghost function ByProtectiveIBP(o: FareOption, noPrice: real): FareOption
      requires Quotable(o)
      reads this`yieldMaps, this`priceMaps
    {
      if o.classPath == [] then o
      else o.(availability := PathAvailability(Quotes(o), o.fare, ProtectivePrice(Quotes(o), noPrice)))
    }

    method CalculateAvailabilityByAU(maxAvailability: real)
      requires forall i :: 0 <= i < |fareOptions| ==> HasAvailabilities(fareOptions[i])
      modifies this`fareOptions
      ensures |fareOptions| == |old(fareOptions)|
      ensures forall i :: 0 <= i < |fareOptions| ==>
        HasAvailabilities(old(fareOptions)[i]) && fareOptions[i] == ByAU(old(fareOptions)[i], maxAvailability)
    {
      ghost var before := fareOptions;
      for i := 0 to |fareOptions|
        invariant |fareOptions| == |before|
        invariant forall k :: i <= k < |before| ==> fareOptions[k] == before[k]
        invariant forall k :: 0 <= k < i ==> fareOptions[k] == ByAU(before[k], maxAvailability)
      {
        var o := fareOptions[i];
        var least := LeastAvailability(o, maxAvailability);
        fareOptions := fareOptions[i := o.(availability := least)];
      }
    }

    method LeastAvailability(o: FareOption, maxAvailability: real) returns (least: real)
      requires HasAvailabilities(o)
      ensures least == Least(PathAvailabilities(availabilityMaps, o.classPath), maxAvailability)
    {
      least := maxAvailability;
      ghost var all := PathAvailabilities(availabilityMaps, o.classPath);
      var t := 0;
      while t < |availabilityMaps| && t < |o.classPath|
        invariant 0 <= t <= |all|
        invariant least == Least(all[..t], maxAvailability)
      {
        assert all[..t + 1][..t] == all[..t];
        var current := availabilityMaps[t][ClassCode(o.classPath[t])];
        if least > current {
          least := current;
        }
        t := t + 1;
      }
      assert all[..|all|] == all;
    }

    method CalculateAvailabilityByRAE()
      requires forall i :: 0 <= i < |fareOptions| ==> Ready(fareOptions[i])
      modifies this`fareOptions
      ensures |fareOptions| == |old(fareOptions)|
      ensures forall i :: 0 <= i < |fareOptions| ==>
        Ready(old(fareOptions)[i]) && fareOptions[i] == ByRAE(old(fareOptions)[i])
    {
      ghost var before := fareOptions;
      for i := 0 to |fareOptions|
        invariant |fareOptions| == |before|
        invariant forall k :: i <= k < |before| ==> fareOptions[k] == before[k]
        invariant forall k :: 0 <= k < i ==> fareOptions[k] == ByRAE(before[k])
      {
        var o := fareOptions[i];
        var seats, total, greatest := Browse(Quotes(o), o.availability, 0.0);
        fareOptions := fareOptions[i := o.(availability := seats)];
      }
    }

    method PriceByIBP(o: FareOption, noPrice: real) returns (r: FareOption)
      requires Ready(o)
      ensures r == ByIBP(o, noPrice)
    {
      var seats, total, greatest := Browse(Quotes(o), o.availability, noPrice);
      if |o.classPath| > 1 {
        seats := CompareFare(seats, o.fare, total);
      }
      r := o.(availability := seats);
    }

    method PriceByProtectiveIBP(o: FareOption, noPrice: real) returns (r: FareOption)
      requires Ready(o)
      ensures r == ByProtectiveIBP(o, noPrice)
    {
      var seats, total, greatest := Browse(Quotes(o), o.availability, noPrice);
      var protective := Times(greatest, |o.classPath|);
      if protective < total {
        protective := total;
      }
      if |o.classPath| > 1 {
        seats := CompareFare(seats, o.fare, protective);
      }
      r := o.(availability := seats);
    }

    method CalculateAvailabilityByIBP(noPrice: real)
      requires forall i :: 0 <= i < |fareOptions| ==> Ready(fareOptions[i])
      modifies this`fareOptions
      ensures |fareOptions| == |old(fareOptions)|
      ensures forall i :: 0 <= i < |fareOptions| ==>
        Ready(old(fareOptions)[i]) && fareOptions[i] == ByIBP(old(fareOptions)[i], noPrice)
    {
      ghost var before := fareOptions;
      for i := 0 to |fareOptions|
        invariant |fareOptions| == |before|
        invariant forall k :: i <= k < |before| ==> fareOptions[k] == before[k]
        invariant forall k :: 0 <= k < i ==> fareOptions[k] == ByIBP(before[k], noPrice)
      {
        var o := PriceByIBP(fareOptions[i], noPrice);
        fareOptions := fareOptions[i := o];
      }
    }

    method CalculateAvailabilityByProtectiveIBP(noPrice: real)
      requires forall i :: 0 <= i < |fareOptions| ==> Ready(fareOptions[i])
      modifies this`fareOptions
      ensures |fareOptions| == |old(fareOptions)|
      ensures forall i :: 0 <= i < |fareOptions| ==>
        Ready(old(fareOptions)[i]) && fareOptions[i] == ByProtectiveIBP(old(fareOptions)[i], noPrice)
    {
      ghost var before := fareOptions;
      for i := 0 to |fareOptions|
        invariant |fareOptions| == |before|
        invariant forall k :: i <= k < |before| ==> fareOptions[k] == before[k]
        invariant forall k :: 0 <= k < i ==> fareOptions[k] == ByProtectiveIBP(before[k], noPrice)
      {
        var o := PriceByProtectiveIBP(fareOptions[i], noPrice);
        fareOptions := fareOptions[i := o];
      }
    }
  }

  /** Multi-segment control: keeps the seats, or opens one where there is none,
      when the fare reaches the total; closes otherwise. */
  method CompareFare(seats: real, fare: real, total: real) returns (availability: real)
    ensures availability == (if fare >= total then 1.0 else 0.0) * (if seats > 0.0 then seats else 1.0)
  {
    var alpha := 1.0;
    var available := if alpha * fare >= total then 1.0 else 0.0;
    if seats > 0.0 {
      availability := available * seats;
    } else {
      availability := available;
    }
  }

  // --------------------------------------------------------------- main results

  /** RAE on a single-leg segment with a non-increasing vector: the seats of the
      pool, or of the vector if it has fewer, less those priced above the yield. */
  lemma RaeOnOneLeg(v: seq<real>, pool: real, yld: real, noPrice: real)
    requires NonIncreasing(v) && pool >= 0.0
    ensures Searchable(CutToPool(OfferedVector([v], noPrice), pool), yld)
    ensures var seats := if pool.Floor < |v| then pool.Floor else |v|;
            LeastAffordable([Quote(CutToPool(OfferedVector([v], noPrice), pool), yld)])
            == if seats <= Above(v, yld) then 0 else seats - Above(v, yld)
  {
    var seats := if pool.Floor < |v| then pool.Floor else |v|;
    assert v[..|v|] == v;
    assert CutToPool(v, pool) == v[..seats];
    TailNonIncreasing(v, seats);
    NonIncreasingIsSearchable(v[..seats], yld);
    AffordableAfterCut(v, yld, seats);
  }

  /** RAE keeps the first prices of a leg's vector within the pool, and the
      authorization-level path the last ones.  So RAE never offers more than the
      cumulative booking limit, and as much exactly when the pool takes the whole
      vector or nothing of it, or the yield pays all prices or none. */
  lemma RaeAgreesWithTheLimitIff(v: seq<real>, n: nat, yld: real, noPrice: real)
    requires NonIncreasing(v) && n <= |v|
    ensures LongEnough([v], SeatsOf(n as real))
    ensures var rae := LeastAffordable([Quote(CutToPool(OfferedVector([v], noPrice), n as real), yld)]);
            var limit := BookingLimit(PseudoVector([v], SeatsOf(n as real)), n as real, yld);
            && rae as real <= limit
            && (rae as real == limit <==> n == |v| || n == 0 || Above(v, yld) == 0 || Above(v, yld) == |v|)
  {
    RaeOnOneLeg(v, n as real, yld, noPrice);
    assert SeatsOf(n as real) == n;
    PseudoVectorOfOneLeg(v, n);
    TailNonIncreasing(v, n);
    LimitCountsPayableSeats(v[|v| - n..], yld);
    AffordableInTail(v, yld, n);
    AboveComesFirst(v, yld);
  }

  ghost predicate NonNegativePrices(qs: seq<Quote>) {
    forall t, i :: 0 <= t < |qs| && 0 <= i < |qs[t].prices| ==> qs[t].prices[i] >= 0.0
  }

  /** Every segment of the path has a bid price. */
  ghost predicate AllPriced(qs: seq<Quote>) {
    forall t :: 0 <= t < |qs| ==> qs[t].prices != []
  }

  ghost function Current(q: Quote): real
    requires q.prices != []
  {
    q.prices[|q.prices| - 1]
  }

  /** The total is the plain sum of the current prices when all segments have
      one, and out of reach otherwise. */
  lemma {:induction false} TotalIsTheSum(qs: seq<Quote>, noPrice: real)
    requires NonNegativePrices(qs) && noPrice >= 0.0
    ensures AllPriced(qs) ==> NoneEmpty(Vectors(qs)) && TotalBidPrice(qs, noPrice) == SumOfCurrent(Vectors(qs))
    ensures !AllPriced(qs) ==> TotalBidPrice(qs, noPrice) >= noPrice
    ensures TotalBidPrice(qs, noPrice) >= 0.0
  {
    if qs != [] {
      var rest := qs[..|qs| - 1];
      assert forall t, i :: 0 <= t < |rest| && 0 <= i < |rest[t].prices| ==> rest[t].prices[i] == qs[t].prices[i];
      TotalIsTheSum(rest, noPrice);
      assert Vectors(qs)[..|qs| - 1] == Vectors(rest);
      if AllPriced(qs) {
        assert AllPriced(rest);
      } else if AllPriced(rest) {
        assert qs[|qs| - 1].prices == [];
      }
    }
  }

  /** Under plain IBP a path of several segments is available exactly when every
      segment has a bid price and the fare covers their sum. */
  lemma IbpComparesFareWithSum(qs: seq<Quote>, fare: real, noPrice: real)
    requires |qs| > 1 && NonNegativePrices(qs) && 0.0 <= noPrice && fare < noPrice
    ensures AllPriced(qs) ==> NoneEmpty(Vectors(qs))
    ensures PathAvailability(qs, fare, TotalBidPrice(qs, noPrice)) > 0.0 <==>
            AllPriced(qs) && fare >= SumOfCurrent(Vectors(qs))
  {
    TotalIsTheSum(qs, noPrice);
    FareDecides(qs, fare, TotalBidPrice(qs, noPrice));
  }

  lemma FareDecides(qs: seq<Quote>, fare: real, total: real)
    requires |qs| > 1
    ensures PathAvailability(qs, fare, total) > 0.0 <==> fare >= total
    ensures PathAvailability(qs, fare, total) == if fare >= total then Max(1.0, LeastAffordable(qs) as real) else 0.0
  {
  }

  /** The greatest current price bounds every current price, and is one of them
      or zero. */
  lemma {:induction false} MaxBidPriceBounds(qs: seq<Quote>)
    ensures MaxBidPrice(qs) >= 0.0
    ensures forall t :: 0 <= t < |qs| && qs[t].prices != [] ==> Current(qs[t]) <= MaxBidPrice(qs)
    ensures MaxBidPrice(qs) == 0.0
         || exists t :: 0 <= t < |qs| && qs[t].prices != [] && Current(qs[t]) == MaxBidPrice(qs)
  {
    if qs != [] {
      var rest := qs[..|qs| - 1];
      MaxBidPriceBounds(rest);
      if MaxBidPrice(qs) != 0.0 {
        if MaxBidPrice(qs) == MaxBidPrice(rest) {
          var t :| 0 <= t < |rest| && rest[t].prices != [] && Current(rest[t]) == MaxBidPrice(rest);
          assert qs[t] == rest[t];
        } else {
          assert Current(qs[|qs| - 1]) == MaxBidPrice(qs);
        }
      }
    }
  }

  /** A multiple as a repeated sum. */
  lemma TimesOneMore(a: real, n: nat)
    ensures Times(a, 0) == 0.0 && Times(a, n + 1) == Times(a, n) + a
  {
  }

  lemma TimesGrows(a: real, b: real, n: nat)
    requires a <= b
    ensures Times(a, n) <= Times(b, n)
  {
  }

  lemma {:induction false} SumIsWithinMax(qs: seq<Quote>, noPrice: real, bound: real)
    requires AllPriced(qs) && forall t :: 0 <= t < |qs| ==> Current(qs[t]) <= bound
    ensures TotalBidPrice(qs, noPrice) <= Times(bound, |qs|)
  {
    if qs == [] {
    } else {
      SumIsWithinMax(qs[..|qs| - 1], noPrice, bound);
      TimesOneMore(bound, |qs| - 1);
      assert Current(qs[|qs| - 1]) <= bound;
    }
  }

  /** When all segments have a bid price, the protective total is the number of
      segments times the greatest current price. */
  lemma ProtectivePriceIsTheScaledMax(qs: seq<Quote>, noPrice: real)
    requires AllPriced(qs)
    ensures ProtectivePrice(qs, noPrice) == Times(MaxBidPrice(qs), |qs|)
  {
    MaxBidPriceBounds(qs);
    SumIsWithinMax(qs, noPrice, MaxBidPrice(qs));
  }

  /** Under protective IBP a path of several segments is available exactly when
      every segment has a bid price and an equal share of the fare covers each
      of them: no partner earns less than its bid price. */
  lemma ProtectiveIbpCoversEveryShare(qs: seq<Quote>, fare: real, noPrice: real)
    requires |qs| > 1 && NonNegativePrices(qs) && 0.0 <= noPrice && fare < noPrice
    ensures PathAvailability(qs, fare, ProtectivePrice(qs, noPrice)) > 0.0 <==>
            AllPriced(qs) && forall t :: 0 <= t < |qs| ==> fare >= Times(Current(qs[t]), |qs|)
  {
    FareDecides(qs, fare, ProtectivePrice(qs, noPrice));
    TotalIsTheSum(qs, noPrice);
    if AllPriced(qs) {
      ProtectivePriceIsTheScaledMax(qs, noPrice);
      MaxBidPriceBounds(qs);
      forall t | 0 <= t < |qs|
        ensures Times(Current(qs[t]), |qs|) <= Times(MaxBidPrice(qs), |qs|)
      {
        TimesGrows(Current(qs[t]), MaxBidPrice(qs), |qs|);
      }
    }
  }

  /** Protective IBP never offers more than plain IBP. */
  lemma ProtectiveIsStricter(qs: seq<Quote>, fare: real, noPrice: real)
    requires qs != []
    ensures PathAvailability(qs, fare, ProtectivePrice(qs, noPrice))
         <= PathAvailability(qs, fare, TotalBidPrice(qs, noPrice))
  {
    if |qs| > 1 {
      FareDecides(qs, fare, ProtectivePrice(qs, noPrice));
      FareDecides(qs, fare, TotalBidPrice(qs, noPrice));
    }
  }

  /** Two segments with one bid price of 5 each and a class of yield 1: RAE finds no
      seat on either, and a fare of 10 opens one seat all the same. */
  lemma ClosedPathOpened(noPrice: real)
    ensures var q := Quote([5.0], 1.0);
            && LeastAffordable([q, q]) == 0
            && TotalBidPrice([q, q], noPrice) == 10.0
            && PathAvailability([q, q], 10.0, TotalBidPrice([q, q], noPrice)) == 1.0
  {
    var q := Quote([5.0], 1.0);
    assert [q, q][..1] == [q] && [q][..0] == [];
    assert Affordable([5.0], 1.0) == 0 + Affordable([5.0][1..], 1.0);
    assert LeastAffordable([q]) == 0;
    assert TotalBidPrice([q], noPrice) == TotalBidPrice([], noPrice) + 5.0;
  }

  /** The multi-segment control raises the availability above that of RAE
      exactly when RAE finds no seat and the fare reaches the total: one seat is
      then offered on a path that has none. */
  lemma ControlOpensClosedPaths(qs: seq<Quote>, fare: real, total: real)
    requires |qs| > 1
    ensures PathAvailability(qs, fare, total) > LeastAffordable(qs) as real
       <==> LeastAffordable(qs) == 0 && fare >= total
    ensures LeastAffordable(qs) == 0 && fare >= total ==> PathAvailability(qs, fare, total) == 1.0
  {
    FareDecides(qs, fare, total);
  }

  // ------------------------------------------------------- sums of current prices

  /** The sum of the current prices of one vector is its last price, and those of
      two lists of vectors add up. */
  lemma {:induction false} CurrentPricesAddUp(a: seq<seq<real>>, b: seq<seq<real>>)
    requires NoneEmpty(a) && NoneEmpty(b)
    ensures NoneEmpty(a + b) && SumOfCurrent(a + b) == SumOfCurrent(a) + SumOfCurrent(b)
    ensures |b| == 1 ==> SumOfCurrent(b) == b[0][|b[0]| - 1]
    decreases |b|
  {
    if b == [] {
      assert a + b == a;
    } else {
      var rest := b[..|b| - 1];
      CurrentPricesAddUp(a, rest);
      assert (a + b)[..|a + b| - 1] == a + rest;
    }
  }

  /** The total starts over at the last segment without a price: from there on it
      is the value that stands for "no price" and the current prices that follow. */
  lemma {:induction false} TotalStartsOver(before: seq<Quote>, q: Quote, priced: seq<Quote>, noPrice: real)
    requires q.prices == [] && AllPriced(priced)
    ensures TotalBidPrice(before + [q] + priced, noPrice) == noPrice + TotalBidPrice(priced, noPrice)
    ensures NoneEmpty(Vectors(priced)) && TotalBidPrice(priced, noPrice) == SumOfCurrent(Vectors(priced))
    decreases |priced|
  {
    var qs := before + [q] + priced;
    if priced == [] {
      assert qs[|qs| - 1] == q;
    } else {
      var rest := priced[..|priced| - 1];
      TotalStartsOver(before, q, rest, noPrice);
      assert qs[..|qs| - 1] == before + [q] + rest;
      assert Vectors(priced)[..|priced| - 1] == Vectors(rest);
    }
  }

  /** RAE on a segment of several legs offers one seat at most: when every leg has
      a price, a seat is left in the pool, and the yield covers the sum of the legs'
      last prices. */
  lemma RaeOnSeveralLegs(legs: seq<seq<real>>, pool: real, yld: real, noPrice: real)
    requires |legs| > 1 && pool >= 0.0
    ensures var seats := Affordable(CutToPool(OfferedVector(legs, noPrice), pool), yld);
            if exists l :: 0 <= l < |legs| && legs[l] == [] then seats == 0
            else
              var price := SumOfCurrent(legs);
              seats == if price < noPrice && price <= yld && pool >= 1.0 then 1 else 0
  {
    var v := OfferedVector(legs, noPrice);
    assert v == [] || v == [SumOfCurrent(legs)];
    if v != [] {
      assert Affordable(v, yld) == (if v[0] <= yld then 1 else 0) + Affordable(v[1..], yld);
    }
  }

  // ---------------------------------------------- options over the maps of a solution

  /** AU: the least of the maximum and of the availabilities of the path's classes,
      as far as both lists go, each read under the first class of its list. */
  lemma AuIsTheLeastOverMaps(sol: TravelSolution, o: FareOption, maxAvailability: real)
    requires sol.HasAvailabilities(o)
    ensures var maps, path, a := sol.availabilityMaps, o.classPath, sol.ByAU(o, maxAvailability).availability;
            && sol.ByAU(o, maxAvailability) == o.(availability := a)
            && (forall t :: 0 <= t < |maps| && t < |path| ==> path[t][..1] in maps[t] && a <= maps[t][path[t][..1]])
            && a <= maxAvailability
            && (a == maxAvailability
                || exists t :: 0 <= t < |maps| && t < |path| && path[t][..1] in maps[t] && a == maps[t][path[t][..1]])
  {
    var maps, path := sol.availabilityMaps, o.classPath;
    var all := PathAvailabilities(maps, path);
    LeastIsTheMinimum(all, maxAvailability);
    forall t | 0 <= t < |maps| && t < |path|
      ensures path[t][..1] in maps[t] && t < |all| && all[t] == maps[t][path[t][..1]]
    {
      assert path[t] != "" && ClassCode(path[t]) in maps[t];
    }
    if i :| 0 <= i < |all| && Least(all, maxAvailability) == all[i] {
      assert path[i][..1] in maps[i] && all[i] == maps[i][path[i][..1]];
    }
  }

  lemma {:induction false} QuoteAt(path: seq<string>, yieldOf: seq<map<string, real>>,
      prices: seq<map<string, seq<real>>>, t: nat)
    requires Covered(path, yieldOf, prices) && t < |path|
    ensures var key := if path[t] == "" then "" else path[t][..1];
            && key in yieldOf[t] && key in prices[t]
            && QuotesOf(path, yieldOf, prices)[t] == Quote(prices[t][key], yieldOf[t][key])
  {
    if t == 0 {
      assert ClassCode(path[0]) in yieldOf[0] && ClassCode(path[0]) in prices[0];
    } else {
      QuoteAt(path[1..], yieldOf[1..], prices[1..], t - 1);
    }
  }

  /** RAE: the least number of payable seats over the segments, each read under the
      first class of its list (the empty code for an empty list). */
  lemma RaeIsTheLeastOverMaps(sol: TravelSolution, o: FareOption)
    requires sol.Quotable(o) && o.classPath != []
    ensures var path, prices, ylds, a := o.classPath, sol.priceMaps, sol.yieldMaps, sol.ByRAE(o).availability;
            && |prices| == |ylds| == |path|
            && sol.ByRAE(o) == o.(availability := a)
            && (forall t :: 0 <= t < |path| ==>
                  var key := if path[t] == "" then "" else path[t][..1];
                  key in prices[t] && key in ylds[t] && a <= Affordable(prices[t][key], ylds[t][key]) as real)
            && exists t :: 0 <= t < |path| &&
                 var key := if path[t] == "" then "" else path[t][..1];
                 key in prices[t] && key in ylds[t] && a == Affordable(prices[t][key], ylds[t][key]) as real
  {
    var path, prices, ylds, qs := o.classPath, sol.priceMaps, sol.yieldMaps, sol.Quotes(o);
    LeastAffordableIsTheMinimum(qs);
    forall t | 0 <= t < |path|
      ensures var key := if path[t] == "" then "" else path[t][..1];
              key in prices[t] && key in ylds[t] && qs[t] == Quote(prices[t][key], ylds[t][key])
    {
      QuoteAt(path, ylds, prices, t);
    }
    var u :| 0 <= u < |qs| && LeastAffordable(qs) == Affordable(qs[u].prices, qs[u].yld);
    assert path[u] == path[u];
  }

  /** The vectors are those of the path's classes, and hold no negative price. */
  ghost predicate PricesOf(sol: TravelSolution, o: FareOption, vs: seq<seq<real>>)
    requires sol.Quotable(o)
    reads sol
  {
    && |vs| == |o.classPath|
    && forall t :: 0 <= t < |vs| ==>
         var key := if o.classPath[t] == "" then "" else o.classPath[t][..1];
         vs[t] == sol.priceMaps[t][key] && forall i :: 0 <= i < |vs[t]| ==> vs[t][i] >= 0.0
  }

  lemma PricesAreQuoted(sol: TravelSolution, o: FareOption, vs: seq<seq<real>>)
    requires sol.Quotable(o) && PricesOf(sol, o, vs)
    ensures Vectors(sol.Quotes(o)) == vs && NonNegativePrices(sol.Quotes(o))
    ensures AllPriced(sol.Quotes(o)) <==> forall t :: 0 <= t < |vs| ==> vs[t] != []
  {
    var qs := sol.Quotes(o);
    forall t | 0 <= t < |vs|
      ensures qs[t].prices == vs[t]
    {
      QuoteAt(o.classPath, sol.yieldMaps, sol.priceMaps, t);
    }
  }

  /** Plain IBP on several segments: open exactly when every class has a price and
      the fare covers the sum of the last ones; then the seats of RAE, or one. */
  lemma IbpOverMaps(sol: TravelSolution, o: FareOption, noPrice: real, vs: seq<seq<real>>)
    requires sol.Quotable(o) && PricesOf(sol, o, vs)
    requires |o.classPath| > 1 && 0.0 <= noPrice && o.fare < noPrice
    ensures var rae := sol.ByRAE(o).availability;
            var open := (forall t :: 0 <= t < |vs| ==> vs[t] != []) && o.fare >= SumOfCurrent(vs);
            sol.ByIBP(o, noPrice) == o.(availability := if !open then 0.0 else if rae > 1.0 then rae else 1.0)
  {
    var qs := sol.Quotes(o);
    PricesAreQuoted(sol, o, vs);
    TotalIsTheSum(qs, noPrice);
    FareDecides(qs, o.fare, TotalBidPrice(qs, noPrice));
  }

  /** Protective IBP on several segments: open exactly when every class has a price
      and the fare covers the number of segments times each of the last ones. */
  lemma ProtectiveIbpOverMaps(sol: TravelSolution, o: FareOption, noPrice: real, vs: seq<seq<real>>)
    requires sol.Quotable(o) && PricesOf(sol, o, vs)
    requires |o.classPath| > 1 && 0.0 <= noPrice && o.fare < noPrice
    ensures var rae := sol.ByRAE(o).availability;
            var open := forall t :: 0 <= t < |vs| ==>
              vs[t] != [] && o.fare >= Times(vs[t][|vs[t]| - 1], |o.classPath|);
            sol.ByProtectiveIBP(o, noPrice)
            == o.(availability := if !open then 0.0 else if rae > 1.0 then rae else 1.0)
  {
    var qs := sol.Quotes(o);
    PricesAreQuoted(sol, o, vs);
    assert forall t :: 0 <= t < |vs| && vs[t] != [] ==> Current(qs[t]) == vs[t][|vs[t]| - 1];
    ProtectiveIbpCoversEveryShare(qs, o.fare, noPrice);
    FareDecides(qs, o.fare, ProtectivePrice(qs, noPrice));
  }

  /** On one segment both IBP methods do what RAE does, and no segment leaves the
      option alone. */
  lemma FewSegmentsAreNotControlled(sol: TravelSolution, o: FareOption, noPrice: real)
    requires sol.Quotable(o) && |o.classPath| <= 1
    ensures sol.ByIBP(o, noPrice) == sol.ByProtectiveIBP(o, noPrice) == sol.ByRAE(o)
    ensures o.classPath == [] ==> sol.ByRAE(o) == o
  {
  }
}
