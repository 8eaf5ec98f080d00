/** The least of some numbers under a ceiling: how capacities and availability
    pools of legs combine into those of a segment. */
module Pools {

  ghost function Least(xs: seq<real>, ceiling: real): real {
    if xs == [] then ceiling
    else
      var rest := Least(xs[..|xs| - 1], ceiling);
      if rest > xs[|xs| - 1] then xs[|xs| - 1] else rest
  }

  /** Least is the minimum of the numbers and the ceiling. */
  lemma {:induction false} LeastIsTheMinimum(xs: seq<real>, ceiling: real)
    ensures Least(xs, ceiling) <= ceiling
    ensures forall i :: 0 <= i < |xs| ==> Least(xs, ceiling) <= xs[i]
    ensures Least(xs, ceiling) == ceiling || exists i :: 0 <= i < |xs| && Least(xs, ceiling) == xs[i]
  {
    if xs == [] {
    } else {
      LeastIsTheMinimum(xs[..|xs| - 1], ceiling);
      if Least(xs, ceiling) != ceiling && Least(xs, ceiling) != xs[|xs| - 1] {
        var i :| 0 <= i < |xs| - 1 && Least(xs, ceiling) == xs[..|xs| - 1][i];
        assert Least(xs, ceiling) == xs[i];
      }
    }
  }
}
