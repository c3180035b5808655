/** Small shared definitions: an optional value, absolute value and
    the sum of a sequence of reals. */
module Basics {

  datatype Option<+T> = None | Some(value: T)

  /** std::abs on a real. */
  function Abs(x: real): (r: real)
    ensures r >= 0.0
    ensures r == x || r == -x
  {
    if x < 0.0 then -x else x
  }

  /** Sum of a sequence, accumulated from the left as `volume += vol` does. */
  function Sum(vs: seq<real>): real
  {
    if vs == [] then 0.0 else Sum(vs[..|vs| - 1]) + vs[|vs| - 1]
  }

  lemma SumAppend(vs: seq<real>, v: real)
    ensures Sum(vs + [v]) == Sum(vs) + v
  {
    assert (vs + [v])[..|vs|] == vs;
  }

  predicate NonNegative(vs: seq<real>)
  {
    forall k :: 0 <= k < |vs| ==> vs[k] >= 0.0
  }

  /** Every element of a sequence of non-negative reals is at most its sum. */
  lemma {:induction false} ElementAtMostSum(vs: seq<real>, k: nat)
    requires NonNegative(vs)
    requires k < |vs|
    ensures 0.0 <= vs[k] <= Sum(vs)
  {
    var n := |vs| - 1;
    assert NonNegative(vs[..n]);
    SumNonNegative(vs[..n]);
    if k < n {
      ElementAtMostSum(vs[..n], k);
    }
  }

  lemma {:induction false} SumNonNegative(vs: seq<real>)
    requires NonNegative(vs)
    ensures Sum(vs) >= 0.0
  {
    if vs != [] {
      assert NonNegative(vs[..|vs| - 1]);
      SumNonNegative(vs[..|vs| - 1]);
    }
  }
}
