/** 64-bit words, a fact about products, and sums over the members of a sequence. */
module Arithmetic {
  const U64: nat := 0x1_0000_0000_0000_0000
  const U64_MAX: nat := U64 - 1

  /** The result of unsigned 64-bit arithmetic in a release build. */
  function Wrap(x: nat): (r: nat)
    ensures r <= x && r < U64 && (x < U64 ==> r == x)
  {
    x % U64
  }

  lemma MulMonotone(k: nat, x: int, y: int)
    requires x <= y
    ensures k * x <= k * y
  {
  }

  ghost function Sum<T>(ts: seq<T>, f: T -> nat): nat {
    if ts == [] then 0 else f(ts[0]) + Sum(ts[1..], f)
  }

  lemma {:induction false} SumUpdate<T>(ts: seq<T>, i: nat, t: T, f: T -> nat)
    requires i < |ts|
    ensures Sum(ts[i := t], f) + f(ts[i]) == Sum(ts, f) + f(t)
  {
    if i == 0 {
      assert ts[0 := t][1..] == ts[1..];
    } else {
      assert ts[i := t][1..] == ts[1..][i - 1 := t];
      SumUpdate(ts[1..], i - 1, t, f);
    }
  }

  lemma {:induction false} SumZero<T>(ts: seq<T>, f: T -> nat)
    requires forall t :: t in ts ==> f(t) == 0
    ensures Sum(ts, f) == 0
  {
    if ts == [] {
    } else {
      assert ts[0] in ts;
      SumZero(ts[1..], f);
    }
  }
}
