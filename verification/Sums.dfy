/** Sums of real numbers. */
module Sums {

  function SumReal(s: seq<real>): real {
    if s == [] then 0.0 else s[0] + SumReal(s[1..])
  }

  lemma {:induction false} SumRealUpdate(s: seq<real>, i: nat, v: real)
    requires i < |s|
    ensures SumReal(s[i := v]) == SumReal(s) - s[i] + v
  {
    if i == 0 {
      assert s[0 := v][1..] == s[1..];
    } else {
      SumRealUpdate(s[1..], i - 1, v);
      assert s[i := v][1..] == s[1..][i - 1 := v];
    }
  }

  lemma {:induction false} SumRealOfZeros(s: seq<real>)
    requires forall i :: 0 <= i < |s| ==> s[i] == 0.0
    ensures SumReal(s) == 0.0
  {
    if s != [] { SumRealOfZeros(s[1..]); }
  }

  lemma {:induction false} SumRealLast(s: seq<real>, v: real)
    ensures SumReal(s + [v]) == SumReal(s) + v
  {
    if s != [] {
      assert (s + [v])[1..] == s[1..] + [v];
      SumRealLast(s[1..], v);
    }
  }

  lemma {:induction false} SumRealAtMost(s: seq<real>)
    requires forall i :: 0 <= i < |s| ==> s[i] <= 1.0
    ensures SumReal(s) <= |s| as real
  {
    if s != [] { SumRealAtMost(s[1..]); }
  }

  lemma {:induction false} SumRealMonotone(a: seq<real>, b: seq<real>)
    requires |a| == |b| && forall q :: 0 <= q < |a| ==> a[q] <= b[q]
    ensures SumReal(a) <= SumReal(b)
    ensures SumReal(a) == SumReal(b) <==> a == b
  {
    if a != [] {
      SumRealMonotone(a[1..], b[1..]);
      assert a == [a[0]] + a[1..] && b == [b[0]] + b[1..];
    }
  }
}
