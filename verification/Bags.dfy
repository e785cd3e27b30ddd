/** Bags of scores that a query collects from the buckets it visits. */
module Bags {
  import opened Basics
  import opened TopK

  /** What query `q` finds in bucket `b`. */
  type Findings<T> = (nat, nat) -> multiset<T>

  ghost function Copies<T>(n: nat, m: multiset<T>): multiset<T> {
    if n == 0 then multiset{} else Copies(n - 1, m) + m
  }

  lemma {:induction false} CopiesAre<T>(n: nat, m: multiset<T>, x: T)
    ensures Copies(n, m)[x] == n * m[x]
  {
    if n > 0 {
      CopiesAre(n - 1, m, x);
      assert n * m[x] == (n - 1) * m[x] + m[x];
    }
  }

  /** Everything query `q` finds in the buckets of `log`. */
  ghost function Total<T>(c: Findings<T>, q: nat, log: seq<nat>): multiset<T> {
    if log == [] then multiset{}
    else Total(c, q, log[..|log| - 1]) + c(q, log[|log| - 1])
  }

  lemma TotalAppend<T>(c: Findings<T>, q: nat, log: seq<nat>, b: nat)
    ensures Total(c, q, log + [b]) == Total(c, q, log) + c(q, b)
  {
    assert (log + [b])[..|log|] == log;
  }

  lemma {:induction false} TotalConcat(c: Findings<real>, q: nat, xs: seq<nat>, ys: seq<nat>)
    ensures Total(c, q, xs + ys) == Total(c, q, xs) + Total(c, q, ys)
  {
    if ys == [] {
      assert xs + ys == xs;
    } else {
      var last := |ys| - 1;
      TotalConcat(c, q, xs, ys[..last]);
      assert (xs + ys)[..|xs| + last] == xs + ys[..last];
    }
  }

  lemma TotalRemove(c: Findings<real>, q: nat, xs: seq<nat>, i: nat)
    requires i < |xs|
    ensures Total(c, q, xs) == Total(c, q, xs[..i] + xs[i + 1..]) + c(q, xs[i])
  {
    assert xs == (xs[..i] + [xs[i]]) + xs[i + 1..];
    TotalConcat(c, q, xs[..i] + [xs[i]], xs[i + 1..]);
    TotalAppend(c, q, xs[..i], xs[i]);
    TotalConcat(c, q, xs[..i], xs[i + 1..]);
  }

  /** The order of the buckets does not matter. */
  lemma {:induction false} TotalPermuted(c: Findings<real>, q: nat, xs: seq<nat>, ys: seq<nat>)
    requires multiset(xs) == multiset(ys)
    ensures Total(c, q, xs) == Total(c, q, ys)
  {
    if xs == [] {
      assert |multiset(ys)| == |ys|;
    } else {
      var last := |xs| - 1;
      var x := xs[last];
      assert x in multiset(ys);
      var i :| 0 <= i < |ys| && ys[i] == x;
      RemoveAt(xs, last);
      RemoveAt(ys, i);
      assert xs[..last] + xs[last + 1..] == xs[..last];
      TotalPermuted(c, q, xs[..last], ys[..i] + ys[i + 1..]);
      TotalRemove(c, q, ys, i);
    }
  }

  /** Adding one more bucket to a heap that holds the best of a log. */
  lemma AddToLog(k: nat, c: Findings<real>, q: nat, log: seq<nat>, b: nat)
    ensures Best(k, multiset(Best(k, Total(c, q, log))) + c(q, b)) == Best(k, Total(c, q, log + [b]))
  {
    TotalAppend(c, q, log, b);
    MergeAbsorbs(k, Total(c, q, log), c(q, b));
  }

  /** No heap of size `k` can tell the two bags apart, whatever else it collects. */
  ghost predicate Equivalent(k: nat, a: multiset<real>, b: multiset<real>) {
    forall x: multiset<real> :: Best(k, a + x) == Best(k, b + x)
  }

  lemma TruncatedEquivalent(k: nat, a: multiset<real>)
    ensures Equivalent(k, multiset(Best(k, a)), a)
  {
    forall x: multiset<real> { MergeAbsorbs(k, a, x); }
  }

  lemma SumEquivalent(k: nat, a: multiset<real>, b: multiset<real>, c: multiset<real>, d: multiset<real>)
    requires Equivalent(k, a, b) && Equivalent(k, c, d)
    ensures Equivalent(k, a + c, b + d)
  {
    forall x: multiset<real> ensures Best(k, (a + c) + x) == Best(k, (b + d) + x) {
      assert (a + c) + x == a + (c + x);
      assert b + (c + x) == c + (b + x);
      assert d + (b + x) == (b + d) + x;
    }
  }

  lemma {:induction false} CopiesEquivalent(k: nat, n: nat, a: multiset<real>, b: multiset<real>)
    requires Equivalent(k, a, b)
    ensures Equivalent(k, Copies(n, a), Copies(n, b))
  {
    if n > 0 {
      CopiesEquivalent(k, n - 1, a, b);
      SumEquivalent(k, Copies(n - 1, a), Copies(n - 1, b), a, b);
    }
  }

  lemma {:induction false} TotalEquivalent(k: nat, c: Findings<real>, d: Findings<real>, q: nat, log: seq<nat>)
    requires forall b :: b in log ==> Equivalent(k, c(q, b), d(q, b))
    ensures Equivalent(k, Total(c, q, log), Total(d, q, log))
  {
    if log != [] {
      var last := |log| - 1;
      TakeMembers(log, last);
      TotalEquivalent(k, c, d, q, log[..last]);
      assert log[last] in log;
      SumEquivalent(k, Total(c, q, log[..last]), Total(d, q, log[..last]),
                    c(q, log[last]), d(q, log[last]));
    }
  }
}
