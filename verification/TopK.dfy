/** The k least elements of a bag of numbers: what a bounded result heap holds. */
module TopK {
  ghost function Pick<T>(m: multiset<T>): (x: T)
    requires m != multiset{}
    ensures x in m
  {
    var x :| x in m;
    x
  }

  ghost predicate IsMin(m: multiset<real>, x: real) {
    x in m && forall y :: y in m ==> x <= y
  }

  lemma {:induction false} MinExists(m: multiset<real>)
    requires m != multiset{}
    ensures exists x :: IsMin(m, x)
    decreases |m|
  {
    var x := Pick(m);
    var rest := m - multiset{x};
    assert m == rest + multiset{x};
    if rest == multiset{} {
      assert IsMin(m, x);
    } else {
      MinExists(rest);
      var y :| IsMin(rest, y);
      assert IsMin(m, if y < x then y else x);
    }
  }

  ghost predicate Increasing(s: seq<real>) {
    forall i, j :: 0 <= i < j < |s| ==> s[i] <= s[j]
  }

  /** `s` lists `k` elements of `m` in increasing order (all of them when there are fewer)
      and leaves out nothing smaller. */
  ghost predicate IsTopK(s: seq<real>, k: nat, m: multiset<real>) {
    && Increasing(s) && multiset(s) <= m
    && |s| == (if |m| < k then |m| else k)
    && forall x, y :: x in s && y in m - multiset(s) ==> x <= y
  }

  lemma SplitHead<T>(s: seq<T>)
    requires s != []
    ensures multiset(s) == multiset{s[0]} + multiset(s[1..])
  {
    assert s == [s[0]] + s[1..];
  }

  /** Putting the least element in front of a selection from the rest. */
  lemma ConsTopK(x: real, s: seq<real>, k: nat, m: multiset<real>)
    requires k > 0 && IsMin(m, x) && IsTopK(s, k - 1, m - multiset{x})
    ensures IsTopK([x] + s, k, m)
  {
    var t := [x] + s;
    assert multiset(t) == multiset{x} + multiset(s);
    assert m - multiset(t) == m - multiset{x} - multiset(s);
    forall y | y in s ensures x <= y {
      assert y in multiset(s);
      assert y in m;
    }
    forall i, j | 0 <= i < j < |t| ensures t[i] <= t[j] {
      assert t[j] == s[j - 1] && s[j - 1] in s;
    }
    forall y, z | y in t && z in m - multiset(t) ensures y <= z {
      if y !in s { assert z in m; }
    }
  }

  lemma {:induction false} TopKExists(k: nat, m: multiset<real>)
    ensures exists s :: IsTopK(s, k, m)
  {
    if k == 0 || m == multiset{} {
      assert IsTopK([], k, m);
    } else {
      MinExists(m);
      var x :| IsMin(m, x);
      TopKExists(k - 1, m - multiset{x});
      var s :| IsTopK(s, k - 1, m - multiset{x});
      ConsTopK(x, s, k, m);
    }
  }

  /** The head of a selection is the least element and the tail selects from the rest. */
  lemma UnconsTopK(s: seq<real>, k: nat, m: multiset<real>)
    requires s != [] && IsTopK(s, k, m)
    ensures IsMin(m, s[0]) && k > 0 && IsTopK(s[1..], k - 1, m - multiset{s[0]})
  {
    SplitHead(s);
    assert s[0] in s && s[0] in multiset(s);
    forall y | y in m ensures s[0] <= y {
      if y in multiset(s) {
        var i :| 0 <= i < |s| && s[i] == y;
      } else {
        assert y in m - multiset(s);
      }
    }
    var rest := m - multiset{s[0]};
    assert rest - multiset(s[1..]) == m - multiset(s);
    assert forall y :: y in s[1..] ==> y in s;
  }

  lemma SameParts<T>(s: seq<T>, t: seq<T>)
    requires s != [] && t != [] && s[0] == t[0] && s[1..] == t[1..]
    ensures s == t
  {
    assert s == [s[0]] + s[1..] && t == [t[0]] + t[1..];
  }

  lemma {:induction false} TopKUnique(s: seq<real>, t: seq<real>, k: nat, m: multiset<real>)
    requires IsTopK(s, k, m) && IsTopK(t, k, m)
    ensures s == t
  {
    if s != [] {
      UnconsTopK(s, k, m);
      UnconsTopK(t, k, m);
      assert s[0] == t[0];
      TopKUnique(s[1..], t[1..], k - 1, m - multiset{s[0]});
      SameParts(s, t);
    }
  }

  /** The selection of the `k` least elements. */
  ghost function Best(k: nat, m: multiset<real>): (s: seq<real>)
    ensures IsTopK(s, k, m)
  {
    TopKExists(k, m);
    var s :| IsTopK(s, k, m);
    s
  }

  lemma BestIs(s: seq<real>, k: nat, m: multiset<real>)
    requires IsTopK(s, k, m)
    ensures s == Best(k, m)
  {
    TopKUnique(s, Best(k, m), k, m);
  }

  /** A bag of at most `k` elements of `m` that leaves out nothing smaller, and no more than it must. */
  lemma BestBag(b: multiset<real>, k: nat, m: multiset<real>)
    requires b <= m && |b| == (if |m| < k then |m| else k)
    requires forall x, y :: x in b && y in m - b ==> x <= y
    ensures b == multiset(Best(k, m))
  {
    var s := Best(|b|, b);
    assert b == multiset(s) + (b - multiset(s));
    assert multiset(s) == b;
    forall x, y | x in s && y in m - multiset(s) ensures x <= y {
      assert x in multiset(s);
    }
    BestIs(s, k, m);
  }

  lemma SubBagSize<T>(a: multiset<T>, b: multiset<T>)
    requires a <= b
    ensures |a| <= |b|
  {
    assert b == a + (b - a);
  }

  /** Selecting first and merging afterwards loses nothing. */
  lemma MergeAbsorbs(k: nat, a: multiset<real>, b: multiset<real>)
    ensures Best(k, multiset(Best(k, a)) + b) == Best(k, a + b)
  {
    var t := multiset(Best(k, a));
    var s := Best(k, t + b);
    forall x, y | x in s && y in a + b - multiset(s) ensures x <= y {
      if y !in t + b - multiset(s) {
        NothingLost(k, a, b, x, y);
      }
    }
    BestIs(s, k, a + b);
  }

  /** A selected element brings along all the smaller candidates. */
  lemma SelectedWithSmaller(k: nat, t: multiset<real>, b: multiset<real>, x: real)
    requires x in Best(k, t + b) && forall z :: z in t ==> z < x
    ensures t + multiset{x} <= multiset(Best(k, t + b))
  {
    var s := Best(k, t + b);
    assert x in multiset(s);
    forall z | z in t ensures t[z] <= multiset(s)[z] {
      assert z in t + b - multiset(s) ==> x <= z;
    }
  }

  /** An element that the first selection drops is not missed by the second. */
  lemma NothingLost(k: nat, a: multiset<real>, b: multiset<real>, x: real, y: real)
    requires var t := multiset(Best(k, a));
             var s := Best(k, t + b);
             x in s && y in a + b - multiset(s) && y !in t + b - multiset(s)
    ensures x <= y
  {
    var t := multiset(Best(k, a));
    var s := Best(k, t + b);
    assert y in a - t;
    assert |a| == |t| + |a - t| by { assert a == t + (a - t); }
    assert |s| <= k && |t| == k;
    if x > y {
      forall z | z in t ensures z < x {
        assert z in Best(k, a) && z <= y;
      }
      SelectedWithSmaller(k, t, b, x);
      SubBagSize(t + multiset{x}, multiset(s));
    }
  }
}
