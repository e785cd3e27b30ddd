/** Small vocabulary shared by the other modules. */
module Basics {

  datatype Option<+T> = None | Some(value: T)

  /** The outcome of an operation that may throw. */
  datatype Result<+T> = Ok(value: T) | Error(message: string)

  type Vec = seq<real>

  type byte = b: int | 0 <= b < 256

  /** A search result. */
  datatype Hit = Hit(dis: real, id: int)

  function Sum(s: seq<nat>): nat {
    if s == [] then 0 else s[0] + Sum(s[1..])
  }

  /** Smaller is better: similarities count negated. */
  function Score(keepMax: bool, d: real): real {
    if keepMax then -d else d
  }

  /** The elements of `s` that satisfy `f`, in order. */
  function Filter<T>(f: T -> bool, s: seq<T>): seq<T> {
    if s == [] then []
    else if f(s[0]) then [s[0]] + Filter(f, s[1..])
    else Filter(f, s[1..])
  }

  lemma {:induction false} FilterAll<T>(f: T -> bool, s: seq<T>)
    requires forall x :: x in s ==> f(x)
    ensures Filter(f, s) == s
  {
    if s != [] { FilterAll(f, s[1..]); }
  }

  lemma {:induction false} FilterNone<T>(f: T -> bool, s: seq<T>)
    requires forall x :: x in s ==> !f(x)
    ensures Filter(f, s) == []
  {
    if s != [] { FilterNone(f, s[1..]); }
  }

  lemma {:induction false} FilterMembers<T>(f: T -> bool, s: seq<T>)
    ensures forall x {:trigger x in s} {:trigger x in Filter(f, s)} :: x in Filter(f, s) <==> x in s && f(x)
  {
    if s != [] { FilterMembers(f, s[1..]); }
  }

  lemma {:induction false} FilterAppend<T>(f: T -> bool, s: seq<T>, t: seq<T>)
    ensures Filter(f, s + t) == Filter(f, s) + Filter(f, t)
  {
    if s == [] {
      assert s + t == t;
    } else {
      assert (s + t)[1..] == s[1..] + t;
      FilterAppend(f, s[1..], t);
    }
  }

  lemma FilterLast<T>(f: T -> bool, s: seq<T>, x: T)
    ensures Filter(f, s + [x]) == Filter(f, s) + if f(x) then [x] else []
  {
    FilterAppend(f, s, [x]);
    assert Filter(f, []) == [] && [x][1..] == [];
  }

  /** The places of the elements that satisfy `f`: `Filter` keeps what is there, in order, and nothing else. */
  lemma {:induction false} FilterPlaces<T>(f: T -> bool, s: seq<T>) returns (places: seq<nat>)
    ensures |places| == |Filter(f, s)|
    ensures forall i :: 0 <= i < |places| ==> places[i] < |s| && Filter(f, s)[i] == s[places[i]]
    ensures forall i, j :: 0 <= i < j < |places| ==> places[i] < places[j]
    ensures forall p: nat :: p < |s| ==> (p in places <==> f(s[p]))
  {
    if s == [] {
      places := [];
    } else {
      var last := |s| - 1;
      places := FilterPlaces(f, s[..last]);
      assert s == s[..last] + [s[last]];
      FilterLast(f, s[..last], s[last]);
      if f(s[last]) { places := places + [last]; }
    }
  }

  lemma TakeCons<T>(s: seq<T>, n: nat)
    requires 0 < n <= |s|
    ensures s[0..n] == [s[0]] + s[1..][0..n - 1]
  {
  }

  lemma DropCons<T>(s: seq<T>, i0: nat, i1: nat)
    requires 0 < i0 <= i1 <= |s|
    ensures s[i0..i1] == s[1..][i0 - 1..i1 - 1]
  {
    var a, b := s[i0..i1], s[1..][i0 - 1..i1 - 1];
    assert |a| == |b| && forall j :: 0 <= j < |a| ==> a[j] == s[i0 + j] == b[j];
  }

  lemma {:induction false} FilterIsSlice<T>(f: T -> bool, s: seq<T>, i0: nat, i1: nat)
    requires i0 <= i1 <= |s|
    requires forall p {:trigger s[p]} :: 0 <= p < |s| ==> (f(s[p]) <==> i0 <= p < i1)
    ensures Filter(f, s) == s[i0..i1]
  {
    if s == [] {
    } else if i0 > 0 {
      FilterIsSlice(f, s[1..], i0 - 1, i1 - 1);
      assert !f(s[0]);
      DropCons(s, i0, i1);
    } else if i1 > 0 {
      FilterIsSlice(f, s[1..], 0, i1 - 1);
      assert f(s[0]);
      TakeCons(s, i1);
    } else {
      FilterIsSlice(f, s[1..], 0, 0);
      assert !f(s[0]);
    }
  }

  lemma RemoveAt<T>(xs: seq<T>, i: nat)
    requires i < |xs|
    ensures multiset(xs[..i] + xs[i + 1..]) == multiset(xs) - multiset{xs[i]}
  {
    assert xs == xs[..i] + [xs[i]] + xs[i + 1..];
  }

  lemma FilterRemove<T>(f: T -> bool, t: seq<T>, i: nat)
    requires i < |t|
    ensures |Filter(f, t)| == |Filter(f, t[..i] + t[i + 1..])| + if f(t[i]) then 1 else 0
  {
    assert t == t[..i] + t[i..] && t[i..][1..] == t[i + 1..];
    FilterAppend(f, t[..i], t[i..]);
    FilterAppend(f, t[..i], t[i + 1..]);
  }

  /** Filtering and reordering do not interfere. */
  lemma {:induction false} FilterPermuted<T>(f: T -> bool, s: seq<T>, t: seq<T>)
    requires multiset(s) == multiset(t)
    ensures |Filter(f, s)| == |Filter(f, t)|
  {
    if s == [] {
      assert |multiset(t)| == |t|;
    } else {
      assert s == [s[0]] + s[1..] && s[0] in multiset(t);
      var i :| 0 <= i < |t| && t[i] == s[0];
      var rest := t[..i] + t[i + 1..];
      RemoveAt(t, i);
      assert multiset(s[1..]) == multiset(s) - multiset{s[0]};
      FilterPermuted(f, s[1..], rest);
      FilterRemove(f, t, i);
    }
  }

  lemma {:induction false} FilterShrinks<T>(f: T -> bool, s: seq<T>)
    ensures |Filter(f, s)| <= |s|
  {
    if s != [] { FilterShrinks(f, s[1..]); }
  }

  /** `p` lists 0, 1, ..., n-1, each once. */
  ghost predicate IsPermutation(p: seq<nat>, n: nat) {
    && |p| == n
    && (forall i :: 0 <= i < n ==> p[i] < n)
    && (forall i, j :: 0 <= i < j < n ==> p[i] != p[j])
  }

  function Range(n: nat): (r: seq<nat>)
    ensures |r| == n && forall i :: 0 <= i < n ==> r[i] == i
  {
    seq(n, i requires 0 <= i => i)
  }

  /** The numbers lo, ..., hi - 1. */
  function Span(lo: nat, hi: nat): (r: set<nat>)
    ensures |r| == if lo < hi then hi - lo else 0
    ensures forall i: nat :: i in r <==> lo <= i < hi
    decreases hi
  {
    if lo < hi then Span(lo, hi - 1) + {hi - 1} else {}
  }

  /** A sequence has as many different elements as it is long exactly when none repeats. */
  lemma {:induction false} DistinctSizeIff<T>(p: seq<T>)
    ensures |set x | x in p| <= |p|
    ensures |set x | x in p| == |p| <==> forall i, j :: 0 <= i < j < |p| ==> p[i] != p[j]
  {
    if p != [] {
      var last := |p| - 1;
      var init, seen := p[..last], set x | x in p[..last];
      DistinctSizeIff(init);
      assert (set x | x in p) == seen + {p[last]};
      if p[last] in seen {
        var i :| 0 <= i < last && init[i] == p[last];
        assert p[i] == p[last] && i < last;
      } else {
        assert forall i :: 0 <= i < last ==> p[i] == init[i] && p[i] in seen;
      }
    }
  }

  /** How many places have an element that satisfies `f`. */
  lemma FilterSize<T>(f: T -> bool, s: seq<T>, chosen: set<nat>)
    requires forall i: nat :: i in chosen <==> i < |s| && f(s[i])
    ensures |Filter(f, s)| == |chosen|
  {
    var places := FilterPlaces(f, s);
    forall p ensures p in chosen <==> p in places {
      if p in places {
        var i :| 0 <= i < |places| && places[i] == p;
      }
    }
    DistinctSize(places, chosen);
  }

  lemma DistinctSize<T>(p: seq<T>, values: set<T>)
    requires forall x :: x in values <==> x in p
    requires forall i, j :: 0 <= i < j < |p| ==> p[i] != p[j]
    ensures |values| == |p|
  {
    DistinctSizeIff(p);
    assert values == set x | x in p;
  }

  /** A permutation leaves nothing out. */
  lemma PermutationCovers(p: seq<nat>, n: nat, c: nat)
    requires IsPermutation(p, n) && c < n
    ensures c in p
  {
    var values := set x | x in p;
    DistinctSizeIff(p);
    assert values <= Span(0, n);
    SubsetOfSameSize(values, Span(0, n));
    assert c in values;
  }

  lemma {:induction false} SubsetOfSameSize<T>(a: set<T>, b: set<T>)
    requires a <= b && |a| == |b|
    ensures a == b
  {
    if b != a {
      var x :| x in b && x !in a;
      SubsetIsSmaller(a, b - {x});
    }
  }

  lemma {:induction false} SubsetIsSmaller<T>(a: set<T>, b: set<T>)
    requires a <= b
    ensures |a| <= |b|
  {
    if a != {} {
      var x :| x in a;
      SubsetIsSmaller(a - {x}, b - {x});
    }
  }

  lemma MulMonotone(d: nat, a: int, b: int)
    requires a <= b
    ensures d * a <= d * b
  {
  }

  /** Division is determined by quotient and remainder. */
  lemma DivMod(d: nat, q: nat, r: nat)
    requires r < d
    ensures (r + d * q) % d == r && (r + d * q) / d == q
  {
    var c := r + d * q;
    var x, y := c / d, c % d;
    assert d * x + y == c && 0 <= y < d;
    if x < q { MulMonotone(d, x + 1, q); }
    if x > q { MulMonotone(d, q + 1, x); }
  }

  /** Dividing twice is dividing by the product. */
  lemma DivDiv(c: nat, a: nat, b: nat)
    requires a > 0 && b > 0
    ensures a * b > 0 && (c / a) / b == c / (a * b)
  {
    var q, r := c / a, c % a;
    var q2, r2 := q / b, q % b;
    assert c == a * q + r && q == b * q2 + r2;
    assert a * (b * q2 + r2) == a * b * q2 + a * r2;
    MulMonotone(a, r2 + 1, b);
    assert a * (r2 + 1) == a * r2 + a;
    DivMod(a * b, q2, a * r2 + r);
  }

  lemma TakeStep<T>(s: seq<T>, n: nat)
    requires n < |s|
    ensures s[..n + 1] == s[..n] + [s[n]]
  {
  }

  lemma TakeMembers<T>(s: seq<T>, n: nat)
    requires n <= |s|
    ensures forall x :: x in s[..n] ==> x in s
  {
    forall x | x in s[..n] ensures x in s {
      var i :| 0 <= i < n && s[..n][i] == x;
      assert s[i] == x;
    }
  }

  /** start, start + 1, ..., end - 1. */
  function Between(start: int, end: int): (r: seq<nat>)
    requires start >= 0
    ensures |r| == if start < end then end - start else 0
    ensures forall i :: 0 <= i < |r| ==> r[i] == start + i
  {
    if start < end then seq(end - start, (i: nat) => start + i) else []
  }

  lemma BetweenStep(start: int, l: int)
    requires 0 <= start <= l
    ensures Between(start, l) + [l] == Between(start, l + 1)
  {
  }

  lemma Associate<T>(a: seq<T>, b: seq<T>, c: seq<T>)
    ensures (a + b) + c == a + (b + c)
  {
  }

  lemma CutMiddle<T>(a: seq<T>, b: seq<T>, c: seq<T>)
    ensures (a + (b + c))[|a|..|a| + |b|] == b
  {
  }
}
