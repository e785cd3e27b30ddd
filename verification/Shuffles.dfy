/** The Fisher-Yates shuffle (faiss/utils/random.cpp): which order each sequence of draws gives. */
module Shuffles {
  import opened Basics

  function Swapped(p: seq<nat>, i: nat, j: nat): (r: seq<nat>)
    requires i < |p| && j < |p|
    ensures |r| == |p| && r[j] == p[i] && r[i] == p[j]
    ensures forall h :: 0 <= h < |p| && h != i && h != j ==> r[h] == p[h]
  {
    p[i := p[j]][j := p[i]]
  }

  ghost predicate Distinct(p: seq<nat>) {
    forall i, j :: 0 <= i < j < |p| ==> p[i] != p[j]
  }

  /** Each place takes an element from there on. */
  ghost predicate AreTargets(to: seq<nat>) {
    forall i :: 0 <= i < |to| ==> i <= to[i] < |to|
  }

  /** The rest of a shuffle: each place from `i` on, but the last, is exchanged with its target. */
  ghost function Shuffle(p: seq<nat>, i: nat, to: seq<nat>): (r: seq<nat>)
    requires AreTargets(to) && |to| == |p|
    ensures |r| == |p|
    decreases |p| - i
  {
    if i + 1 >= |p| then p else Shuffle(Swapped(p, i, to[i]), i + 1, to)
  }

  lemma {:induction false} ShuffleKeeps(p: seq<nat>, i: nat, to: seq<nat>, h: nat)
    requires AreTargets(to) && |to| == |p| && h < |p| && h < i
    ensures Shuffle(p, i, to)[h] == p[h]
    decreases |p| - i
  {
    if i + 1 < |p| { ShuffleKeeps(Swapped(p, i, to[i]), i + 1, to, h); }
  }

  lemma SwappedKeeps(p: seq<nat>, i: nat, j: nat)
    requires i < |p| && j < |p| && Distinct(p)
    ensures Distinct(Swapped(p, i, j)) && forall x :: x in p <==> x in Swapped(p, i, j)
  {
    var q := Swapped(p, i, j);
    forall x | x in p ensures x in q {
      var h :| 0 <= h < |p| && p[h] == x;
      assert q[if h == i then j else if h == j then i else h] == x;
    }
  }

  /** Different targets give different orders... */
  lemma {:induction false} ShuffleInjective(p: seq<nat>, i: nat, to: seq<nat>, to': seq<nat>, h: nat)
    requires AreTargets(to) && AreTargets(to') && |to| == |to'| == |p| && Distinct(p)
    requires Shuffle(p, i, to) == Shuffle(p, i, to') && i <= h && h + 1 < |p|
    ensures to[h] == to'[h]
    decreases |p| - i
  {
    var j, j' := to[i], to'[i];
    ShuffleKeeps(Swapped(p, i, j), i + 1, to, i);
    ShuffleKeeps(Swapped(p, i, j'), i + 1, to', i);
    assert p[j] == p[j'];
    if h > i {
      SwappedKeeps(p, i, j);
      ShuffleInjective(Swapped(p, i, j), i + 1, to, to', h);
    }
  }

  lemma {:induction false} SameShuffle(p: seq<nat>, i: nat, to: seq<nat>, to': seq<nat>)
    requires AreTargets(to) && AreTargets(to') && |to| == |to'| == |p|
    requires forall h :: i <= h < |p| ==> to[h] == to'[h]
    ensures Shuffle(p, i, to) == Shuffle(p, i, to')
    decreases |p| - i
  {
    if i + 1 < |p| { SameShuffle(Swapped(p, i, to[i]), i + 1, to, to'); }
  }

  /** `r` has the elements of `p`, and the first `i` in the same places. */
  ghost predicate Agrees(p: seq<nat>, r: seq<nat>, i: nat) {
    && Distinct(p) && Distinct(r) && |r| == |p| && (forall x :: x in r ==> x in p)
    && forall h {:trigger p[h]} :: 0 <= h < |p| && h < i ==> r[h] == p[h]
  }

  /** ... and every order of the elements is given by some targets. */
  lemma {:induction false} ShuffleReaches(p: seq<nat>, i: nat, r: seq<nat>)
    requires Agrees(p, r, i)
    ensures exists to :: AreTargets(to) && |to| == |p| && Shuffle(p, i, to) == r
    decreases |p| - i
  {
    if i + 1 >= |p| {
      LastAgrees(p, r, i);
      var to := Range(|p|);
      assert AreTargets(to) && Shuffle(p, i, to) == r;
    } else {
      var j := NextTarget(p, r, i);
      ShuffleReaches(Swapped(p, i, j), i + 1, r);
      var rest :| AreTargets(rest) && |rest| == |p| && Shuffle(Swapped(p, i, j), i + 1, rest) == r;
      Retarget(p, i, j, rest);
    }
  }

  /** The place from which the next element comes. */
  lemma NextTarget(p: seq<nat>, r: seq<nat>, i: nat) returns (j: nat)
    requires Agrees(p, r, i) && i < |p|
    ensures i <= j < |p| && Agrees(Swapped(p, i, j), r, i + 1)
  {
    assert r[i] in p;
    j :| 0 <= j < |p| && p[j] == r[i];
    NotBefore(p, r, i, j);
    SwappedKeeps(p, i, j);
  }

  lemma Retarget(p: seq<nat>, i: nat, j: nat, rest: seq<nat>)
    requires i + 1 < |p| && i <= j < |p| && AreTargets(rest) && |rest| == |p|
    ensures AreTargets(rest[i := j])
    ensures Shuffle(p, i, rest[i := j]) == Shuffle(Swapped(p, i, j), i + 1, rest)
  {
    SameShuffle(Swapped(p, i, j), i + 1, rest, rest[i := j]);
  }

  /** An element that is still to come is not among those that agree already. */
  lemma NotBefore(p: seq<nat>, r: seq<nat>, i: nat, j: nat)
    requires Agrees(p, r, i) && i < |r| && j < |p| && p[j] == r[i]
    ensures j >= i
  {
  }

  lemma LastAgrees(p: seq<nat>, r: seq<nat>, i: nat)
    requires Agrees(p, r, i) && i + 1 >= |p|
    ensures r == p
  {
    if p != [] {
      var last := |p| - 1;
      assert r[last] in p;
      var k :| 0 <= k < |p| && p[k] == r[last];
      assert Agrees(p, r, last);
      NotBefore(p, r, last, k);
    }
  }

  /** Whatever the targets, nothing is lost or repeated. */
  lemma {:induction false} ShuffleMembers(p: seq<nat>, i: nat, to: seq<nat>)
    requires AreTargets(to) && |to| == |p| && Distinct(p)
    ensures Distinct(Shuffle(p, i, to)) && forall x :: x in Shuffle(p, i, to) ==> x in p
    decreases |p| - i
  {
    if i + 1 < |p| {
      SwappedKeeps(p, i, to[i]);
      ShuffleMembers(Swapped(p, i, to[i]), i + 1, to);
    }
  }

  // ---- draws ----

  /** The targets that the generator's draws select. */
  ghost function Targets(draw: nat -> nat, n: nat): (to: seq<nat>)
    ensures |to| == n && AreTargets(to)
    ensures forall i :: 0 <= i < n ==> to[i] == i + draw(i) % (n - i)
  {
    seq(n, i requires 0 <= i < n => i + draw(i) % (n - i))
  }

  /** The order that the draws give. */
  ghost function Shuffled(draw: nat -> nat, n: nat): (r: seq<nat>)
    ensures |r| == n
  {
    Shuffle(Range(n), 0, Targets(draw, n))
  }

  lemma ShuffledIsPermutation(draw: nat -> nat, n: nat)
    ensures IsPermutation(Shuffled(draw, n), n)
  {
    var r := Shuffled(draw, n);
    ShuffleMembers(Range(n), 0, Targets(draw, n));
    forall i | 0 <= i < n ensures r[i] < n {
      assert r[i] in r;
      assert r[i] in Range(n);
    }
  }

  /** Each order of n elements is given by some draws, ... */
  lemma EveryOrderIsDrawn(r: seq<nat>, n: nat)
    requires IsPermutation(r, n)
    ensures exists draw: nat -> nat :: Shuffled(draw, n) == r
  {
    forall x | x in r ensures x in Range(n) { assert Range(n)[x] == x; }
    ShuffleReaches(Range(n), 0, r);
    var to :| AreTargets(to) && |to| == n && Shuffle(Range(n), 0, to) == r;
    var draw := (i: nat) => if i < n && to[i] >= i then to[i] - i else 0;
    DrawsOf(to, draw);
    assert Shuffled(draw, n) == r;
  }

  lemma DrawsOf(to: seq<nat>, draw: nat -> nat)
    requires AreTargets(to) && forall i: nat :: i < |to| ==> draw(i) == to[i] - i
    ensures Targets(draw, |to|) == to
  {
    forall i | 0 <= i < |to| ensures Targets(draw, |to|)[i] == to[i] {
      SmallRemainder(draw(i), |to| - i);
    }
  }

  lemma SmallRemainder(a: nat, m: nat)
    requires a < m
    ensures a % m == a
  {
  }

  /** ... and by only one choice of remainders: a fair generator gives all orders the same chance. */
  lemma OnlyTheseDraws(d: nat -> nat, d': nat -> nat, n: nat, h: nat)
    requires Shuffled(d, n) == Shuffled(d', n) && h + 1 < n
    ensures d(h) % (n - h) == d'(h) % (n - h)
  {
    ShuffleInjective(Range(n), 0, Targets(d, n), Targets(d', n), h);
  }

  /** Shuffle perm[off..], `draw(i)` standing for the generator's i-th value. */
  method RandPerm(perm: array<nat>, off: nat, draw: nat -> nat)
    requires off <= perm.Length
    modifies perm
    ensures perm[..off] == old(perm[..off])
    ensures perm[off..] == Shuffled(draw, perm.Length - off)
  {
    var n := perm.Length - off;
    var i := 0;
    while i < n
      invariant 0 <= i <= n
      invariant perm[..off] == old(perm[..off])
      invariant forall j :: off <= j < off + i ==> perm[j] == j - off
    {
      perm[off + i] := i;
      i := i + 1;
    }
    assert perm[off..] == Range(n);
    i := 0;
    ghost var to := Targets(draw, n);
    while i + 1 < n
      invariant 0 <= i
      invariant perm[..off] == old(perm[..off])
      invariant Shuffle(perm[off..], i, to) == Shuffled(draw, n)
    {
      var i2 := i + draw(i) % (n - i);
      assert i2 == to[i];
      Exchange(perm, off, i, i2);
      i := i + 1;
    }
  }

  method Exchange(perm: array<nat>, off: nat, i: nat, j: nat)
    requires off + i < perm.Length && off + j < perm.Length
    modifies perm
    ensures perm[..off] == old(perm[..off]) && perm[off..] == Swapped(old(perm[off..]), i, j)
  {
    ghost var p := perm[off..];
    perm[off + i], perm[off + j] := perm[off + j], perm[off + i];
    assert perm[off..] == Swapped(p, i, j);
  }
}
