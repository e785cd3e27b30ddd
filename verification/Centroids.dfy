/** The mean update of k-means (faiss/Clustering.cpp), over real numbers: each thread
    accumulates the points of its own slice of the centroids. */
module Centroids {
  import opened Basics

  /** Training vectors of dimension `d`, with a weight each (1 when there are no weights). */
  datatype Data = Data(d: nat, x: seq<Vec>, weights: Option<seq<real>>)
  {
    ghost predicate Valid() {
      && (forall i :: 0 <= i < |x| ==> |x[i]| == d)
      && (weights.Some? ==> |weights.value| == |x|)
    }

    function W(i: nat): real
      requires weights.Some? ==> i < |weights.value|
    {
      if weights.Some? then weights.value[i] else 1.0
    }

    /** The same vectors without weights. */
    ghost function Plain(): Data {
      Data(d, x, None)
    }
  }

  ghost predicate IsAssignment(data: Data, assign: seq<nat>, k: nat) {
    |assign| == |data.x| && forall i :: 0 <= i < |assign| ==> assign[i] < k
  }

  /** The total weight that the first `n` points bring to cluster `c`. */
  ghost function Mass(data: Data, assign: seq<nat>, n: nat, c: nat): real
    requires data.Valid() && n <= |assign| == |data.x|
  {
    if n == 0 then 0.0
    else Mass(data, assign, n - 1, c) + if assign[n - 1] == c then data.W(n - 1) else 0.0
  }

  /** Coordinate `j` of the weighted sum of the points among the first `n` that are in cluster `c`. */
  ghost function Moment(data: Data, assign: seq<nat>, n: nat, c: nat, j: nat): real
    requires data.Valid() && n <= |assign| == |data.x| && j < data.d
  {
    if n == 0 then 0.0
    else Moment(data, assign, n - 1, c, j)
         + if assign[n - 1] == c then data.x[n - 1][j] * data.W(n - 1) else 0.0
  }

  ghost function Moments(data: Data, assign: seq<nat>, n: nat, c: nat): (v: Vec)
    requires data.Valid() && n <= |assign| == |data.x|
    ensures |v| == data.d
  {
    seq(data.d, j requires 0 <= j < data.d => Moment(data, assign, n, c, j))
  }

  /** The weighted mean of cluster `c`; an empty cluster keeps its sum. */
  ghost function Center(data: Data, assign: seq<nat>, c: nat): (v: Vec)
    requires data.Valid() && |assign| == |data.x|
    ensures |v| == data.d
  {
    var m := Mass(data, assign, |assign|, c);
    if m == 0.0 then Moments(data, assign, |assign|, c)
    else Scaled(Moments(data, assign, |assign|, c), 1.0 / m)
  }

  function Zero(d: nat): Vec {
    seq(d, _ => 0.0)
  }

  function Scaled(v: Vec, a: real): (r: Vec)
    ensures |r| == |v| && forall j :: 0 <= j < |v| ==> r[j] == v[j] * a
  {
    seq(|v|, j requires 0 <= j < |v| => v[j] * a)
  }

  /** `v` with `x` times `w` added to it. */
  function Accumulated(v: Vec, x: Vec, w: real): (r: Vec)
    requires |v| == |x|
    ensures |r| == |v| && forall j :: 0 <= j < |v| ==> r[j] == v[j] + x[j] * w
  {
    seq(|v|, j requires 0 <= j < |v| => v[j] + x[j] * w)
  }

  // Slices

  ghost function CutAt(k: nat, nt: nat, r: nat): nat
    requires nt > 0
  {
    k * r / nt
  }

  /** The bounds of the slices of `k` centroids among `nt` threads. */
  ghost function Cuts(k: nat, nt: nat): (cuts: seq<nat>)
    requires nt > 0
    ensures |cuts| == nt + 1
  {
    seq(nt + 1, r requires 0 <= r <= nt => CutAt(k, nt, r))
  }

  ghost predicate Tiles(cuts: seq<nat>, k: nat) {
    && |cuts| > 1 && cuts[0] == 0 && cuts[|cuts| - 1] == k
    && forall r, s :: 0 <= r <= s < |cuts| ==> cuts[r] <= cuts[s]
  }

  lemma DivMonotone(a: nat, b: nat, n: nat)
    requires a <= b && n > 0
    ensures a / n <= b / n
  {
    if a / n > b / n {
      MulMonotone(n, b / n + 1, a / n);
    }
  }

  /** The slices cover all the centroids, in order and without overlap. */
  lemma CutsTile(k: nat, nt: nat)
    requires nt > 0
    ensures Tiles(Cuts(k, nt), k)
  {
    var cuts := Cuts(k, nt);
    assert cuts[0] == 0 by { assert k * 0 == 0; }
    assert cuts[nt] == k by { DivMod(nt, k, 0); assert k * nt == 0 + nt * k; }
    forall r, s | 0 <= r <= s <= nt ensures cuts[r] <= cuts[s] {
      MulMonotone(k, r, s);
      DivMonotone(k * r, k * s, nt);
    }
  }

  /** Every centroid has an owner... */
  lemma {:induction false} OwnerExists(cuts: seq<nat>, c: nat, hi: nat)
    requires 0 < hi < |cuts| && cuts[0] <= c < cuts[hi]
    ensures exists r: nat :: r < hi && Owns(cuts, c, r)
  {
    if cuts[hi - 1] <= c {
      assert Owns(cuts, c, hi - 1);
    } else {
      OwnerExists(cuts, c, hi - 1);
    }
  }

  ghost predicate Owns(cuts: seq<nat>, c: nat, r: nat) {
    r + 1 < |cuts| && cuts[r] <= c < cuts[r + 1]
  }

  /** ... and only one. */
  lemma OwnerUnique(cuts: seq<nat>, k: nat, c: nat, r: nat, s: nat)
    requires Tiles(cuts, k) && r + 1 < |cuts| && s + 1 < |cuts|
    requires cuts[r] <= c < cuts[r + 1] && cuts[s] <= c < cuts[s + 1]
    ensures r == s
  {
  }

  method Slice(k: nat, nt: nat, rank: nat) returns (c0: nat, c1: nat)
    requires rank < nt
    ensures c0 == Cuts(k, nt)[rank] && c1 == Cuts(k, nt)[rank + 1]
  {
    c0 := k * rank / nt;
    c1 := k * (rank + 1) / nt;
  }

  /** How much work is left when thread r has gone through pos[r] of `n` points. */
  ghost function Left(pos: seq<nat>, n: nat): int {
    if pos == [] then 0 else n - pos[0] + Left(pos[1..], n)
  }

  lemma {:induction false} LeftDecreases(pos: seq<nat>, n: nat, r: nat)
    requires r < |pos| && pos[r] < n && forall s :: 0 <= s < |pos| ==> pos[s] <= n
    ensures Left(pos[r := pos[r] + 1], n) < Left(pos, n)
    ensures Left(pos[r := pos[r] + 1], n) >= 0
  {
    LeftNonNegative(pos[r := pos[r] + 1], n);
    if r == 0 {
      assert pos[0 := pos[0] + 1][1..] == pos[1..];
    } else {
      LeftDecreases(pos[1..], n, r - 1);
      assert pos[r := pos[r] + 1][1..] == pos[1..][r - 1 := pos[r] + 1];
    }
  }

  lemma {:induction false} LeftNonNegative(pos: seq<nat>, n: nat)
    requires forall s :: 0 <= s < |pos| ==> pos[s] <= n
    ensures Left(pos, n) >= 0
  {
    if pos != [] { LeftNonNegative(pos[1..], n); }
  }

  /** What centroid `ci` of the updated ones holds once its owner has gone through `n` points. */
  ghost predicate HoldsSum(data: Data, assign: seq<nat>, kFrozen: nat, n: nat, ci: nat, mass: real, v: Vec)
    requires data.Valid() && |assign| == |data.x|
  {
    n <= |assign|
    && mass == Mass(data, assign, n, kFrozen + ci) && v == Moments(data, assign, n, kFrozen + ci)
  }

  lemma SumStep(data: Data, assign: seq<nat>, kFrozen: nat, n: nat, ci: nat, mass: real, v: Vec)
    requires data.Valid() && n < |assign| == |data.x|
    requires HoldsSum(data, assign, kFrozen, n, ci, mass, v)
    ensures if assign[n] == kFrozen + ci
            then HoldsSum(data, assign, kFrozen, n + 1, ci, mass + data.W(n), Accumulated(v, data.x[n], data.W(n)))
            else HoldsSum(data, assign, kFrozen, n + 1, ci, mass, v)
  {
    var w := Moments(data, assign, n + 1, kFrozen + ci);
    forall j | 0 <= j < data.d
      ensures w[j] == v[j] + if assign[n] == kFrozen + ci then data.x[n][j] * data.W(n) else 0.0
    {
      assert w[j] == Moment(data, assign, n + 1, kFrozen + ci, j);
    }
    if assign[n] == kFrozen + ci {
      assert w == Accumulated(v, data.x[n], data.W(n));
    } else {
      assert w == v;
    }
  }

  /** Sum up the points of each cluster that is not frozen. At each turn any thread that still
      has points to look at may be the one that runs. */
  method AccumulateInThreads(data: Data, assign: seq<nat>, kFrozen: nat, nt: nat,
                             hassign: array<real>, centroids: array<Vec>)
    requires data.Valid() && IsAssignment(data, assign, centroids.Length)
    requires nt > 0 && kFrozen <= centroids.Length == hassign.Length
    requires forall ci :: 0 <= ci < hassign.Length - kFrozen ==>
               HoldsSum(data, assign, kFrozen, 0, ci, hassign[ci], centroids[kFrozen + ci])
    modifies hassign, centroids
    ensures forall ci :: 0 <= ci < hassign.Length - kFrozen ==>
              HoldsSum(data, assign, kFrozen, |assign|, ci, hassign[ci], centroids[kFrozen + ci])
    ensures forall c :: 0 <= c < kFrozen ==> centroids[c] == old(centroids[c])
    ensures forall c :: hassign.Length - kFrozen <= c < hassign.Length ==> hassign[c] == old(hassign[c])
  {
    var k, n := centroids.Length - kFrozen, |assign|;
    ghost var cuts := Cuts(k, nt);
    CutsTile(k, nt);
    var pos: seq<nat> := seq(nt, _ => 0);
    LeftNonNegative(pos, n);
    while exists r :: 0 <= r < nt && pos[r] < n
      invariant |pos| == nt && forall r :: 0 <= r < nt ==> pos[r] <= n
      invariant forall r, ci :: 0 <= r < nt && cuts[r] <= ci < cuts[r + 1] ==>
                  HoldsSum(data, assign, kFrozen, pos[r], ci, hassign[ci], centroids[kFrozen + ci])
      invariant forall c :: 0 <= c < kFrozen ==> centroids[c] == old(centroids[c])
      invariant forall c :: k <= c < hassign.Length ==> hassign[c] == old(hassign[c])
      decreases Left(pos, n)
    {
      var r :| 0 <= r < nt && pos[r] < n;
      ThreadStep(data, assign, kFrozen, nt, r, pos[r], hassign, centroids, pos);
      LeftDecreases(pos, n, r);
      pos := pos[r := pos[r] + 1];
    }
    forall ci | 0 <= ci < k
      ensures HoldsSum(data, assign, kFrozen, n, ci, hassign[ci], centroids[kFrozen + ci])
    {
      OwnerExists(cuts, ci, nt);
      var r: nat :| r < nt && Owns(cuts, ci, r);
      assert pos[r] == n;
    }
  }

  /** Thread `rank` looks at point `i`. */
  method ThreadStep(data: Data, assign: seq<nat>, kFrozen: nat, nt: nat, rank: nat, i: nat,
                    hassign: array<real>, centroids: array<Vec>, ghost pos: seq<nat>)
    requires data.Valid() && IsAssignment(data, assign, centroids.Length) && i < |assign|
    requires rank < nt == |pos| && pos[rank] == i && kFrozen <= centroids.Length == hassign.Length
    requires Tiles(Cuts(centroids.Length - kFrozen, nt), centroids.Length - kFrozen)
    requires var cuts := Cuts(centroids.Length - kFrozen, nt);
             forall r, ci :: 0 <= r < nt && cuts[r] <= ci < cuts[r + 1] ==>
               HoldsSum(data, assign, kFrozen, pos[r], ci, hassign[ci], centroids[kFrozen + ci])
    modifies hassign, centroids
    ensures var cuts := Cuts(centroids.Length - kFrozen, nt);
            forall r, ci :: 0 <= r < nt && cuts[r] <= ci < cuts[r + 1] ==>
              HoldsSum(data, assign, kFrozen, pos[rank := i + 1][r], ci, hassign[ci], centroids[kFrozen + ci])
    ensures forall c :: 0 <= c < kFrozen ==> centroids[c] == old(centroids[c])
    ensures forall c :: hassign.Length - kFrozen <= c < hassign.Length ==> hassign[c] == old(hassign[c])
  {
    ghost var k := centroids.Length - kFrozen;
    ghost var cuts := Cuts(k, nt);
    ghost var h0, v0 := hassign[..], centroids[..];
    var c0, c1 := Slice(centroids.Length - kFrozen, nt, rank);
    var ci := assign[i] - kFrozen;
    if c0 <= ci < c1 {
      var w := data.W(i);
      assert c1 <= k;
      assert HoldsSum(data, assign, kFrozen, pos[rank], ci, hassign[ci], centroids[kFrozen + ci]);
      hassign[ci] := hassign[ci] + w;
      centroids[kFrozen + ci] := Accumulated(centroids[kFrozen + ci], data.x[i], w);
    }
    forall r, c | 0 <= r < nt && cuts[r] <= c < cuts[r + 1]
      ensures HoldsSum(data, assign, kFrozen, pos[rank := i + 1][r], c, hassign[c], centroids[kFrozen + c])
    {
      assert cuts[r + 1] <= k;
      assert HoldsSum(data, assign, kFrozen, pos[r], c, h0[c], v0[kFrozen + c]);
      if c0 <= c < c1 {
        OwnerUnique(cuts, k, c, r, rank);
        SumStep(data, assign, kFrozen, i, c, h0[c], v0[kFrozen + c]);
      }
    }
  }

  /** Compute the centroids that are not frozen as the means of their points, and how much each
      of them weighs: the first entries of `hassign`, which is 0 on input. */
  method ComputeCentroids(data: Data, assign: seq<nat>, kFrozen: nat, nt: nat,
                          hassign: array<real>, centroids: array<Vec>)
    requires data.Valid() && IsAssignment(data, assign, centroids.Length)
    requires nt > 0 && kFrozen <= centroids.Length == hassign.Length
    requires forall c :: 0 <= c < hassign.Length ==> hassign[c] == 0.0
    modifies hassign, centroids
    ensures forall c :: 0 <= c < kFrozen ==> centroids[c] == old(centroids[c])
    ensures forall c :: hassign.Length - kFrozen <= c < hassign.Length ==> hassign[c] == old(hassign[c])
    ensures forall c :: kFrozen <= c < centroids.Length ==> centroids[c] == Center(data, assign, c)
    ensures forall ci :: 0 <= ci < hassign.Length - kFrozen ==>
              hassign[ci] == Mass(data, assign, |assign|, kFrozen + ci)
  {
    var k := centroids.Length - kFrozen;
    var ci := 0;
    while ci < k
      invariant 0 <= ci <= k
      invariant forall c :: 0 <= c < hassign.Length ==> hassign[c] == 0.0
      invariant forall c :: 0 <= c < kFrozen ==> centroids[c] == old(centroids[c])
      invariant forall c :: kFrozen <= c < kFrozen + ci ==> centroids[c] == Zero(data.d)
    {
      centroids[kFrozen + ci] := Zero(data.d);
      ci := ci + 1;
    }
    forall ci | 0 <= ci < k
      ensures HoldsSum(data, assign, kFrozen, 0, ci, hassign[ci], centroids[kFrozen + ci])
    {
      assert Zero(data.d) == Moments(data, assign, 0, kFrozen + ci);
    }
    AccumulateInThreads(data, assign, kFrozen, nt, hassign, centroids);
    ghost var masses, sums := hassign[..], centroids[..];
    assert forall ci :: 0 <= ci < k ==>
             HoldsSum(data, assign, kFrozen, |assign|, ci, masses[ci], sums[kFrozen + ci]);
    ci := 0;
    while ci < k
      invariant 0 <= ci <= k && hassign[..] == masses
      invariant forall c :: 0 <= c < kFrozen ==> centroids[c] == old(centroids[c])
      invariant forall c :: kFrozen <= c < kFrozen + ci ==> centroids[c] == Center(data, assign, c)
      invariant forall c :: kFrozen + ci <= c < centroids.Length ==> centroids[c] == sums[c]
    {
      assert HoldsSum(data, assign, kFrozen, |assign|, ci, masses[ci], sums[kFrozen + ci]);
      assert hassign[ci] == masses[ci];
      if hassign[ci] != 0.0 {
        var norm := 1.0 / hassign[ci];
        centroids[kFrozen + ci] := Scaled(centroids[kFrozen + ci], norm);
      }
      ci := ci + 1;
    }
    forall ci | 0 <= ci < hassign.Length - kFrozen
      ensures hassign[ci] == Mass(data, assign, |assign|, kFrozen + ci)
    {
      assert HoldsSum(data, assign, kFrozen, |assign|, ci, masses[ci], sums[kFrozen + ci]);
    }
    assert forall c :: k <= c < hassign.Length ==> hassign[c] == masses[c];
  }
}
