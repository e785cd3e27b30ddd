/** Refilling empty clusters by splitting larger ones (faiss/Clustering.cpp). */
module SplitClusters {
  import opened Basics
  import opened Sums

  /** A bit above machine epsilon for 16-bit floats. */
  const EPS: real := 1.0 / 1024.0

  // One split

  /** A drawn number `r` picks a cluster of the given mass for splitting. */
  ghost predicate Picks(r: real, mass: real, n: nat, k: nat)
    requires n > k
  {
    r < (mass - 1.0) / (n - k) as real
  }

  /** The draw can pick a cluster if and only if it holds more than one point. */
  lemma PickableIff(mass: real, n: nat, k: nat)
    requires n > k
    ensures (exists r :: 0.0 <= r <= 1.0 && Picks(r, mass, n, k)) <==> mass > 1.0
  {
    var m := (n - k) as real;
    var p := (mass - 1.0) / m;
    assert p * m == mass - 1.0;
    if mass > 1.0 {
      assert p > 0.0;
      assert Picks(0.0, mass, n, k);
    } else {
      assert p <= 0.0;
    }
  }

  /** One of the two slightly moved copies of a centroid. */
  function Nudged(v: Vec, up: bool): (r: Vec)
    ensures |r| == |v|
  {
    seq(|v|, j requires 0 <= j < |v| => v[j] * if (j % 2 == 0) == up then 1.0 + EPS else 1.0 - EPS)
  }

  datatype Clusters = Clusters(mass: seq<real>, center: seq<Vec>)
  {
    ghost predicate Valid(d: nat) {
      |mass| == |center| && forall c :: 0 <= c < |center| ==> |center[c]| == d
    }

    /** Refill the empty cluster `ci` with half of cluster `cj`. */
    function Split(ci: nat, cj: nat): Clusters
      requires ci < |mass| == |center| && cj < |mass|
    {
      Clusters(mass[ci := mass[cj] / 2.0][cj := mass[cj] - mass[cj] / 2.0],
               center[ci := Nudged(center[cj], true)][cj := Nudged(center[cj], false)])
    }

    ghost predicate CanSplit(ci: nat, cj: nat) {
      ci < |mass| == |center| && cj < |mass| && mass[ci] == 0.0 && mass[cj] > 1.0
    }

    /** Mass times position, coordinate `j`, cluster by cluster. */
    ghost function Products(d: nat, j: nat): (r: seq<real>)
      requires Valid(d) && j < d
      ensures |r| == |mass| && forall c :: 0 <= c < |r| ==> r[c] == mass[c] * center[c][j]
    {
      seq(|mass|, c requires 0 <= c < |mass| => mass[c] * center[c][j])
    }
  }

  /** What a split does. The two clusters share the mass evenly; the two copies move away from the centroid by
      1/1024 of each coordinate, in opposite directions that alternate; no other cluster changes. */
  lemma SplitMeans(s: Clusters, ci: nat, cj: nat)
    requires s.CanSplit(ci, cj)
    ensures ci != cj
    ensures var t := s.Split(ci, cj);
            && |t.mass| == |t.center| == |s.mass| && t.mass[ci] == t.mass[cj] && t.mass[ci] + t.mass[cj] == s.mass[cj]
            && |t.center[ci]| == |t.center[cj]| == |s.center[cj]|
            && (forall j :: 0 <= j < |s.center[cj]| ==>
                  1024.0 * (t.center[ci][j] - s.center[cj][j]) == 1024.0 * (s.center[cj][j] - t.center[cj][j])
                  == if j % 2 == 0 then s.center[cj][j] else -s.center[cj][j])
            && forall c :: 0 <= c < |s.mass| && c != ci && c != cj ==>
                 t.mass[c] == s.mass[c] && t.center[c] == s.center[c]
  {
  }

  lemma HalvesBalance(m: real, x: real)
    ensures m / 2.0 * (x * (1.0 + EPS)) + (m - m / 2.0) * (x * (1.0 - EPS)) == m * x
    ensures m / 2.0 * (x * (1.0 - EPS)) + (m - m / 2.0) * (x * (1.0 + EPS)) == m * x
  {
    var h := m / 2.0;
    assert m - h == h;
    assert h * (x * (1.0 + EPS)) + h * (x * (1.0 - EPS)) == h * x + h * x;
  }

  /** What a split does to the products: the mass of `cj` is shared by both clusters. */
  lemma SplitProducts(s: Clusters, ci: nat, cj: nat, d: nat, j: nat)
    requires s.Valid(d) && j < d && s.CanSplit(ci, cj)
    ensures s.Split(ci, cj).Valid(d)
    ensures var t, p := s.Split(ci, cj).Products(d, j), s.Products(d, j);
            t == p[ci := t[ci]][cj := t[cj]] && t[ci] + t[cj] == p[cj] && p[ci] == 0.0
  {
    var t, p := s.Split(ci, cj).Products(d, j), s.Products(d, j);
    forall c | 0 <= c < |p| && c != ci && c != cj ensures t[c] == p[c] {
      assert s.Split(ci, cj).mass[c] == s.mass[c] && s.Split(ci, cj).center[c] == s.center[c];
    }
    HalvesBalance(s.mass[cj], s.center[cj][j]);
  }

  /** A split moves mass around without changing the total... */
  lemma SplitKeepsMass(s: Clusters, ci: nat, cj: nat)
    requires s.CanSplit(ci, cj)
    ensures SumReal(s.Split(ci, cj).mass) == SumReal(s.mass)
  {
    var h := s.mass[cj] / 2.0;
    SumRealUpdate(s.mass, ci, h);
    SumRealUpdate(s.mass[ci := h], cj, s.mass[cj] - h);
  }

  /** ... or the barycentre. */
  lemma SplitKeepsBarycentre(s: Clusters, ci: nat, cj: nat, d: nat, j: nat)
    requires s.Valid(d) && j < d && s.CanSplit(ci, cj)
    ensures s.Split(ci, cj).Valid(d)
    ensures SumReal(s.Split(ci, cj).Products(d, j)) == SumReal(s.Products(d, j))
  {
    SplitProducts(s, ci, cj, d, j);
    var t, p := s.Split(ci, cj).Products(d, j), s.Products(d, j);
    SumRealUpdate(p, ci, t[ci]);
    SumRealUpdate(p[ci := t[ci]], cj, t[cj]);
  }

  // A series of splits

  /** Cluster `dst` is refilled from cluster `src`. */
  datatype Move = Move(dst: nat, src: nat)

  /** Each of the `splits` can be made when its turn comes. */
  ghost predicate CanSplitAll(s: Clusters, splits: seq<Move>)
    decreases |splits|
  {
    splits == [] ||
    (s.CanSplit(splits[0].dst, splits[0].src) && CanSplitAll(s.Split(splits[0].dst, splits[0].src), splits[1..]))
  }

  ghost function SplitAll(s: Clusters, splits: seq<Move>): Clusters
    requires CanSplitAll(s, splits)
    decreases |splits|
  {
    if splits == [] then s else SplitAll(s.Split(splits[0].dst, splits[0].src), splits[1..])
  }

  /** A cluster that is in no split stays as it is. */
  lemma {:induction false} Untouched(s: Clusters, splits: seq<Move>, c: nat)
    requires CanSplitAll(s, splits) && c < |s.mass| == |s.center|
    requires forall i :: 0 <= i < |splits| ==> c != splits[i].dst && c != splits[i].src
    ensures var t := SplitAll(s, splits);
            c < |t.mass| == |t.center| && t.mass[c] == s.mass[c] && t.center[c] == s.center[c]
    decreases |splits|
  {
    if splits != [] { Untouched(s.Split(splits[0].dst, splits[0].src), splits[1..], c); }
  }

  lemma {:induction false} SplitAllAppend(s: Clusters, splits: seq<Move>, ci: nat, cj: nat)
    requires CanSplitAll(s, splits) && SplitAll(s, splits).CanSplit(ci, cj)
    ensures CanSplitAll(s, splits + [Move(ci, cj)])
    ensures SplitAll(s, splits + [Move(ci, cj)]) == SplitAll(s, splits).Split(ci, cj)
    decreases |splits|
  {
    var more := splits + [Move(ci, cj)];
    if splits == [] {
      assert more == [Move(ci, cj)] && more[1..] == [];
    } else {
      assert more[1..] == splits[1..] + [Move(ci, cj)];
      SplitAllAppend(s.Split(splits[0].dst, splits[0].src), splits[1..], ci, cj);
    }
  }

  /** Total mass and barycentre survive any series of splits. */
  lemma {:induction false} SplitAllKeepsMass(s: Clusters, splits: seq<Move>)
    requires CanSplitAll(s, splits)
    ensures SumReal(SplitAll(s, splits).mass) == SumReal(s.mass) && |SplitAll(s, splits).mass| == |s.mass|
    decreases |splits|
  {
    if splits != [] {
      SplitKeepsMass(s, splits[0].dst, splits[0].src);
      SplitAllKeepsMass(s.Split(splits[0].dst, splits[0].src), splits[1..]);
    }
  }

  lemma {:induction false} SplitAllKeepsBarycentre(s: Clusters, splits: seq<Move>, d: nat, j: nat)
    requires s.Valid(d) && j < d && CanSplitAll(s, splits)
    ensures SplitAll(s, splits).Valid(d)
    ensures SumReal(SplitAll(s, splits).Products(d, j)) == SumReal(s.Products(d, j))
    decreases |splits|
  {
    if splits != [] {
      SplitKeepsBarycentre(s, splits[0].dst, splits[0].src, d, j);
      SplitAllKeepsBarycentre(s.Split(splits[0].dst, splits[0].src), splits[1..], d, j);
    }
  }

  /** When there is more mass than clusters, there is a cluster to split. */
  lemma CandidateExists(mass: seq<real>)
    requires SumReal(mass) > |mass| as real
    ensures exists c :: 0 <= c < |mass| && mass[c] > 1.0
  {
    if forall c :: 0 <= c < |mass| ==> mass[c] <= 1.0 {
      SumRealAtMost(mass);
    }
  }

  /** The empty clusters in increasing order. */
  function Empty(mass: seq<real>): seq<nat> {
    if mass == [] then []
    else Empty(mass[..|mass| - 1]) + if mass[|mass| - 1] == 0.0 then [|mass| - 1] else []
  }

  /** `Empty` lists the clusters without mass, in order. */
  lemma {:induction false} EmptyAre(mass: seq<real>)
    ensures forall i :: 0 <= i < |Empty(mass)| ==> Empty(mass)[i] < |mass| && mass[Empty(mass)[i]] == 0.0
    ensures forall i, j :: 0 <= i < j < |Empty(mass)| ==> Empty(mass)[i] < Empty(mass)[j]
    ensures forall c: nat :: c < |mass| ==> (c in Empty(mass) <==> mass[c] == 0.0)
  {
    if mass != [] {
      var last := |mass| - 1;
      EmptyAre(mass[..last]);
      OneMoreEmpty(mass, last, Empty(mass[..last]), Empty(mass));
    }
  }

  lemma OneMoreEmpty(mass: seq<real>, last: nat, before: seq<nat>, now: seq<nat>)
    requires |mass| == last + 1 && now == before + if mass[last] == 0.0 then [last] else []
    requires forall i :: 0 <= i < |before| ==> before[i] < last && mass[..last][before[i]] == 0.0
    requires forall i, j :: 0 <= i < j < |before| ==> before[i] < before[j]
    requires forall c: nat :: c < last ==> (c in before <==> mass[..last][c] == 0.0)
    ensures forall i :: 0 <= i < |now| ==> now[i] < |mass| && mass[now[i]] == 0.0
    ensures forall i, j :: 0 <= i < j < |now| ==> now[i] < now[j]
    ensures forall c: nat :: c < |mass| ==> (c in now <==> mass[c] == 0.0)
  {
    assert forall c :: 0 <= c < last ==> mass[..last][c] == mass[c];
  }

  function Firsts(splits: seq<Move>): (r: seq<nat>)
    ensures |r| == |splits| && forall i :: 0 <= i < |r| ==> r[i] == splits[i].dst
  {
    seq(|splits|, i requires 0 <= i < |splits| => splits[i].dst)
  }

  // How many splits the masses allow

  /** How many splits a cluster of mass `m` and its halves allow. */
  ghost function Cap(m: real): (n: nat)
    ensures n > 0 <==> m > 1.0
    decreases m.Floor
  {
    if m <= 1.0 then 0 else 1 + 2 * Cap(m / 2.0)
  }

  ghost predicate IsPower2(n: nat) {
    n == 1 || (n > 0 && n % 2 == 0 && IsPower2(n / 2))
  }

  /** With the cluster itself, these are as many as the next power of two. */
  lemma {:induction false} CapIsPower(m: real)
    requires m > 1.0
    ensures IsPower2(Cap(m) + 1) && m <= (Cap(m) + 1) as real < 2.0 * m
    decreases m.Floor
  {
    var half, c := m / 2.0, Cap(m / 2.0);
    assert m == 2.0 * half;
    if m > 2.0 {
      CapIsPower(half);
    }
    Doubled(c + 1);
  }

  lemma Doubled(n: nat)
    requires IsPower2(n)
    ensures IsPower2(2 * n)
  {
    assert 2 * n / 2 == n && 2 * n % 2 == 0;
  }

  ghost function Caps(mass: seq<real>): nat {
    if mass == [] then 0 else Cap(mass[0]) + Caps(mass[1..])
  }

  lemma {:induction false} CapsUpdate(mass: seq<real>, i: nat, v: real)
    requires i < |mass|
    ensures Caps(mass[i := v]) == Caps(mass) - Cap(mass[i]) + Cap(v)
  {
    if i == 0 {
      assert mass[0 := v][1..] == mass[1..];
    } else {
      CapsUpdate(mass[1..], i - 1, v);
      assert mass[i := v][1..] == mass[1..][i - 1 := v];
    }
  }

  lemma {:induction false} NoCaps(mass: seq<real>)
    requires forall c :: 0 <= c < |mass| ==> mass[c] <= 1.0
    ensures Caps(mass) == 0
  {
    if mass != [] { NoCaps(mass[1..]); }
  }

  /** Whichever cluster is split, one split fewer is allowed afterwards. */
  lemma SplitUsesOne(s: Clusters, ci: nat, cj: nat)
    requires s.CanSplit(ci, cj)
    ensures Caps(s.Split(ci, cj).mass) == Caps(s.mass) - 1
  {
    var h := s.mass[cj] / 2.0;
    CapsUpdate(s.mass, ci, h);
    CapsUpdate(s.mass[ci := h], cj, s.mass[cj] - h);
  }

  lemma {:induction false} SplitsUseCaps(s: Clusters, splits: seq<Move>)
    requires CanSplitAll(s, splits)
    ensures Caps(SplitAll(s, splits).mass) == Caps(s.mass) - |splits|
    decreases |splits|
  {
    if splits != [] {
      SplitUsesOne(s, splits[0].dst, splits[0].src);
      SplitsUseCaps(s.Split(splits[0].dst, splits[0].src), splits[1..]);
    }
  }

  /** There are as many splits in the masses as there are clusters to refill. */
  ghost predicate CanRefill(mass: seq<real>) {
    |Empty(mass)| <= Caps(mass)
  }

  lemma {:induction false} EmptyGrows(mass: seq<real>, ci: nat)
    requires ci <= |mass|
    ensures |Empty(mass[..ci])| <= |Empty(mass)|
  {
    if ci < |mass| {
      var init := mass[..|mass| - 1];
      EmptyGrows(init, ci);
      assert init[..ci] == mass[..ci];
    } else {
      assert mass[..ci] == mass;
    }
  }

  /** As much mass as clusters is enough, however it is spread. */
  lemma {:induction false} EnoughMass(mass: seq<real>)
    ensures SumReal(mass) <= (|mass| - |Empty(mass)| + Caps(mass)) as real
    ensures SumReal(mass) >= |mass| as real ==> CanRefill(mass)
  {
    if mass != [] {
      EnoughMass(mass[1..]);
      EmptyTail(mass);
      if mass[0] > 1.0 { CapIsPower(mass[0]); }
    }
  }

  lemma {:induction false} EmptyTail(mass: seq<real>)
    requires mass != []
    ensures |Empty(mass)| == |Empty(mass[1..])| + if mass[0] == 0.0 then 1 else 0
  {
    var init := mass[..|mass| - 1];
    if init != [] {
      EmptyTail(init);
      assert mass[1..][..|mass| - 2] == init[1..];
    }
  }

  // The algorithm

  /** Where the draws lead: from the masses at the start, the number of splits made and the current
      masses to a cluster that can be split, whenever there is one. The generator is seeded anew
      each time, so that the start and the number of splits determine its state. */
  type Draws = (seq<real>, nat, seq<real>) -> nat

  ghost predicate LeadsToSplit(pick: Draws) {
    forall m0: seq<real>, n: nat, m: seq<real> {:trigger pick(m0, n, m)} ::
      (exists c :: 0 <= c < |m| && m[c] > 1.0) ==> pick(m0, n, m) < |m| && m[pick(m0, n, m)] > 1.0
  }

  ghost predicate Holds(kFrozen: nat, hassign: array<real>, centroids: array<Vec>, s: Clusters)
    reads hassign, centroids
  {
    && kFrozen <= centroids.Length == hassign.Length
    && hassign[..centroids.Length - kFrozen] == s.mass && centroids[kFrozen..] == s.center
  }

  /** Give every empty cluster half of one that holds more than one point. `pick` says which one
      the draws end up with; the search for it never ends when there is none, which is reported as
      an error. That happens exactly when the masses do not allow as many splits as there are empty
      clusters. `splits` lists what was done. */
  method SplitClusters(d: nat, n: nat, kFrozen: nat, pick: Draws, hassign: array<real>, centroids: array<Vec>)
    returns (r: Result<nat>, ghost splits: seq<Move>)
    requires kFrozen <= centroids.Length == hassign.Length && n > centroids.Length - kFrozen
    requires forall c :: 0 <= c < centroids.Length ==> |centroids[c]| == d
    requires LeadsToSplit(pick)
    modifies hassign, centroids
    ensures centroids[..kFrozen] == old(centroids[..kFrozen])
    ensures var k := centroids.Length - kFrozen;
            && CanSplitAll(Clusters(old(hassign[..k]), old(centroids[kFrozen..])), splits)
            && Clusters(hassign[..k], centroids[kFrozen..])
               == SplitAll(Clusters(old(hassign[..k]), old(centroids[kFrozen..])), splits)
    ensures r.Ok? <==> CanRefill(old(hassign[..centroids.Length - kFrozen]))
    ensures r.Ok? ==> r.value == |splits| && Firsts(splits) == Empty(old(hassign[..centroids.Length - kFrozen]))
    ensures r.Ok? ==> forall c :: 0 <= c < centroids.Length - kFrozen ==> hassign[c] != 0.0
    ensures r.Error? ==> exists c :: 0 <= c < centroids.Length - kFrozen && hassign[c] == 0.0
    ensures r.Error? ==> forall c :: 0 <= c < centroids.Length - kFrozen ==> hassign[c] <= 1.0
  {
    ghost var s;
    var ok, nsplit;
    ok, nsplit, s, splits := RefillAll(kFrozen, pick, hassign, centroids,
                                       Clusters(hassign[..centroids.Length - kFrozen], centroids[kFrozen..]));
    assert forall c :: 0 <= c < |s.mass| ==> hassign[c] == s.mass[c];
    r := if ok then Ok(nsplit) else Error("no cluster to split");
  }

  /** Go through the clusters and refill the empty ones. */
  method RefillAll(kFrozen: nat, pick: Draws, hassign: array<real>, centroids: array<Vec>, ghost s0: Clusters)
    returns (ok: bool, nsplit: nat, ghost s: Clusters, ghost splits: seq<Move>)
    requires Holds(kFrozen, hassign, centroids, s0) && LeadsToSplit(pick)
    modifies hassign, centroids
    ensures centroids[..kFrozen] == old(centroids[..kFrozen]) && Holds(kFrozen, hassign, centroids, s)
    ensures CanSplitAll(s0, splits) && s == SplitAll(s0, splits)
    ensures ok <==> CanRefill(s0.mass)
    ensures ok ==> nsplit == |splits| && Firsts(splits) == Empty(s0.mass)
    ensures ok ==> forall c :: 0 <= c < |s.mass| ==> s.mass[c] != 0.0
    ensures !ok ==> exists c :: 0 <= c < |s.mass| && s.mass[c] == 0.0
    ensures !ok ==> forall c :: 0 <= c < |s.mass| ==> s.mass[c] <= 1.0
  {
    var k := centroids.Length - kFrozen;
    var m0 := hassign[..k];
    s, splits := s0, [];
    ok, nsplit := true, 0;
    var ci := 0;
    assert m0[..0] == [];
    while ci < k
      invariant 0 <= ci <= k && nsplit == |splits|
      invariant centroids[..kFrozen] == old(centroids[..kFrozen])
      invariant Holds(kFrozen, hassign, centroids, s) && Progress(s0, s, splits, ci)
    {
      assert hassign[ci] == s.mass[ci];
      if hassign[ci] == 0.0 {
        ok, s, splits := Refill(kFrozen, ci, m0, nsplit, pick, hassign, centroids, s0, s, splits);
        if !ok {
          return;
        }
        nsplit := nsplit + 1;
      } else {
        SkipProgresses(s0, s, splits, ci);
      }
      ci := ci + 1;
    }
    AllRefilled(s0, s, splits);
  }

  /** Refill the empty cluster `ci`, if there is a cluster to split. */
  method Refill(kFrozen: nat, ci: nat, m0: seq<real>, nsplit: nat, pick: Draws,
                hassign: array<real>, centroids: array<Vec>,
                ghost s0: Clusters, ghost s: Clusters, ghost splits: seq<Move>)
    returns (ok: bool, ghost s': Clusters, ghost splits': seq<Move>)
    requires Holds(kFrozen, hassign, centroids, s) && Progress(s0, s, splits, ci)
    requires ci < |s.mass| && s.mass[ci] == 0.0 && m0 == s0.mass && LeadsToSplit(pick)
    modifies hassign, centroids
    ensures centroids[..kFrozen] == old(centroids[..kFrozen]) && Holds(kFrozen, hassign, centroids, s')
    ensures ok ==> |splits'| == |splits| + 1 && Progress(s0, s', splits', ci + 1)
    ensures !ok ==> s' == s && splits' == splits && !CanRefill(s0.mass)
                    && forall c :: 0 <= c < |s.mass| ==> s.mass[c] <= 1.0
  {
    var m := hassign[..centroids.Length - kFrozen];
    if forall c :: 0 <= c < |m| ==> m[c] <= 1.0 {
      StuckCannotRefill(s0, s, splits, ci);
      return false, s, splits;
    }
    var cj := pick(m0, nsplit, m);
    assert m[cj] > 1.0;
    SplitOne(kFrozen, ci, cj, hassign, centroids, s);
    SplitProgresses(s0, s, splits, ci, cj);
    return true, s.Split(ci, cj), splits + [Move(ci, cj)];
  }

  /** `splits` refilled the empty ones among the first `ci` clusters; the others are as empty
      as they were. */
  ghost predicate Progress(s0: Clusters, s: Clusters, splits: seq<Move>, ci: nat) {
    && CanSplitAll(s0, splits) && s == SplitAll(s0, splits)
    && |s.mass| == |s.center| == |s0.mass| && ci <= |s0.mass|
    && Firsts(splits) == Empty(s0.mass[..ci])
    && (forall c :: 0 <= c < ci ==> s.mass[c] != 0.0)
    && forall c :: ci <= c < |s.mass| ==> (s.mass[c] == 0.0 <==> s0.mass[c] == 0.0)
  }

  lemma SplitProgresses(s0: Clusters, s: Clusters, splits: seq<Move>, ci: nat, cj: nat)
    requires Progress(s0, s, splits, ci) && s.CanSplit(ci, cj)
    ensures Progress(s0, s.Split(ci, cj), splits + [Move(ci, cj)], ci + 1)
  {
    SplitAllAppend(s0, splits, ci, cj);
    assert s0.mass[..ci + 1][..ci] == s0.mass[..ci];
    assert Firsts(splits + [Move(ci, cj)]) == Firsts(splits) + [ci];
  }

  lemma SkipProgresses(s0: Clusters, s: Clusters, splits: seq<Move>, ci: nat)
    requires Progress(s0, s, splits, ci) && ci < |s.mass| && s.mass[ci] != 0.0
    ensures Progress(s0, s, splits, ci + 1)
  {
    assert s0.mass[..ci + 1][..ci] == s0.mass[..ci];
  }

  lemma StuckCannotRefill(s0: Clusters, s: Clusters, splits: seq<Move>, ci: nat)
    requires Progress(s0, s, splits, ci) && ci < |s.mass| && s.mass[ci] == 0.0
    requires forall c :: 0 <= c < |s.mass| ==> s.mass[c] <= 1.0
    ensures !CanRefill(s0.mass)
  {
    SplitsUseCaps(s0, splits);
    NoCaps(s.mass);
    assert s0.mass[..ci + 1][..ci] == s0.mass[..ci];
    EmptyGrows(s0.mass, ci + 1);
  }

  lemma AllRefilled(s0: Clusters, s: Clusters, splits: seq<Move>)
    requires Progress(s0, s, splits, |s0.mass|)
    ensures Firsts(splits) == Empty(s0.mass) && |splits| == |Empty(s0.mass)| && CanRefill(s0.mass)
  {
    SplitsUseCaps(s0, splits);
    assert s0.mass[..|s0.mass|] == s0.mass;
  }

  method SplitOne(kFrozen: nat, ci: nat, cj: nat, hassign: array<real>, centroids: array<Vec>, ghost s: Clusters)
    requires Holds(kFrozen, hassign, centroids, s) && s.CanSplit(ci, cj)
    modifies hassign, centroids
    ensures centroids[..kFrozen] == old(centroids[..kFrozen])
    ensures hassign[..centroids.Length - kFrozen] == s.Split(ci, cj).mass
    ensures centroids[kFrozen..] == s.Split(ci, cj).center
  {
    var v := centroids[kFrozen + cj];
    centroids[kFrozen + ci] := v;
    // small symmetric perturbation
    centroids[kFrozen + ci] := Nudged(centroids[kFrozen + ci], true);
    centroids[kFrozen + cj] := Nudged(centroids[kFrozen + cj], false);
    // assume even split of the cluster
    hassign[ci] := hassign[cj] / 2.0;
    hassign[cj] := hassign[cj] - hassign[ci];
  }
}
