/** The training loop of k-means (faiss/Clustering.cpp): iterations, and restarts of which the
    best is kept. */
module Training {
  import opened Basics
  import opened Centroids
  import opened Lloyd
  import SplitClusters

  /** What an iteration reports: the objective before its update and its number of splits. */
  datatype Stats = Stats(obj: real, nsplit: nat)

  /** An exact index: it assigns each point to one of the nearest centroids. */
  ghost predicate Exact(data: Data, k: nat, search: seq<Vec> -> seq<nat>)
  {
    data.Valid() &&
    forall cents {:trigger search(cents)} ::
      |cents| == k && AreCentroids(data, cents) ==> IsNearest(data, cents, search(cents))
  }

  /** One update of the centroids: frozen ones stay, the others move to their means, and the empty
      ones among these are refilled by `splits`. */
  ghost predicate IsUpdate(data: Data, assign: seq<nat>, kFrozen: nat, cents: seq<Vec>, cents': seq<Vec>,
                           splits: seq<SplitClusters.Move>)
  {
    && data.Valid() && kFrozen <= |cents| == |cents'| && IsAssignment(data, assign, |cents|)
    && cents'[..kFrozen] == cents[..kFrozen]
    && var s := Updated(data, assign, kFrozen, |cents|);
       && SplitClusters.CanSplitAll(s, splits)
       && SplitClusters.Firsts(splits) == SplitClusters.Empty(s.mass)
       && cents'[kFrozen..] == SplitClusters.SplitAll(s, splits).center
  }

  /** The history of a series of iterations: the centroids before each and after the last, the
      splits of each, and what was reported. */
  datatype Trail = Trail(cents: seq<seq<Vec>>, splits: seq<seq<SplitClusters.Move>>, stats: seq<Stats>)
  {
    ghost predicate Valid(data: Data, kFrozen: nat, search: seq<Vec> -> seq<nat>)
    {
      && data.Valid() && |cents| == |splits| + 1 == |stats| + 1
      && (forall i {:trigger cents[i]} :: 0 <= i < |cents| ==> AreCentroids(data, cents[i]) && |cents[i]| == |cents[0]|)
      && (forall i: nat {:trigger IsIteration(data, kFrozen, search, i)} ::
            i < |stats| ==> IsIteration(data, kFrozen, search, i))
    }

    /** Iteration `i` reports the objective of its nearest-centroid assignment and updates with it. */
    ghost predicate IsIteration(data: Data, kFrozen: nat, search: seq<Vec> -> seq<nat>, i: nat)
    {
      data.Valid() && i < |stats| && |cents| == |splits| + 1 == |stats| + 1 &&
      var assign := search(cents[i]);
      && AreCentroids(data, cents[i]) && IsNearest(data, cents[i], assign)
      && stats[i] == Stats(Objective(data.Plain(), cents[i], assign, |assign|), |splits[i]|)
      && IsUpdate(data, assign, kFrozen, cents[i], cents[i + 1], splits[i])
    }

    ghost function Grown(c: seq<Vec>, moves: seq<SplitClusters.Move>, s: Stats): Trail {
      Trail(cents + [c], splits + [moves], stats + [s])
    }

    ghost function Final(): seq<Vec> {
      if cents == [] then [] else cents[|cents| - 1]
    }

    /** The objective that the last iteration reported. */
    ghost function LastObjective(): real {
      if stats == [] then 0.0 else stats[|stats| - 1].obj
    }
  }

  /** The next update would fail: the masses do not allow as many splits as it needs. */
  ghost predicate Stuck(data: Data, kFrozen: nat, search: seq<Vec> -> seq<nat>, trail: Trail)
  {
    var cents, assign := trail.Final(), search(trail.Final());
    && data.Valid() && kFrozen <= |cents| && |assign| == |data.x|
    && !SplitClusters.CanRefill(Updated(data, assign, kFrozen, |cents|).mass)
  }

  lemma PlainCost(data: Data, cents: seq<Vec>, i: nat, c: nat)
    requires data.Valid() && AreCentroids(data, cents) && i < |data.x| && c < |cents|
    ensures PointCosts(data.Plain(), cents)(i, c) == Distance(data.x[i], cents[c], data.d)
  {
    var w, a := data.Plain().W(i), Distance(data.x[i], cents[c], data.d);
    assert PointCosts(data.Plain(), cents)(i, c) == w * a;
    OneTimes(w, a);
  }

  method SumDistances(data: Data, cents: seq<Vec>, assign: seq<nat>) returns (obj: real)
    requires data.Valid() && AreCentroids(data, cents) && IsAssignment(data, assign, |cents|)
    ensures obj == Objective(data.Plain(), cents, assign, |assign|)
  {
    obj := 0.0;
    var j := 0;
    while j < |assign|
      invariant 0 <= j <= |assign|
      invariant obj == Objective(data.Plain(), cents, assign, j)
    {
      PlainCost(data, cents, j, assign[j]);
      obj := obj + Distance(data.x[j], cents[assign[j]], data.d);
      j := j + 1;
    }
  }

  lemma {:induction false} NothingEmpty(mass: seq<real>)
    requires SplitClusters.Empty(mass) == []
    ensures forall c :: 0 <= c < |mass| ==> mass[c] != 0.0
  {
    if mass != [] {
      NothingEmpty(mass[..|mass| - 1]);
      assert forall c :: 0 <= c < |mass| - 1 ==> mass[c] == mass[..|mass| - 1][c];
    }
  }

  /** Without splits, the new centroids are the means of clusters that all have points. */
  lemma NoSplitIsMeanUpdate(data: Data, assign: seq<nat>, kFrozen: nat, cents: seq<Vec>, cents': seq<Vec>)
    requires data.Valid() && NonNegative(data) && IsUpdate(data, assign, kFrozen, cents, cents', [])
    ensures IsMeanUpdate(data, assign, kFrozen, cents, cents')
  {
    var s := Updated(data, assign, kFrozen, |cents|);
    assert SplitClusters.Empty(s.mass) == [];
    NothingEmpty(s.mass);
    assert forall c :: kFrozen <= c < |cents| ==> cents'[c] == cents'[kFrozen..][c - kFrozen] == s.center[c - kFrozen];
    assert forall c :: 0 <= c < kFrozen ==> cents'[c] == cents'[..kFrozen][c] == cents[..kFrozen][c] == cents[c];
    forall c | kFrozen <= c < |cents| ensures Mass(data, assign, |assign|, c) > 0.0 {
      assert s.mass[c - kFrozen] != 0.0;
      MassNotNegative(data, assign, |assign|, c);
    }
  }

  lemma {:induction false} MassNotNegative(data: Data, assign: seq<nat>, n: nat, c: nat)
    requires data.Valid() && NonNegative(data) && n <= |assign| == |data.x|
    ensures Mass(data, assign, n, c) >= 0.0
  {
    if n > 0 { MassNotNegative(data, assign, n - 1, c); }
  }

  /** The weighted objective before iteration `i`. */
  ghost function ObjectiveAt(data: Data, kFrozen: nat, search: seq<Vec> -> seq<nat>, trail: Trail, i: nat): real
    requires data.Valid() && trail.Valid(data, kFrozen, search) && i < |trail.stats|
  {
    assert trail.IsIteration(data, kFrozen, search, i);
    Objective(data, trail.cents[i], search(trail.cents[i]), |data.x|)
  }

  /** Over any series of iterations: one without splits is followed by one with a weighted objective at
      most as high; without weights, that is the objective which is reported. */
  lemma TrailDescends(data: Data, kFrozen: nat, search: seq<Vec> -> seq<nat>, trail: Trail, i: nat)
    requires data.Valid() && NonNegative(data) && trail.Valid(data, kFrozen, search)
    requires i + 1 < |trail.stats| && trail.stats[i].nsplit == 0
    ensures ObjectiveAt(data, kFrozen, search, trail, i + 1) <= ObjectiveAt(data, kFrozen, search, trail, i)
    ensures data.weights.None? ==> trail.stats[i + 1].obj <= trail.stats[i].obj
  {
    var cents, cents' := trail.cents[i], trail.cents[i + 1];
    assert trail.IsIteration(data, kFrozen, search, i) && trail.IsIteration(data, kFrozen, search, i + 1);
    assert trail.splits[i] == [];
    NoSplitIsMeanUpdate(data, search(cents), kFrozen, cents, cents');
    Descent(data, kFrozen, cents, search(cents), cents', search(cents'));
    assert data.weights.None? ==> data.Plain() == data;
  }

  /** What an iteration reports and does. */
  lemma TrailMeans(data: Data, kFrozen: nat, search: seq<Vec> -> seq<nat>, trail: Trail, i: nat)
    requires data.Valid() && trail.Valid(data, kFrozen, search) && i < |trail.stats|
    ensures |trail.cents| == |trail.splits| + 1 == |trail.stats| + 1
    ensures AreCentroids(data, trail.cents[i]) && IsNearest(data, trail.cents[i], search(trail.cents[i]))
    ensures trail.stats[i].obj == Objective(data.Plain(), trail.cents[i], search(trail.cents[i]), |data.x|)
    ensures trail.stats[i].nsplit == |trail.splits[i]|
    ensures IsUpdate(data, search(trail.cents[i]), kFrozen, trail.cents[i], trail.cents[i + 1], trail.splits[i])
  {
    assert trail.IsIteration(data, kFrozen, search, i);
  }

  /** What an update does: frozen centroids stay where they are... */
  lemma UpdateKeepsFrozen(data: Data, assign: seq<nat>, kFrozen: nat, cents: seq<Vec>, cents': seq<Vec>,
                          splits: seq<SplitClusters.Move>, c: nat)
    requires IsUpdate(data, assign, kFrozen, cents, cents', splits) && c < kFrozen
    ensures c < |cents'| == |cents| && cents'[c] == cents[c]
  {
    assert cents'[..kFrozen][c] == cents[..kFrozen][c];
  }

  /** ... exactly the empty clusters among the others are refilled, in order... */
  lemma UpdateRefills(data: Data, assign: seq<nat>, kFrozen: nat, cents: seq<Vec>, cents': seq<Vec>,
                      splits: seq<SplitClusters.Move>, c: nat)
    requires IsUpdate(data, assign, kFrozen, cents, cents', splits) && c < |cents| - kFrozen
    ensures forall i, j :: 0 <= i < j < |splits| ==> splits[i].dst < splits[j].dst
    ensures Mass(data, assign, |assign|, kFrozen + c) == 0.0 <==> exists i :: 0 <= i < |splits| && splits[i].dst == c
  {
    var mass := Updated(data, assign, kFrozen, |cents|).mass;
    RefilledAre(splits, mass, c);
    assert mass[c] == Mass(data, assign, |assign|, kFrozen + c);
  }

  lemma RefilledAre(splits: seq<SplitClusters.Move>, mass: seq<real>, c: nat)
    requires SplitClusters.Firsts(splits) == SplitClusters.Empty(mass) && c < |mass|
    ensures forall i, j :: 0 <= i < j < |splits| ==> splits[i].dst < splits[j].dst
    ensures mass[c] == 0.0 <==> exists i :: 0 <= i < |splits| && splits[i].dst == c
  {
    var empty := SplitClusters.Empty(mass);
    SplitClusters.EmptyAre(mass);
    assert forall i :: 0 <= i < |splits| ==> splits[i].dst == empty[i];
    assert c in empty <==> exists i :: 0 <= i < |splits| && splits[i].dst == c;
  }

  /** ... and a cluster that is in no split moves to the mean of its points. */
  lemma UpdateMoves(data: Data, assign: seq<nat>, kFrozen: nat, cents: seq<Vec>, cents': seq<Vec>,
                    splits: seq<SplitClusters.Move>, c: nat)
    requires IsUpdate(data, assign, kFrozen, cents, cents', splits) && c < |cents| - kFrozen
    requires forall i :: 0 <= i < |splits| ==> c != splits[i].dst && c != splits[i].src
    ensures cents'[kFrozen + c] == Center(data, assign, kFrozen + c)
  {
    var s := Updated(data, assign, kFrozen, |cents|);
    SplitClusters.Untouched(s, splits, c);
    assert cents'[kFrozen + c] == cents'[kFrozen..][c];
  }

  /** Over any series of iterations, frozen centroids stay where they are. */
  lemma {:induction false} TrailKeepsFrozen(data: Data, kFrozen: nat, search: seq<Vec> -> seq<nat>,
                                            trail: Trail, i: nat)
    requires data.Valid() && trail.Valid(data, kFrozen, search) && i < |trail.cents| && kFrozen <= |trail.cents[0]|
    ensures |trail.cents[i]| == |trail.cents[0]| && trail.cents[i][..kFrozen] == trail.cents[0][..kFrozen]
  {
    if i > 0 {
      TrailKeepsFrozen(data, kFrozen, search, trail, i - 1);
      assert trail.IsIteration(data, kFrozen, search, i - 1);
    }
  }

  /** The masses of every iteration that was made allowed its splits, while those of one that fails
      do not. */
  lemma UpdatesWerePossible(data: Data, kFrozen: nat, search: seq<Vec> -> seq<nat>, trail: Trail, i: nat)
    requires data.Valid() && trail.Valid(data, kFrozen, search)
    requires i < |trail.stats| && kFrozen <= |trail.cents[i]|
    ensures |search(trail.cents[i])| == |data.x|
    ensures SplitClusters.CanRefill(Updated(data, search(trail.cents[i]), kFrozen, |trail.cents[i]|).mass)
  {
    assert trail.IsIteration(data, kFrozen, search, i);
    SplitClusters.SplitsUseCaps(Updated(data, search(trail.cents[i]), kFrozen, |trail.cents[i]|), trail.splits[i]);
  }

  lemma UpdateKeepsDimension(data: Data, cents: seq<Vec>, cents': seq<Vec>, kFrozen: nat)
    requires kFrozen <= |cents| == |cents'| && AreCentroids(data, cents) && cents'[..kFrozen] == cents[..kFrozen]
    requires forall c :: 0 <= c < |cents'| - kFrozen ==> |cents'[kFrozen..][c]| == data.d
    ensures AreCentroids(data, cents')
  {
    forall c | 0 <= c < |cents'| ensures |cents'[c]| == data.d {
      if c >= kFrozen { assert cents'[c] == cents'[kFrozen..][c - kFrozen]; }
      else { assert cents'[c] == cents'[..kFrozen][c] == cents[..kFrozen][c]; }
    }
  }

  /** One update of the centroids: means, then refilling of the empty clusters. */
  method UpdateCentroids(data: Data, assign: seq<nat>, kFrozen: nat, nt: nat,
                         pick: SplitClusters.Draws, centroids: array<Vec>)
    returns (r: Result<nat>, ghost splits: seq<SplitClusters.Move>)
    requires data.Valid() && AreCentroids(data, centroids[..]) && IsAssignment(data, assign, centroids.Length)
    requires nt > 0 && kFrozen <= centroids.Length < |data.x| && SplitClusters.LeadsToSplit(pick)
    modifies centroids
    ensures AreCentroids(data, centroids[..])
    ensures r.Ok? ==> r.value == |splits| && IsUpdate(data, assign, kFrozen, old(centroids[..]), centroids[..], splits)
    ensures r.Ok? <==> SplitClusters.CanRefill(Updated(data, assign, kFrozen, centroids.Length).mass)
  {
    ghost var cents := centroids[..];
    var hassign := new real[centroids.Length](_ => 0.0);
    ComputeCentroids(data, assign, kFrozen, nt, hassign, centroids);
    ghost var means := centroids[..];
    ghost var k := centroids.Length;
    assert means[..kFrozen] == cents[..kFrozen];
    ghost var s0 := Updated(data, assign, kFrozen, k);
    assert hassign[..k - kFrozen] == s0.mass && centroids[kFrozen..] == s0.center;
    r, splits := SplitClusters.SplitClusters(data.d, |data.x|, kFrozen, pick, hassign, centroids);
    ghost var s := SplitClusters.SplitAll(s0, splits);
    assert SplitClusters.Clusters(hassign[..k - kFrozen], centroids[kFrozen..]) == s;
    SplitKeepsDimension(s0, splits, data.d);
    UpdateKeepsDimension(data, cents, centroids[..], kFrozen);
  }

  /** Updates that fail although there are more points than clusters: with a frozen centroid that
      takes all the points, and with points of little weight. */
  method UpdatesThatFail(nt: nat, pick: SplitClusters.Draws) returns (frozen: Result<nat>, weighted: Result<nat>)
    requires nt > 0 && SplitClusters.LeadsToSplit(pick)
    ensures frozen.Error? && weighted.Error?
  {
    FrozenCanGetStuck();
    WeightedCanGetStuck();
    var cents := new Vec[2][[0.0], [1.0]];
    ghost var splits;
    frozen, splits := UpdateCentroids(Data(1, [[0.0], [0.0], [0.0]], None), [0, 0, 0], 1, nt, pick, cents);
    var weights := Some([0.25, 0.25, 0.25]);
    cents := new Vec[2][[0.0], [1.0]];
    weighted, splits := UpdateCentroids(Data(1, [[0.0], [0.0], [0.0]], weights), [0, 0, 0], 0, nt, pick, cents);
  }

  lemma {:induction false} SplitKeepsDimension(s: SplitClusters.Clusters, splits: seq<SplitClusters.Move>, d: nat)
    requires s.Valid(d) && SplitClusters.CanSplitAll(s, splits)
    ensures SplitClusters.SplitAll(s, splits).Valid(d)
    decreases |splits|
  {
    if splits != [] { SplitKeepsDimension(s.Split(splits[0].dst, splits[0].src), splits[1..], d); }
  }

  /** `niter` iterations of k-means from the given centroids. */
  method Iterate(data: Data, kFrozen: nat, nt: nat, niter: nat, search: seq<Vec> -> seq<nat>,
                 pick: SplitClusters.Draws, centroids: array<Vec>)
    returns (r: Result<seq<Stats>>, ghost trail: Trail)
    requires data.Valid() && AreCentroids(data, centroids[..])
    requires nt > 0 && kFrozen <= centroids.Length < |data.x|
    requires Exact(data, centroids.Length, search) && SplitClusters.LeadsToSplit(pick)
    modifies centroids
    ensures AreCentroids(data, centroids[..])
    ensures trail.Valid(data, kFrozen, search) && trail.cents[0] == old(centroids[..])
    ensures r.Ok? ==> trail.Final() == centroids[..] && trail.stats == r.value && |r.value| == niter
    ensures r.Error? ==> |trail.stats| < niter && Stuck(data, kFrozen, search, trail)
    ensures data.weights.None? && kFrozen == 0 ==> r.Ok?
  {
    var stats: seq<Stats> := [];
    trail := Trail([centroids[..]], [], []);
    var i := 0;
    while i < niter
      invariant 0 <= i <= niter && |stats| == i
      invariant AreCentroids(data, centroids[..])
      invariant trail.Valid(data, kFrozen, search) && trail.cents[0] == old(centroids[..])
      invariant trail.Final() == centroids[..] && trail.stats == stats
    {
      ghost var cents := centroids[..];
      var assign := search(centroids[..]);
      var obj := SumDistances(data, centroids[..], assign);
      var nsplit;
      ghost var splits;
      nsplit, splits := UpdateCentroids(data, assign, kFrozen, nt, pick, centroids);
      if data.weights.None? && kFrozen == 0 { UnweightedCanRefill(data, assign, centroids.Length); }
      if nsplit.Error? {
        return Error("no cluster to split"), trail;
      }
      TrailGrows(data, kFrozen, search, trail, centroids[..], splits);
      trail := trail.Grown(centroids[..], splits, Stats(obj, nsplit.value));
      stats := stats + [Stats(obj, nsplit.value)];
      i := i + 1;
    }
    r := Ok(stats);
  }

  /** What an iteration reports. */
  ghost function Reported(data: Data, cents: seq<Vec>, assign: seq<nat>, splits: seq<SplitClusters.Move>): Stats
    requires data.Valid() && AreCentroids(data, cents) && IsAssignment(data, assign, |cents|)
  {
    Stats(Objective(data.Plain(), cents, assign, |assign|), |splits|)
  }

  lemma TrailGrows(data: Data, kFrozen: nat, search: seq<Vec> -> seq<nat>, trail: Trail, cents: seq<Vec>,
                   splits: seq<SplitClusters.Move>)
    requires data.Valid() && trail.Valid(data, kFrozen, search)
    requires IsNearest(data, trail.Final(), search(trail.Final())) && AreCentroids(data, cents)
    requires IsUpdate(data, search(trail.Final()), kFrozen, trail.Final(), cents, splits)
    ensures trail.Grown(cents, splits, Reported(data, trail.Final(), search(trail.Final()), splits))
              .Valid(data, kFrozen, search)
  {
    var n := |trail.stats|;
    var more := trail.Grown(cents, splits, Reported(data, trail.Final(), search(trail.Final()), splits));
    forall i: nat | i < n + 1 ensures more.IsIteration(data, kFrozen, search, i) {
      if i < n {
        assert trail.IsIteration(data, kFrozen, search, i) && trail.stats[i] == more.stats[i];
        assert more.cents[i] == trail.cents[i] && more.cents[i + 1] == trail.cents[i + 1];
      } else {
        assert more.cents[n] == trail.Final() && more.cents[n + 1] == cents;
      }
    }
  }

  /** Restart `b` had the lowest final objective, and no earlier one had it too. */
  ghost predicate IsBest(trails: seq<Trail>, b: nat) {
    && b < |trails|
    && (forall i :: 0 <= i < |trails| ==> trails[b].LastObjective() <= trails[i].LastObjective())
    && (forall i :: 0 <= i < b ==> trails[b].LastObjective() < trails[i].LastObjective())
  }

  /** A restart begins with the centroids `kept` and training points drawn by `perm`. */
  ghost predicate IsRestart(data: Data, k: nat, kFrozen: nat, niter: nat, search: seq<Vec> -> seq<nat>,
                            kept: seq<Vec>, perm: seq<nat>, trail: Trail)
  {
    Begins(data, k, kFrozen, search, kept, perm, trail) && |trail.stats| == niter
  }

  ghost predicate Begins(data: Data, k: nat, kFrozen: nat, search: seq<Vec> -> seq<nat>,
                         kept: seq<Vec>, perm: seq<nat>, trail: Trail)
  {
    && trail.Valid(data, kFrozen, search)
    && |kept| <= |trail.cents[0]| == k <= |data.x| && IsPermutation(perm, |data.x|)
    && trail.cents[0][..|kept|] == kept
    && forall c :: |kept| <= c < k ==> trail.cents[0][c] == data.x[perm[c]]
  }

  /** The first ones of the centroids are those provided, as the restart before leaves them. */
  ghost function Kept(inputs: seq<Vec>, trails: seq<Trail>, i: nat): seq<Vec> {
    if 0 < i <= |trails| && |inputs| <= |trails[i - 1].Final()|
    then trails[i - 1].Final()[..|inputs|] else inputs
  }

  ghost predicate RestartAt(data: Data, k: nat, kFrozen: nat, niter: nat, search: seq<Vec> -> seq<nat>,
                            inputs: seq<Vec>, perms: nat -> seq<nat>, trails: seq<Trail>, i: nat)
  {
    i < |trails| && IsRestart(data, k, kFrozen, niter, search, Kept(inputs, trails, i), perms(i), trails[i])
  }

  /** The restarts, one after the other. */
  ghost predicate AreRestarts(data: Data, k: nat, kFrozen: nat, niter: nat, search: seq<Vec> -> seq<nat>,
                              inputs: seq<Vec>, perms: nat -> seq<nat>, trails: seq<Trail>)
  {
    forall i: nat :: i < |trails| ==> RestartAt(data, k, kFrozen, niter, search, inputs, perms, trails, i)
  }

  /** Everything that the restarts reported. */
  ghost function Reports(trails: seq<Trail>): seq<Stats> {
    if trails == [] then [] else Reports(trails[..|trails| - 1]) + trails[|trails| - 1].stats
  }

  /** The place of report `j` of restart `i` lies within the reports of `n` restarts. */
  lemma ReportPlace(niter: nat, i: nat, j: nat, n: nat)
    requires i < n && j < niter
    ensures 0 <= i * niter && i * niter + j < (i + 1) * niter <= n * niter
  {
    MulMonotone(niter, i + 1, n);
  }

  lemma {:induction false} ReportsAt(trails: seq<Trail>, niter: nat, i: nat, j: nat)
    requires i < |trails| && j < niter && forall h :: 0 <= h < |trails| ==> |trails[h].stats| == niter
    ensures |Reports(trails)| == |trails| * niter && 0 <= i * niter && i * niter + j < |trails| * niter
    ensures Reports(trails)[i * niter + j] == trails[i].stats[j]
  {
    var last, init := |trails| - 1, trails[..|trails| - 1];
    ReportPlace(niter, i, j, |trails|);
    var place := i * niter + j;
    ReportsLength(init, niter);
    if i < last {
      ReportsAt(init, niter, i, j);
      assert Reports(trails)[place] == Reports(init)[place];
    } else {
      assert Reports(trails)[place] == trails[last].stats[j];
    }
  }

  lemma {:induction false} ReportsLength(trails: seq<Trail>, niter: nat)
    requires forall h :: 0 <= h < |trails| ==> |trails[h].stats| == niter
    ensures |Reports(trails)| == |trails| * niter
  {
    if trails != [] {
      ReportsLength(trails[..|trails| - 1], niter);
      var last := |trails| - 1;
      assert (last + 1) * niter == last * niter + niter;
    }
  }

  /** The best restart is the first one with the lowest objective in its last report. */
  lemma BestMeans(trails: seq<Trail>, niter: nat, b: nat)
    requires IsBest(trails, b) && forall i :: 0 <= i < |trails| ==> |trails[i].stats| == niter
    ensures niter == 0 ==> b == 0
    ensures niter > 0 ==> forall i :: 0 <= i < |trails| ==>
              && trails[b].stats[niter - 1].obj <= trails[i].stats[niter - 1].obj
              && (i < b ==> trails[b].stats[niter - 1].obj < trails[i].stats[niter - 1].obj)
  {
    assert forall i :: 0 <= i < |trails| ==>
             trails[i].LastObjective() == if niter == 0 then 0.0 else trails[i].stats[niter - 1].obj;
    var first := trails[0].LastObjective();
  }

  lemma RestartSizes(data: Data, k: nat, kFrozen: nat, niter: nat, search: seq<Vec> -> seq<nat>,
                     inputs: seq<Vec>, perms: nat -> seq<nat>, trails: seq<Trail>)
    requires AreRestarts(data, k, kFrozen, niter, search, inputs, perms, trails)
    ensures forall i :: 0 <= i < |trails| ==> |trails[i].stats| == niter && |trails[i].cents| == niter + 1
    ensures forall i :: 0 <= i < |trails| ==> |trails[i].cents[0]| == |trails[i].cents[niter]| == k
  {
    forall i: nat | i < |trails|
      ensures |trails[i].stats| == niter && |trails[i].cents| == niter + 1
      ensures |trails[i].cents[0]| == |trails[i].cents[niter]| == k
    {
      assert RestartAt(data, k, kFrozen, niter, search, inputs, perms, trails, i);
    }
  }

  lemma RestartBegins(data: Data, k: nat, kFrozen: nat, niter: nat, search: seq<Vec> -> seq<nat>,
                      inputs: seq<Vec>, perms: nat -> seq<nat>, trails: seq<Trail>, i: nat)
    requires AreRestarts(data, k, kFrozen, niter, search, inputs, perms, trails) && i < |trails|
    requires trails[i].cents != [] && |trails[i].cents[0]| == k
    requires i > 0 ==> |trails[i - 1].cents| == niter + 1 && |trails[i - 1].cents[niter]| == k
    ensures |inputs| <= k <= |data.x| == |perms(i)|
    ensures forall c :: |inputs| <= c < k ==> perms(i)[c] < |data.x| && trails[i].cents[0][c] == data.x[perms(i)[c]]
    ensures i == 0 ==> forall c :: 0 <= c < |inputs| ==> trails[i].cents[0][c] == inputs[c]
    ensures i > 0 ==> forall c :: 0 <= c < |inputs| ==> trails[i].cents[0][c] == trails[i - 1].cents[niter][c]
  {
    var kept := Kept(inputs, trails, i);
    assert RestartAt(data, k, kFrozen, niter, search, inputs, perms, trails, i);
    assert RestartAt(data, k, kFrozen, niter, search, inputs, perms, trails, 0);
    assert |kept| == |inputs|;
    forall c | 0 <= c < |inputs| ensures trails[i].cents[0][c] == kept[c] {
      assert trails[i].cents[0][c] == trails[i].cents[0][..|inputs|][c];
    }
  }

  /** One more restart. */
  lemma RestartsGrow(data: Data, k: nat, kFrozen: nat, niter: nat, search: seq<Vec> -> seq<nat>,
                     inputs: seq<Vec>, perms: nat -> seq<nat>, trails: seq<Trail>, trail: Trail)
    requires data.Valid() && AreRestarts(data, k, kFrozen, niter, search, inputs, perms, trails)
    requires IsRestart(data, k, kFrozen, niter, search, Kept(inputs, trails, |trails|), perms(|trails|), trail)
    ensures AreRestarts(data, k, kFrozen, niter, search, inputs, perms, trails + [trail])
  {
    var more := trails + [trail];
    forall i: nat | i < |more| ensures RestartAt(data, k, kFrozen, niter, search, inputs, perms, more, i) {
      assert Kept(inputs, more, i) == Kept(inputs, trails, i);
      if i < |trails| {
        assert RestartAt(data, k, kFrozen, niter, search, inputs, perms, trails, i);
      }
    }
  }

  lemma BestGrows(trails: seq<Trail>, trail: Trail, b: nat)
    requires trails != [] ==> IsBest(trails, b)
    ensures IsBest(trails + [trail],
                   if trails == [] || trail.LastObjective() < trails[b].LastObjective() then |trails| else b)
  {
  }

  lemma Prefixes<T>(s: seq<T>, x: T, n: nat)
    requires n <= |s|
    ensures (s + [x])[..n] == s[..n] && (s + [x])[..|s|] == s && (s + [x])[..|s| + 1] == s + [x]
  {
  }

  /** The centroids, the last objective and the reports that are kept for later. */
  type Best = Option<(seq<Vec>, real, seq<Stats>)>

  /** What is remembered of the best restart so far, when there are several. */
  ghost predicate Remembers(several: bool, best: Best, k: nat, stats0: seq<Stats>,
                            trails: seq<Trail>, b: nat)
  {
    if trails == [] then b == 0 && best.None?
    else
      && IsBest(trails, b) && |trails[b].Final()| == k && (several || |trails| == 1)
      && best == if several then Some((trails[b].Final(), trails[b].LastObjective(), stats0 + Reports(trails[..b + 1])))
                 else None
  }

  lemma RemembersOld(several: bool, best: Best, k: nat, stats0: seq<Stats>,
                     trails: seq<Trail>, b: nat, trail: Trail)
    requires several && Remembers(several, best, k, stats0, trails, b)
    requires trails != [] && best.value.1 <= trail.LastObjective()
    ensures Remembers(several, best, k, stats0, trails + [trail], b)
  {
    BestGrows(trails, trail, b);
    Prefixes(trails, trail, b + 1);
  }

  lemma RemembersNew(several: bool, best: Best, k: nat, stats0: seq<Stats>,
                     trails: seq<Trail>, b: nat, trail: Trail, stats: seq<Stats>)
    requires Remembers(several, best, k, stats0, trails, b) && |trail.Final()| == k
    requires if several then best.None? || trail.LastObjective() < best.value.1 else trails == []
    requires stats == stats0 + Reports(trails + [trail])
    ensures Remembers(several, if several then Some((trail.Final(), trail.LastObjective(), stats)) else None, k, stats0,
                      trails + [trail], |trails|)
  {
    BestGrows(trails, trail, b);
    Prefixes(trails, trail, 0);
  }

  class Clustering {
    const k: nat
    const niter: nat
    const nredo: nat
    const frozenCentroids: bool
    var centroids: array<Vec>   // on input, the initial centroids that the caller provides
    var iterationStats: seq<Stats>

    constructor (k: nat, niter: nat, nredo: nat, frozenCentroids: bool, inputs: array<Vec>)
      ensures this.k == k && this.niter == niter && this.nredo == nredo
      ensures this.frozenCentroids == frozenCentroids && centroids == inputs && iterationStats == []
    {
      this.k, this.niter, this.nredo := k, niter, nredo;
      this.frozenCentroids := frozenCentroids;
      centroids := inputs;
      iterationStats := [];
    }

    /** Keep the first centroids and draw the others from the training points. */
    method Initialize(data: Data, nInput: nat, perm: seq<nat>)
      requires data.Valid() && nInput <= centroids.Length <= |data.x| && IsPermutation(perm, |data.x|)
      requires forall c :: 0 <= c < nInput ==> |centroids[c]| == data.d
      modifies centroids
      ensures AreCentroids(data, centroids[..])
      ensures centroids[..nInput] == old(centroids[..nInput])
      ensures forall c :: nInput <= c < centroids.Length ==> centroids[c] == data.x[perm[c]]
    {
      var i := nInput;
      while i < centroids.Length
        invariant nInput <= i <= centroids.Length
        invariant centroids[..nInput] == old(centroids[..nInput])
        invariant forall c :: 0 <= c < nInput ==> centroids[c] == old(centroids[c])
        invariant forall c :: nInput <= c < i ==> centroids[c] == data.x[perm[c]]
      {
        centroids[i] := data.x[perm[i]];
        i := i + 1;
      }
    }

    /** Train on `data`. `perms(redo)` is the order in which restart `redo` draws points.
        `trails` are the histories of the restarts and `b` is the one that was kept. */
    method Train(data: Data, nt: nat, search: seq<Vec> -> seq<nat>, pick: SplitClusters.Draws,
                 perms: nat -> seq<nat>)
      returns (r: Result<()>, ghost trails: seq<Trail>, ghost b: nat)
      requires data.Valid() && AreCentroids(data, centroids[..])
      // more frozen centroids than clusters make the loops over the other ones run out of bounds
      requires frozenCentroids && |data.x| > k && nredo > 0 && niter > 0 ==> centroids.Length <= k
      requires nt > 0 && Exact(data, k, search) && SplitClusters.LeadsToSplit(pick)
      requires forall redo :: IsPermutation(perms(redo), |data.x|)
      modifies this, centroids
      ensures |data.x| < k ==> r.Error? && centroids == old(centroids) && centroids[..] == old(centroids[..])
                               && iterationStats == old(iterationStats)
      ensures |data.x| == k ==> r.Ok? && centroids[..] == data.x
                                && iterationStats == old(iterationStats) + [Stats(0.0, 0)]
      ensures |data.x| > k && nredo == 0 ==>
                r.Ok? && centroids == old(centroids) && centroids[..] == old(centroids[..])
                && iterationStats == old(iterationStats)
      ensures |data.x| > k && nredo > 0 && r.Ok? ==>
                Trained(data, search, Cut(old(centroids[..])), perms, old(iterationStats), trails, b)
      // The restart that is kept is the first one with the lowest objective in its last report.
      ensures |data.x| > k && nredo > 0 && r.Ok? ==>
                b < nredo == |trails| && forall i :: 0 <= i < nredo ==> |trails[i].stats| == niter
      ensures |data.x| > k && nredo > 0 && r.Ok? && niter > 0 ==> forall i :: 0 <= i < nredo ==>
                && trails[b].stats[niter - 1].obj <= trails[i].stats[niter - 1].obj
                && (i < b ==> trails[b].stats[niter - 1].obj < trails[i].stats[niter - 1].obj)
      // Frozen centroids stay as they were provided.
      ensures |data.x| > k && r.Ok? && nredo > 0 && frozenCentroids ==>
                centroids.Length == k &&
                forall c :: 0 <= c < k && c < |old(centroids[..])| ==> centroids[c] == old(centroids[..])[c]
      ensures |data.x| > k && r.Error? ==> Failed(data, search, Cut(old(centroids[..])), perms, trails)
      ensures |data.x| >= k && data.weights.None? && !frozenCentroids ==> r.Ok?
    {
      trails, b := [], 0;
      if !(|data.x| >= k) {
        return Error("too few training points"), trails, b;
      }
      if |data.x| == k {
        // corner case: just copy the training set
        var copy := new Vec[k](c requires 0 <= c < k && |data.x| == k => data.x[c]);
        centroids := copy;
        iterationStats := iterationStats + [Stats(0.0, 0)];
        assert centroids[..] == data.x;
        return Ok(()), trails, b;
      }
      if nredo == 0 {
        return Ok(()), trails, b;
      }
      r, trails, b := Restart(data, nt, search, pick, perms);
      if r.Ok? {
        ghost var inputs := Cut(old(centroids[..]));
        RestartSizes(data, k, KFrozen(|inputs|), niter, search, inputs, perms, trails);
        BestMeans(trails, niter, b);
        if frozenCentroids {
          TrainedKeepsFrozen(data, search, inputs, perms, old(iterationStats), trails, b, b, niter);
        }
      }
    }

    /** The restarts in turn: each begins with the centroids provided, as the restart before it left them, and with
        training points in the order drawn for it. The centroids are those that the restart kept ends with. */
    lemma TrainedMeans(data: Data, search: seq<Vec> -> seq<nat>, inputs: seq<Vec>, perms: nat -> seq<nat>,
                       stats: seq<Stats>, trails: seq<Trail>, b: nat, i: nat)
      requires Trained(data, search, inputs, perms, stats, trails, b) && i < nredo
      ensures b < nredo == |trails| && |trails[b].cents| == niter + 1 && centroids[..] == trails[b].cents[niter]
      ensures |inputs| <= k <= |data.x| == |perms(i)| && trails[i].cents != [] && |trails[i].cents[0]| == k
      ensures forall c :: |inputs| <= c < k ==> perms(i)[c] < |data.x| && trails[i].cents[0][c] == data.x[perms(i)[c]]
      ensures i == 0 ==> forall c :: 0 <= c < |inputs| ==> trails[i].cents[0][c] == inputs[c]
      ensures i > 0 ==> |trails[i - 1].cents| == niter + 1 && |trails[i - 1].cents[niter]| == k
      ensures i > 0 ==> forall c :: 0 <= c < |inputs| ==> trails[i].cents[0][c] == trails[i - 1].cents[niter][c]
    {
      RestartSizes(data, k, KFrozen(|inputs|), niter, search, inputs, perms, trails);
      RestartBegins(data, k, KFrozen(|inputs|), niter, search, inputs, perms, trails, i);
    }

    /** What each iteration of each restart does. */
    lemma TrainedUpdates(data: Data, search: seq<Vec> -> seq<nat>, inputs: seq<Vec>, perms: nat -> seq<nat>,
                         stats: seq<Stats>, trails: seq<Trail>, b: nat, i: nat, h: nat)
      requires data.Valid() && Trained(data, search, inputs, perms, stats, trails, b) && i < nredo && h < niter
      ensures |trails[i].cents| == niter + 1 && |trails[i].splits| == |trails[i].stats| == niter
      ensures |inputs| <= k == |trails[i].cents[h]|
      ensures AreCentroids(data, trails[i].cents[h])
              && IsNearest(data, trails[i].cents[h], search(trails[i].cents[h]))
      ensures trails[i].stats[h].nsplit == |trails[i].splits[h]|
      ensures trails[i].stats[h].obj
              == Objective(data.Plain(), trails[i].cents[h], search(trails[i].cents[h]), |data.x|)
      ensures IsUpdate(data, search(trails[i].cents[h]), if frozenCentroids then |inputs| else 0,
                       trails[i].cents[h], trails[i].cents[h + 1], trails[i].splits[h])
    {
      assert RestartAt(data, k, KFrozen(|inputs|), niter, search, inputs, perms, trails, i);
      TrailMeans(data, KFrozen(|inputs|), search, trails[i], h);
    }

    /** Frozen centroids are the same in all restarts and iterations. */
    lemma {:induction false} TrainedKeepsFrozen(data: Data, search: seq<Vec> -> seq<nat>, inputs: seq<Vec>,
                                                perms: nat -> seq<nat>, stats: seq<Stats>, trails: seq<Trail>,
                                                b: nat, i: nat, h: nat)
      requires data.Valid() && Trained(data, search, inputs, perms, stats, trails, b)
      requires frozenCentroids && i < nredo && h <= niter
      ensures |trails[i].cents| == niter + 1 && |inputs| <= |trails[i].cents[h]|
      ensures forall c :: 0 <= c < |inputs| ==> trails[i].cents[h][c] == inputs[c]
      decreases i
    {
      TrainedMeans(data, search, inputs, perms, stats, trails, b, i);
      if i > 0 { TrainedKeepsFrozen(data, search, inputs, perms, stats, trails, b, i - 1, niter); }
      assert RestartAt(data, k, KFrozen(|inputs|), niter, search, inputs, perms, trails, i);
      var first, now := trails[i].cents[0], trails[i].cents[h];
      TrailKeepsFrozen(data, |inputs|, search, trails[i], h);
      assert forall c :: 0 <= c < |inputs| ==> now[c] == now[..|inputs|][c] == first[..|inputs|][c];
    }

    /** The reports are those of the restarts up to the one that is kept, `niter` for each. */
    lemma TrainedReports(data: Data, search: seq<Vec> -> seq<nat>, inputs: seq<Vec>, perms: nat -> seq<nat>,
                         stats: seq<Stats>, trails: seq<Trail>, b: nat, i: nat, j: nat)
      requires Trained(data, search, inputs, perms, stats, trails, b) && i <= b && j < niter
      ensures b < |trails| && |trails[i].stats| == niter
      ensures 0 <= i * niter && i * niter + j < (b + 1) * niter == |iterationStats| - |stats|
      ensures iterationStats[..|stats|] == stats && iterationStats[|stats| + i * niter + j] == trails[i].stats[j]
    {
      RestartSizes(data, k, KFrozen(|inputs|), niter, search, inputs, perms, trails);
      ReportsAt(trails[..b + 1], niter, i, j);
    }

    /** The centroids provided, without those for which there is no cluster. */
    function Cut(cents: seq<Vec>): (r: seq<Vec>)
      ensures r <= cents && |r| == if |cents| > k then k else |cents|
    {
      if |cents| > k then cents[..k] else cents
    }

    function KFrozen(nInput: nat): nat {
      if frozenCentroids then nInput else 0
    }

    /** The centroids are those of the first restart with the lowest last objective, or of the only
        one, and the reports are those up to that restart. */
    ghost predicate Trained(data: Data, search: seq<Vec> -> seq<nat>, inputs: seq<Vec>, perms: nat -> seq<nat>,
                            stats: seq<Stats>, trails: seq<Trail>, b: nat)
      reads this, centroids
    {
      && |trails| == nredo && AreRestarts(data, k, KFrozen(|inputs|), niter, search, inputs, perms, trails)
      && IsBest(trails, b)
      && centroids[..] == trails[b].Final()
      && iterationStats == stats + Reports(trails[..b + 1])
    }

    /** The last restart came to an iteration whose masses do not allow the splits it needs. */
    ghost predicate Failed(data: Data, search: seq<Vec> -> seq<nat>, inputs: seq<Vec>, perms: nat -> seq<nat>,
                           trails: seq<Trail>)
    {
      && 0 < |trails| <= nredo
      && var redo := |trails| - 1;
         && AreRestarts(data, k, KFrozen(|inputs|), niter, search, inputs, perms, trails[..redo])
         && Begins(data, k, KFrozen(|inputs|), search, Kept(inputs, trails[..redo], redo), perms(redo), trails[redo])
         && |trails[redo].stats| < niter
         && Stuck(data, KFrozen(|inputs|), search, trails[redo])
    }

    /** The state between two restarts. */
    ghost predicate Going(data: Data, search: seq<Vec> -> seq<nat>, inputs: seq<Vec>, perms: nat -> seq<nat>,
                          stats0: seq<Stats>, cents: seq<Vec>, stats: seq<Stats>,
                          trails: seq<Trail>, best: Best, b: nat)
    {
      && |inputs| <= |cents| == k
      && AreRestarts(data, k, KFrozen(|inputs|), niter, search, inputs, perms, trails)
      && cents[..|inputs|] == Kept(inputs, trails, |trails|)
      && (forall c :: 0 <= c < |inputs| ==> |cents[c]| == data.d)
      && (trails != [] ==> cents == trails[|trails| - 1].Final())
      && stats == stats0 + Reports(trails)
      && Remembers(nredo > 1, best, k, stats0, trails, b)
    }

    /** All the restarts. */
    method Restart(data: Data, nt: nat, search: seq<Vec> -> seq<nat>, pick: SplitClusters.Draws,
                   perms: nat -> seq<nat>)
      returns (r: Result<()>, ghost trails: seq<Trail>, ghost b: nat)
      requires data.Valid() && AreCentroids(data, centroids[..])
      requires frozenCentroids && niter > 0 ==> centroids.Length <= k
      requires nt > 0 && Exact(data, k, search) && SplitClusters.LeadsToSplit(pick)
      requires forall redo :: IsPermutation(perms(redo), |data.x|)
      requires |data.x| > k && nredo > 0
      modifies this, centroids
      ensures r.Ok? ==> Trained(data, search, Cut(old(centroids[..])), perms, old(iterationStats), trails, b)
      ensures r.Error? ==> Failed(data, search, Cut(old(centroids[..])), perms, trails)
      ensures data.weights.None? && !frozenCentroids ==> r.Ok?
    {
      trails, b := [], 0;
      var nInput := if centroids.Length > k then k else centroids.Length;
      ghost var inputs, stats0 := Cut(centroids[..]), iterationStats;
      Resize();
      var best: Best := None;
      var redo := 0;
      assert Going(data, search, inputs, perms, stats0, centroids[..], iterationStats, trails, best, b);
      while redo < nredo
        invariant 0 <= redo <= nredo && |trails| == redo && fresh(centroids)
        invariant Going(data, search, inputs, perms, stats0, centroids[..], iterationStats, trails, best, b)
      {
        var ok;
        ok, best, trails, b :=
          NextRestart(data, nInput, nt, search, pick, perms, redo, inputs, stats0, trails, best, b);
        if !ok {
          return Error("no cluster to split"), trails, b;
        }
        redo := redo + 1;
      }
      assert trails[..|trails|] == trails;
      if nredo > 1 {
        UseBest(best.value.0, best.value.2);
      }
      r := Ok(());
    }

    method UseBest(kept: seq<Vec>, stats: seq<Stats>)
      requires |kept| == k
      modifies this
      ensures fresh(centroids) && centroids[..] == kept && iterationStats == stats
    {
      var copy := new Vec[k](c requires 0 <= c < k && |kept| == k => kept[c]);
      centroids := copy;
      iterationStats := stats;
      assert centroids[..] == kept;
    }

    /** Run one more restart and remember it if it is the best so far. */
    method NextRestart(data: Data, nInput: nat, nt: nat, search: seq<Vec> -> seq<nat>, pick: SplitClusters.Draws,
                       perms: nat -> seq<nat>, redo: nat, ghost inputs: seq<Vec>, ghost stats0: seq<Stats>,
                       ghost trails: seq<Trail>, best: Best, ghost b: nat)
      returns (ok: bool, best': Best, ghost trails': seq<Trail>, ghost b': nat)
      requires data.Valid() && |data.x| > k && nInput == |inputs| && redo == |trails| < nredo
      requires nt > 0 && Exact(data, k, search) && SplitClusters.LeadsToSplit(pick)
      requires IsPermutation(perms(redo), |data.x|)
      requires Going(data, search, inputs, perms, stats0, centroids[..], iterationStats, trails, best, b)
      modifies this`iterationStats, centroids
      ensures ok ==> |trails'| == redo + 1
                     && Going(data, search, inputs, perms, stats0, centroids[..], iterationStats, trails', best', b')
      ensures !ok ==> Failed(data, search, inputs, perms, trails')
      ensures data.weights.None? && !frozenCentroids ==> ok
    {
      var stats, obj;
      ghost var trail;
      ghost var cents, was := centroids[..], iterationStats;
      stats, obj, trail := RunOnce(data, nInput, nt, search, pick, perms, redo, inputs, trails);
      ok, best', trails', b' := stats.Ok?, best, trails + [trail], b;
      if ok {
        iterationStats := iterationStats + stats.value;
        if nredo > 1 && (best.None? || obj < best.value.1) {
          best' := Some((centroids[..], obj, iterationStats));
        }
        b' := RestartDone(data, search, inputs, perms, stats0, cents, was, trails, best, b, centroids[..], trail);
      } else {
        assert trails'[..redo] == trails;
      }
    }

    /** The state after one more restart. */
    lemma RestartDone(data: Data, search: seq<Vec> -> seq<nat>, inputs: seq<Vec>, perms: nat -> seq<nat>,
                      stats0: seq<Stats>, cents: seq<Vec>, stats: seq<Stats>, trails: seq<Trail>,
                      best: Best, b: nat, cents': seq<Vec>, trail: Trail)
      returns (b': nat)
      requires data.Valid() && |trails| < nredo
      requires Going(data, search, inputs, perms, stats0, cents, stats, trails, best, b)
      requires AreRestarts(data, k, KFrozen(|inputs|), niter, search, inputs, perms, trails + [trail])
      requires |cents'| == k && cents' == trail.Final()
      requires forall c :: 0 <= c < |inputs| ==> |cents'[c]| == data.d
      ensures var best' := if nredo > 1 && (best.None? || trail.LastObjective() < best.value.1)
                           then Some((cents', trail.LastObjective(), stats + trail.stats)) else best;
              Going(data, search, inputs, perms, stats0, cents', stats + trail.stats, trails + [trail], best', b')
    {
      Prefixes(trails, trail, 0);
      assert Reports(trails + [trail]) == Reports(trails) + trail.stats;
      Associate(stats0, Reports(trails), trail.stats);
      if nredo > 1 && best.Some? && best.value.1 <= trail.LastObjective() {
        RemembersOld(nredo > 1, best, k, stats0, trails, b, trail);
        b' := b;
      } else {
        RemembersNew(nredo > 1, best, k, stats0, trails, b, trail, stats + trail.stats);
        b' := |trails|;
      }
    }

    /** One restart: initialise, then iterate. */
    method RunOnce(data: Data, nInput: nat, nt: nat, search: seq<Vec> -> seq<nat>, pick: SplitClusters.Draws,
                   perms: nat -> seq<nat>, redo: nat, ghost inputs: seq<Vec>, ghost trails: seq<Trail>)
      returns (r: Result<seq<Stats>>, obj: real, ghost trail: Trail)
      requires data.Valid() && nInput == |inputs| <= centroids.Length == k < |data.x| && redo == |trails|
      requires forall c :: 0 <= c < nInput ==> |centroids[c]| == data.d
      requires nt > 0 && Exact(data, k, search) && SplitClusters.LeadsToSplit(pick)
      requires IsPermutation(perms(redo), |data.x|)
      requires AreRestarts(data, k, KFrozen(nInput), niter, search, inputs, perms, trails)
      requires centroids[..nInput] == Kept(inputs, trails, redo)
      modifies centroids
      ensures forall c :: 0 <= c < nInput ==> |centroids[c]| == data.d
      ensures r.Ok? ==> AreRestarts(data, k, KFrozen(nInput), niter, search, inputs, perms, trails + [trail])
      ensures r.Ok? ==> trail.Final() == centroids[..] && trail.stats == r.value && obj == trail.LastObjective()
      ensures r.Error? ==>
                && Begins(data, k, KFrozen(nInput), search, Kept(inputs, trails, redo), perms(redo), trail)
                && |trail.stats| < niter && Stuck(data, KFrozen(nInput), search, trail)
      ensures data.weights.None? && !frozenCentroids ==> r.Ok?
    {
      Initialize(data, nInput, perms(redo));
      obj := 0.0;
      r, trail := Iterate(data, KFrozen(nInput), nt, niter, search, pick, centroids);
      if r.Ok? {
        obj := if niter > 0 then r.value[niter - 1].obj else 0.0;
        RestartsGrow(data, k, KFrozen(nInput), niter, search, inputs, perms, trails, trail);
      }
    }

    /** Make room for `k` centroids, of which those provided are the first. */
    method Resize()
      modifies this`centroids
      ensures fresh(centroids) && centroids.Length == k
      ensures centroids[..|Cut(old(centroids[..]))|] == Cut(old(centroids[..]))
    {
      var was := centroids;
      var copy := new Vec[k](_ => []);
      var i := 0;
      while i < was.Length && i < k
        invariant 0 <= i <= was.Length && i <= k
        invariant copy[..i] == was[..i]
      {
        copy[i] := was[i];
        i := i + 1;
      }
      centroids := copy;
    }
  }
}
