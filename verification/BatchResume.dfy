/** Checkpoints of the threaded batch search (contrib/big_batch_search.py): what a save puts on disk, and
    what a restart takes from there. */
module BatchResume {
  import opened Basics
  import opened TopK
  import opened Bags
  import opened BatchProtocol
  import opened BatchRuns

  /** Bucket `b` is in none of the queues, pools and threads. */
  ghost predicate Nowhere(s: State, b: nat) {
    && b !in s.pending && b !in s.preparing && Bucket(b) !in s.inQueue
    && (forall w :: 0 <= w < |s.workers| ==> s.workers[w] != Computing(b))
    && Bucket(b) !in s.outQueue && s.main != Holding(b)
  }

  lemma {:induction false} NotQueued(q: seq<Item>, b: nat)
    ensures InQueue(q, b) == 0 <==> Bucket(b) !in q
  {
    if q != [] { NotQueued(q[1..], b); }
  }

  lemma {:induction false} NotComputing(ws: seq<Worker>, b: nat)
    ensures InWorkers(ws, b) == 0 <==> Computing(b) !in ws
  {
    if ws != [] { NotComputing(ws[1..], b); }
  }

  lemma InFlightMeans(s: State, b: nat)
    ensures InFlight(s, b) == 0 <==> Nowhere(s, b)
  {
    OccursMember(s.pending, b);
    OccursMember(s.preparing, b);
    NotQueued(s.inQueue, b);
    NotComputing(s.workers, b);
    NotQueued(s.outQueue, b);
    assert Computing(b) !in s.workers <==> forall w :: 0 <= w < |s.workers| ==> s.workers[w] != Computing(b);
  }

  /** A completed bucket is not worked on any more. */
  lemma CompletedIsDone(c: Config, s: State, b: nat)
    requires Inv(c, s) && b in s.completed
    ensures Nowhere(s, b) && b in s.history
  {
    OccursMember(s.history, b);
    assert InFlight(s, b) + Occurs(s.history, b) <= 1;
    InFlightMeans(s, b);
  }

  // ---- a restart ----

  /** A restart goes on from the checkpoint if there is one, and from nothing otherwise. */
  lemma RestartResumes(c: Config, disk: Option<Checkpoint>)
    ensures var s := Start(c, disk);
            && s.disk == disk && s.temp == None && s.main == Polling && s.cursor == c.start
            && s.pending == [] && s.preparing == [] && s.inQueue == [] && s.outQueue == []
            && |s.workers| == c.computeThreads && (forall w :: 0 <= w < |s.workers| ==> s.workers[w] == Waiting)
            && !s.prepareDone && !s.computeDone
    ensures var s := Start(c, disk);
            if c.checkpointing && disk.Some?
            then s.completed == disk.value.completed && s.heap == disk.value.heap && s.history == disk.value.history
            else s.completed == {} && s.history == [] && |s.heap| == c.nq
                 && forall q :: 0 <= q < c.nq ==> s.heap[q] == []
  {
  }

  // ---- a save ----

  /** What would be saved now. */
  ghost function Present(s: State): Checkpoint {
    Checkpoint(s.completed, s.heap, s.history)
  }

  /** While the main thread saves, the temporary file holds the present state; what is on disk was completed. */
  ghost predicate Saves(c: Config, s: State) {
    && (s.main.Saving? ==> s.temp == Some(Present(s)))
    && (s.disk.Some? ==> c.checkpointing && s.disk.value.completed <= s.completed)
    && (s.main.Saving? ==> c.checkpointing)
  }

  /** A step, or a crash and a restart. What is on disk as completed stays completed and on disk. */
  lemma NextSaves(c: Config, s: State, t: State)
    requires Saves(c, s) && Next(c, s, t)
    ensures Saves(c, t)
    ensures s.disk.Some? ==> t.disk.Some? && s.disk.value.completed <= t.disk.value.completed
  {
    if Moves(c, s, t) {
      var step :| Enabled(c, s, step) && t == Apply(c, s, step);
      StepSaves(c, s, step);
    }
  }

  lemma StepSaves(c: Config, s: State, step: Step)
    requires Saves(c, s) && Enabled(c, s, step)
    ensures Saves(c, Apply(c, s, step))
    ensures var t := Apply(c, s, step);
            && (s.disk.Some? ==> t.disk.Some? && s.disk.value.completed <= t.disk.value.completed)
            && (t.disk != s.disk ==> s.main.Saving? && t.main == Polling)
            && (s.main.Saving? && !t.main.Saving? ==> t.disk == Some(Present(t)))
  {
  }

  lemma {:induction false} RunSaves(c: Config, run: seq<State>, n: nat)
    requires IsRun(c, run) && n < |run|
    ensures Saves(c, run[n])
  {
    if n > 0 {
      RunSaves(c, run, n - 1);
      assert Next(c, run[n - 1], run[(n - 1) + 1]);
      NextSaves(c, run[n - 1], run[n]);
    }
  }

  /** A checkpoint can be saved after each list, and must not; the save leaves the present state on disk. */
  lemma CanSave(c: Config, s: State)
    requires s.main.Deciding?
    ensures c.checkpointing ==>
              exists t, u :: Moves(c, s, t) && t.main.Saving? && t.disk == s.disk && Moves(c, t, u) && u.main == Polling
                             && u.disk == Some(Checkpoint(s.completed, s.heap, s.history))
    ensures exists t :: Moves(c, s, t) && t.main == Polling && t.disk == s.disk && t.completed == s.completed
  {
    var skipped := Apply(c, s, SkipCheckpoint);
    assert Enabled(c, s, SkipCheckpoint) && Moves(c, s, skipped);
    if c.checkpointing {
      assert Enabled(c, s, WriteTemp);
      var t := Apply(c, s, WriteTemp);
      assert Moves(c, s, t) && Enabled(c, t, ReplaceFile);
      var u := Apply(c, t, ReplaceFile);
      assert Moves(c, t, u);
    }
  }

  /** The file on disk changes only at the end of a save, and holds the completed lists and the heaps of that
      moment then. A save ends in no other way, except by a crash. */
  lemma DiskIsPresent(c: Config, run: seq<State>, i: nat)
    requires IsRun(c, run) && i + 1 < |run| && Moves(c, run[i], run[i + 1])
    ensures run[i + 1].disk != run[i].disk ==> run[i].main.Saving? && run[i + 1].main == Polling
    ensures run[i].main.Saving? && !run[i + 1].main.Saving? ==>
              run[i + 1].disk == Some(Checkpoint(run[i + 1].completed, run[i + 1].heap, run[i + 1].history))
  {
    var s, t := run[i], run[i + 1];
    RunSaves(c, run, i);
    var step :| Enabled(c, s, step) && t == Apply(c, s, step);
    StepSaves(c, s, step);
  }

  // ---- across crashes ----

  /** A list that is on disk as completed stays so: it is completed in every later state, on disk as well, ... */
  lemma {:induction false} SavedStaysCompleted(c: Config, run: seq<State>, i: nat, j: nat, b: nat)
    requires IsRun(c, run) && i <= j < |run| && run[i].disk.Some? && b in run[i].disk.value.completed
    ensures b in run[j].completed && run[j].disk.Some? && b in run[j].disk.value.completed
    decreases j - i
  {
    RunSaves(c, run, j);
    if i < j {
      SavedStaysCompleted(c, run, i, j - 1, b);
      RunSaves(c, run, j - 1);
      assert Next(c, run[j - 1], run[(j - 1) + 1]);
      NextSaves(c, run[j - 1], run[j]);
    }
  }

  /** ... and never computed again, whatever crashes follow. */
  lemma SavedIsNeverComputedAgain(c: Config, run: seq<State>, i: nat, j: nat, b: nat)
    requires IsRun(c, run) && i <= j < |run| && run[i].disk.Some? && b in run[i].disk.value.completed
    ensures b !in run[j].pending && b !in run[j].preparing && Bucket(b) !in run[j].inQueue
    ensures forall w :: 0 <= w < |run[j].workers| ==> run[j].workers[w] != Computing(b)
    ensures Bucket(b) !in run[j].outQueue && run[j].main != Holding(b)
  {
    SavedStaysCompleted(c, run, i, j, b);
    RunKeeps(c, run, j);
    CompletedIsDone(c, run[j], b);
  }

  /** What the checkpoint on disk says: lists of this search, each merged once, and the best scores of each query. */
  lemma CheckpointMeans(c: Config, run: seq<State>, i: nat)
    requires IsRun(c, run) && i < |run| && run[i].disk.Some?
    ensures var ck := run[i].disk.value;
            && (forall b: nat :: b in ck.completed ==> c.start <= b < c.end)
            && (forall b: nat :: multiset(ck.history)[b] == if b in ck.completed then 1 else 0)
            && |ck.heap| == c.nq
            && forall q :: 0 <= q < c.nq ==> ck.heap[q] == Best(c.k, Total(c.found, q, ck.history))
  {
    CheckpointsAreSound(c, run);
    var ck := run[i].disk.value;
    assert Sound(c, ck);
    forall b: nat ensures multiset(ck.history)[b] == if b in ck.completed then 1 else 0 {
      OccursIsMultiplicity(ck.history, b);
    }
  }

  // ---- the bounds of queues and pools ----

  /** Two items at most are in each queue, and as many buckets are being prepared as there are threads for it. */
  lemma BoundsHold(c: Config, run: seq<State>, i: nat)
    requires IsRun(c, run) && i < |run|
    ensures |run[i].inQueue| <= 2 && |run[i].outQueue| <= 2
    ensures |run[i].preparing| <= c.prefetchThreads && |run[i].workers| == c.computeThreads
  {
    RunKeeps(c, run, i);
    assert Inv(c, run[i]);
  }

  /** As long as there is room, buckets go on: to a preparing thread, to the workers, and to the main thread. */
  lemma RoomIsUsed(c: Config, s: State)
    ensures |s.preparing| < c.prefetchThreads && s.pending != [] ==>
              exists t :: Moves(c, s, t) && t.pending == s.pending[1..] && t.preparing == s.preparing + [s.pending[0]]
    ensures |s.inQueue| < 2 && s.preparing != [] ==>
              exists t :: Moves(c, s, t) && t.preparing == s.preparing[1..]
                          && t.inQueue == s.inQueue + [Bucket(s.preparing[0])]
    ensures forall w :: 0 <= w < |s.workers| && s.workers[w].Computing? && |s.outQueue| < 2 ==>
              exists t :: Moves(c, s, t) && t.workers == s.workers[w := Waiting]
                          && t.outQueue == s.outQueue + [Bucket(s.workers[w].b)]
  {
    if |s.preparing| < c.prefetchThreads && s.pending != [] {
      assert Enabled(c, s, Prepare) && Moves(c, s, Apply(c, s, Prepare));
    }
    if |s.inQueue| < 2 && s.preparing != [] {
      assert Enabled(c, s, Deliver(0)) && Moves(c, s, Apply(c, s, Deliver(0)));
      assert s.preparing[..0] + s.preparing[1..] == s.preparing[1..];
    }
    forall w | 0 <= w < |s.workers| && s.workers[w].Computing? && |s.outQueue| < 2
      ensures exists t :: Moves(c, s, t) && t.workers == s.workers[w := Waiting]
                          && t.outQueue == s.outQueue + [Bucket(s.workers[w].b)]
    {
      assert Enabled(c, s, Emit(w)) && Moves(c, s, Apply(c, s, Emit(w)));
    }
  }
}
