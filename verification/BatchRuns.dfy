/** Runs of the threaded batch search (contrib/big_batch_search.py): no deadlock, termination, and the
    result after any number of crashes. */
module BatchRuns {
  import opened Basics
  import opened TopK
  import opened Bags
  import opened BatchProtocol
  import BigBatch

  // No deadlock

  ghost predicate CanMove(c: Config, s: State) {
    exists step :: Enabled(c, s, step)
  }

  lemma PrepareCanMove(c: Config, s: State)
    requires Recorded(c, s) && PrepareSide(c, s) && s.inQueue == [] && !s.prepareDone
    ensures CanMove(c, s)
  {
    assert Enabled(c, s, if s.cursor < c.end then Submit
                         else if s.preparing != [] then Deliver(0)
                         else if s.pending != [] then Prepare else EndPrepare);
  }

  lemma SomeWorkerCanMove(c: Config, s: State)
    requires Recorded(c, s) && PrepareSide(c, s) && s.outQueue == [] && !s.computeDone
    ensures CanMove(c, s)
  {
    if w :| 0 <= w < |s.workers| && s.workers[w].Computing? {
      assert Enabled(c, s, Emit(w));
    } else if w :| 0 <= w < |s.workers| && s.workers[w].Relaying? {
      assert Quitting(s.workers[w]) && Enabled(c, s, Relay(w));
    } else if w :| 0 <= w < |s.workers| && s.workers[w].Waiting? {
      if s.inQueue != [] {
        assert Enabled(c, s, Take(w));
      } else {
        PrepareCanMove(c, s);
      }
    } else {
      assert Enabled(c, s, EndCompute);
    }
  }

  /** In every state that satisfies the invariant, some thread can move until main returns. */
  lemma NoDeadlock(c: Config, s: State)
    requires Inv(c, s) && !s.main.Returned?
    ensures CanMove(c, s)
  {
    match s.main
    case Holding(_) => assert Enabled(c, s, MergeResult);
    case Merged(_) => assert Enabled(c, s, Complete);
    case Deciding => assert Enabled(c, s, SkipCheckpoint);
    case Saving => assert Enabled(c, s, ReplaceFile);
    case Joining =>
      assert s.prepareDone by { assert s.workers[0].Exited? && Quitting(s.workers[0]); }
      assert Enabled(c, s, Join);
    case Polling =>
      if s.outQueue != [] {
        assert Enabled(c, s, Receive);
      } else {
        SomeWorkerCanMove(c, s);
      }
  }

  // Termination

  ghost function Queued(q: seq<Item>): nat {
    if q == [] then 0 else (if q[0].Bucket? then 1 else 0) + Queued(q[1..])
  }

  ghost function Effort(w: Worker): nat {
    match w
    case Computing(_) => 8
    case Waiting => 2
    case Relaying => 1
    case Exited => 0
  }

  ghost function Efforts(ws: seq<Worker>): nat {
    if ws == [] then 0 else Effort(ws[0]) + Efforts(ws[1..])
  }

  ghost function Remaining(m: Main): nat {
    match m
    case Holding(_) => 6
    case Merged(_) => 5
    case Deciding => 4
    case Saving => 3
    case Polling => 2
    case Joining => 1
    case Returned => 0
  }

  /** An upper bound on the number of steps still to come. */
  ghost function Measure(c: Config, s: State): nat {
    10 * (if s.cursor < c.end then c.end - s.cursor else 0) + 9 * |s.pending| + 8 * |s.preparing|
    + 7 * Queued(s.inQueue) + Efforts(s.workers) + 5 * Queued(s.outQueue) + Remaining(s.main)
    + (if s.prepareDone then 0 else 1) + (if s.computeDone then 0 else 1)
  }

  lemma {:induction false} QueuedAppend(q: seq<Item>, x: Item)
    ensures Queued(q + [x]) == Queued(q) + if x.Bucket? then 1 else 0
  {
    if q == [] {
      assert [x][1..] == [] && q + [x] == [x];
    } else {
      QueuedAppend(q[1..], x);
      assert (q + [x])[1..] == q[1..] + [x];
    }
  }

  lemma {:induction false} EffortsUpdate(ws: seq<Worker>, i: nat, w: Worker)
    requires i < |ws|
    ensures Efforts(ws[i := w]) == Efforts(ws) - Effort(ws[i]) + Effort(w)
  {
    if i == 0 {
      assert ws[0 := w][1..] == ws[1..];
    } else {
      EffortsUpdate(ws[1..], i - 1, w);
      assert ws[i := w][1..] == ws[1..][i - 1 := w];
    }
  }

  lemma WorkerStepDecreases(c: Config, s: State, step: Step)
    requires Enabled(c, s, step) && (step.Take? || step.Emit? || step.Relay?)
    ensures Measure(c, Apply(c, s, step)) < Measure(c, s)
  {
    EffortsUpdate(s.workers, step.w, Apply(c, s, step).workers[step.w]);
    if step.Emit? { QueuedAppend(s.outQueue, Bucket(s.workers[step.w].b)); }
    if step.Relay? { QueuedAppend(s.inQueue, Sentinel); }
  }

  /** Every step brings the end nearer. */
  lemma StepDecreases(c: Config, s: State, step: Step)
    requires Enabled(c, s, step)
    ensures Measure(c, Apply(c, s, step)) < Measure(c, s)
  {
    match step
    case Deliver(i) => QueuedAppend(s.inQueue, Bucket(s.preparing[i]));
    case EndPrepare => QueuedAppend(s.inQueue, Sentinel);
    case EndCompute => QueuedAppend(s.outQueue, Sentinel);
    case Take(_) | Emit(_) | Relay(_) => WorkerStepDecreases(c, s, step);
    case _ =>
  }

  // Whole runs, crashes included

  /** One event of a run: a step of some thread, or a crash followed by a restart from disk. */
  ghost predicate Next(c: Config, s: State, t: State) {
    Moves(c, s, t) || t == Start(c, s.disk)
  }

  ghost predicate Moves(c: Config, s: State, t: State) {
    exists step :: Enabled(c, s, step) && t == Apply(c, s, step)
  }

  /** A run starts from scratch: there is no checkpoint yet. */
  ghost predicate IsRun(c: Config, run: seq<State>) {
    && c.Valid() && run != [] && run[0] == Start(c, None)
    && forall i :: 0 <= i < |run| - 1 ==> Next(c, run[i], run[i + 1])
  }

  /** Every state of a run satisfies the invariant. */
  lemma {:induction false} RunKeeps(c: Config, run: seq<State>, n: nat)
    requires IsRun(c, run) && n < |run|
    ensures forall i :: 0 <= i <= n ==> Inv(c, run[i])
  {
    if n == 0 {
      StartKeeps(c, None);
    } else {
      RunKeeps(c, run, n - 1);
      var s, t := run[n - 1], run[n];
      assert Next(c, s, run[(n - 1) + 1]);
      if Moves(c, s, t) {
        var step :| Enabled(c, s, step) && t == Apply(c, s, step);
        StepKeeps(c, s, step);
      } else {
        StartKeeps(c, s.disk);
      }
    }
  }

  /** A run starts from scratch, and can go on with any step that is enabled or with a crash. */
  lemma RunsGrow(c: Config, run: seq<State>, step: Step)
    requires c.Valid()
    ensures IsRun(c, [Start(c, None)])
    ensures IsRun(c, run) ==> IsRun(c, run + [Start(c, run[|run| - 1].disk)])
    ensures IsRun(c, run) && Enabled(c, run[|run| - 1], step) ==> IsRun(c, run + [Apply(c, run[|run| - 1], step)])
  {
    if IsRun(c, run) {
      var last := run[|run| - 1];
      RunAppend(c, run, Start(c, last.disk));
      if Enabled(c, last, step) {
        assert Moves(c, last, Apply(c, last, step));
        RunAppend(c, run, Apply(c, last, step));
      }
    }
  }

  lemma RunAppend(c: Config, run: seq<State>, t: State)
    requires IsRun(c, run) && Next(c, run[|run| - 1], t)
    ensures IsRun(c, run + [t])
  {
    var more := run + [t];
    forall i | 0 <= i < |more| - 1 ensures Next(c, more[i], more[i + 1]) {
      if i < |run| - 1 { assert Next(c, run[i], run[i + 1]); }
    }
  }

  /** However often it crashed and resumed, an execution can always go on until it returns. */
  lemma RunsAreNeverStuck(c: Config, run: seq<State>)
    requires IsRun(c, run)
    ensures var s := run[|run| - 1];
            s.main.Returned? || exists step :: Enabled(c, s, step)
  {
    var s := run[|run| - 1];
    RunKeeps(c, run, |run| - 1);
    if !s.main.Returned? {
      NoDeadlock(c, s);
    }
  }

  lemma MoveDecreases(c: Config, s: State, t: State)
    requires Moves(c, s, t)
    ensures Measure(c, t) < Measure(c, s)
  {
    var step :| Enabled(c, s, step) && t == Apply(c, s, step);
    StepDecreases(c, s, step);
  }

  /** Between two crashes, the number of steps is bounded. */
  lemma {:induction false} RunsEnd(c: Config, run: seq<State>)
    requires run != [] && forall i :: 0 <= i < |run| - 1 ==> Moves(c, run[i], run[i + 1])
    ensures |run| <= Measure(c, run[0]) + 1
  {
    if |run| > 1 {
      assert Moves(c, run[0], run[0 + 1]);
      MoveDecreases(c, run[0], run[1]);
      RunsEnd(c, run[1..]);
    }
  }

  lemma {:induction false} IdleEffort(n: nat)
    ensures Efforts(seq(n, _ => Waiting)) == 2 * n
  {
    if n > 0 {
      IdleEffort(n - 1);
      assert seq(n, _ => Waiting)[1..] == seq(n - 1, _ => Waiting);
    }
  }

  /** An attempt, from a start or a restart on, takes at most so many steps. */
  lemma AttemptsEnd(c: Config, disk: Option<Checkpoint>, run: seq<State>)
    requires c.start <= c.end && run != [] && run[0] == Start(c, disk)
    requires forall i :: 0 <= i < |run| - 1 ==> Moves(c, run[i], run[i + 1])
    ensures |run| <= 10 * (c.end - c.start) + 2 * c.computeThreads + 5
  {
    RunsEnd(c, run);
    IdleEffort(c.computeThreads);
  }

  /** When the sentinel has reached the main thread, no bucket is left anywhere. */
  lemma SentinelIsLast(c: Config, s: State, b: nat)
    requires Inv(c, s) && (s.main.Joining? || s.main.Returned?)
    ensures InFlight(s, b) == 0 && Occurs(s.history, b) == if b in c.Lists() then 1 else 0
  {
    assert s.prepareDone by { assert s.workers[0].Exited? && Quitting(s.workers[0]); }
    assert Quitting(s.workers[0]) && s.inQueue != [] && |s.inQueue| == 1;
    IdleWorkersHoldNothing(s.workers, b);
    assert s.inQueue[1..] == [];
    assert b in Known(c, s) <==> b in c.Lists();
  }

  lemma {:induction false} SameOccurrences(xs: seq<nat>, ys: seq<nat>)
    requires forall b: nat :: Occurs(xs, b) == Occurs(ys, b)
    ensures multiset(xs) == multiset(ys)
  {
    forall b: nat ensures multiset(xs)[b] == multiset(ys)[b] {
      OccursIsMultiplicity(xs, b);
      OccursIsMultiplicity(ys, b);
    }
  }

  lemma {:induction false} OccursIsMultiplicity(xs: seq<nat>, b: nat)
    ensures multiset(xs)[b] == Occurs(xs, b)
  {
    if xs != [] {
      OccursIsMultiplicity(xs[1..], b);
      SplitHead(xs);
    }
  }

  lemma {:induction false} BetweenOccurs(lo: nat, hi: nat, b: nat)
    ensures Occurs(Between(lo, hi), b) == if b in Span(lo, hi) then 1 else 0
    decreases hi
  {
    if lo < hi {
      BetweenOccurs(lo, hi - 1, b);
      BetweenStep(lo, hi - 1);
      OccursConcat(Between(lo, hi - 1), [hi - 1], b);
    }
  }

  /** Whatever the interleaving, and however often it crashed and resumed from a checkpoint, an
      execution that returns has merged each list exactly once, and its heaps hold what the
      sequential execution computes. */
  lemma EveryRunGivesTheSequentialResult(c: Config, run: seq<State>)
    requires IsRun(c, run) && run[|run| - 1].main.Returned?
    ensures var s := run[|run| - 1];
            && multiset(s.history) == multiset(Between(c.start, c.end))
            && HeapHolds(c, s.heap, Between(c.start, c.end))
  {
    var s := run[|run| - 1];
    RunKeeps(c, run, |run| - 1);
    forall b: nat ensures Occurs(s.history, b) == Occurs(Between(c.start, c.end), b) {
      SentinelIsLast(c, s, b);
      BetweenOccurs(c.start, c.end, b);
    }
    SameOccurrences(s.history, Between(c.start, c.end));
    forall q | 0 <= q < c.nq ensures s.heap[q] == Best(c.k, Total(c.found, q, Between(c.start, c.end))) {
      TotalPermuted(c.found, q, s.history, Between(c.start, c.end));
    }
  }

  /** At every moment of every run the checkpoint on disk, if any, holds exactly the best of the
      lists that it calls completed, each merged once. */
  lemma CheckpointsAreSound(c: Config, run: seq<State>)
    requires IsRun(c, run)
    ensures forall i :: 0 <= i < |run| && run[i].disk.Some? ==> Sound(c, run[i].disk.value)
  {
    RunKeeps(c, run, |run| - 1);
    forall i | 0 <= i < |run| && run[i].disk.Some? ensures Sound(c, run[i].disk.value) {
      assert Inv(c, run[i]);
    }
  }

  /** Put together: over all the lists of an index, any run that returns has given each query
      the distances it would get from visiting its own probed lists one at a time. */
  lemma EveryRunSearchesCorrectly(c: Config, run: seq<State>, index: BigBatch.Index, assign: seq<seq<int>>,
                                  nprobe: nat, keepMax: bool, q: nat)
    requires IsRun(c, run) && run[|run| - 1].main.Returned?
    requires c.found == BigBatch.FoundIn(index, assign, keepMax)
    requires c.start == 0 && c.end == index.nlist && c.nq == |assign| && q < c.nq
    requires BigBatch.IsAssignment(assign, nprobe, index.nlist)
    ensures |run[|run| - 1].heap| == c.nq
    ensures run[|run| - 1].heap[q] == BigBatch.Visited(c.k, BigBatch.ListBags(index, keepMax, q), assign[q])
  {
    EveryRunGivesTheSequentialResult(c, run);
    BigBatch.LoopInterchange(index, assign, keepMax, c.k, q);
  }
}
