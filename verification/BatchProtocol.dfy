/** The threaded execution of the batch search (contrib/big_batch_search.py): a task manager
    submits preparation tasks to a pool, prepared buckets go through a bounded queue to the
    computing workers, whose results go through a second bounded queue to the main thread,
    which merges them and saves checkpoints. `None` closes both queues. */
module BatchProtocol {
  import opened Basics
  import opened TopK
  import opened Bags

  const QUEUE_SIZE := 2

  datatype Item = Bucket(b: nat) | Sentinel

  datatype Worker = Waiting | Computing(b: nat) | Relaying | Exited

  /** Where the main thread is: waiting for a result, about to merge one, about to mark it
      completed, deciding about a checkpoint, about to move the written checkpoint to its
      final name, waiting for the task managers, done. */
  datatype Main = Polling | Holding(b: nat) | Merged(b: nat) | Deciding | Saving | Joining | Returned

  /** A saved state; `history`, the order in which buckets were merged, is for the proof only. */
  datatype Checkpoint = Checkpoint(completed: set<nat>, heap: seq<seq<real>>, history: seq<nat>)

  datatype Config = Config(
    start: nat, end: nat, prefetchThreads: nat, computeThreads: nat,
    checkpointing: bool, nq: nat, k: nat, found: Findings<real>)
  {
    ghost predicate Valid() {
      prefetchThreads > 0 && computeThreads > 0
    }

    ghost function Lists(): set<nat> {
      Span(start, end)
    }
  }

  datatype State = State(
    cursor: nat, pending: seq<nat>, preparing: seq<nat>, prepareDone: bool, inQueue: seq<Item>,
    workers: seq<Worker>, computeDone: bool, outQueue: seq<Item>,
    main: Main, completed: set<nat>, heap: seq<seq<real>>, history: seq<nat>,
    initial: set<nat>, temp: Option<Checkpoint>, disk: Option<Checkpoint>)

  ghost predicate HeapHolds(c: Config, heap: seq<seq<real>>, log: seq<nat>) {
    |heap| == c.nq && forall q :: 0 <= q < c.nq ==> heap[q] == Best(c.k, Total(c.found, q, log))
  }

  ghost function Merge(c: Config, heap: seq<seq<real>>, b: nat): seq<seq<real>> {
    seq(|heap|, q requires 0 <= q < |heap| => Best(c.k, multiset(heap[q]) + c.found(q, b)))
  }

  /** Starting up: from the checkpoint if there is one. */
  ghost function Start(c: Config, disk: Option<Checkpoint>): State {
    var ck := if c.checkpointing && disk.Some? then disk.value
              else Checkpoint({}, seq(c.nq, _ => []), []);
    State(c.start, [], [], false, [], seq(c.computeThreads, _ => Waiting), false, [],
          Polling, ck.completed, ck.heap, ck.history, ck.completed, None, disk)
  }

  datatype Step =
    | Submit            // the manager looks at the next bucket
    | Prepare           // a pool thread picks the next task
    | Deliver(i: nat)   // a preparation task puts its bucket in the queue
    | EndPrepare        // all tasks are done: put the sentinel
    | Take(w: nat)      // a worker gets an item
    | Emit(w: nat)      // a worker puts a result
    | Relay(w: nat)     // a worker puts the sentinel back and ends
    | EndCompute        // all workers ended: put the sentinel
    | Receive           // main gets an item
    | MergeResult       // main adds the results to the heap
    | Complete          // main marks the bucket completed
    | SkipCheckpoint | WriteTemp | ReplaceFile
    | Join

  ghost predicate Enabled(c: Config, s: State, step: Step) {
    match step
    case Submit => s.cursor < c.end
    case Prepare => s.pending != [] && |s.preparing| < c.prefetchThreads
    case Deliver(i) => i < |s.preparing| && |s.inQueue| < QUEUE_SIZE
    case EndPrepare =>
      s.cursor >= c.end && s.pending == [] && s.preparing == [] && !s.prepareDone && |s.inQueue| < QUEUE_SIZE
    case Take(w) => w < |s.workers| && s.workers[w].Waiting? && s.inQueue != []
    case Emit(w) => w < |s.workers| && s.workers[w].Computing? && |s.outQueue| < QUEUE_SIZE
    case Relay(w) => w < |s.workers| && s.workers[w].Relaying? && |s.inQueue| < QUEUE_SIZE
    case EndCompute =>
      !s.computeDone && (forall w :: 0 <= w < |s.workers| ==> s.workers[w].Exited?) && |s.outQueue| < QUEUE_SIZE
    case Receive => s.main.Polling? && s.outQueue != []
    case MergeResult => s.main.Holding?
    case Complete => s.main.Merged?
    case SkipCheckpoint => s.main.Deciding?
    case WriteTemp => s.main.Deciding? && c.checkpointing
    case ReplaceFile => s.main.Saving?
    case Join => s.main.Joining? && s.prepareDone && s.computeDone
  }

  ghost function Apply(c: Config, s: State, step: Step): State
    requires Enabled(c, s, step)
  {
    match step
    case Submit =>
      s.(cursor := s.cursor + 1,
         pending := if s.cursor in s.completed then s.pending else s.pending + [s.cursor])
    case Prepare => s.(pending := s.pending[1..], preparing := s.preparing + [s.pending[0]])
    case Deliver(i) =>
      s.(preparing := s.preparing[..i] + s.preparing[i + 1..],
         inQueue := s.inQueue + [Bucket(s.preparing[i])])
    case EndPrepare => s.(prepareDone := true, inQueue := s.inQueue + [Sentinel])
    case Take(w) =>
      s.(inQueue := s.inQueue[1..],
         workers := s.workers[w := if s.inQueue[0].Sentinel? then Relaying else Computing(s.inQueue[0].b)])
    case Emit(w) =>
      s.(outQueue := s.outQueue + [Bucket(s.workers[w].b)], workers := s.workers[w := Waiting])
    case Relay(w) => s.(inQueue := s.inQueue + [Sentinel], workers := s.workers[w := Exited])
    case EndCompute => s.(computeDone := true, outQueue := s.outQueue + [Sentinel])
    case Receive =>
      s.(outQueue := s.outQueue[1..],
         main := if s.outQueue[0].Sentinel? then Joining else Holding(s.outQueue[0].b))
    case MergeResult =>
      s.(main := Merged(s.main.b), heap := Merge(c, s.heap, s.main.b), history := s.history + [s.main.b])
    case Complete => s.(main := Deciding, completed := s.completed + {s.main.b})
    case SkipCheckpoint => s.(main := Polling)
    case WriteTemp => s.(main := Saving, temp := Some(Checkpoint(s.completed, s.heap, s.history)))
    case ReplaceFile => s.(main := Polling, disk := s.temp, temp := None)
    case Join => s.(main := Returned)
  }

  // Tokens: where each bucket is

  ghost function Occurs(xs: seq<nat>, b: nat): nat {
    if xs == [] then 0 else (if xs[0] == b then 1 else 0) + Occurs(xs[1..], b)
  }

  ghost function InQueue(q: seq<Item>, b: nat): nat {
    if q == [] then 0 else (if q[0] == Bucket(b) then 1 else 0) + InQueue(q[1..], b)
  }

  ghost function InWorkers(ws: seq<Worker>, b: nat): nat {
    if ws == [] then 0 else (if ws[0] == Computing(b) then 1 else 0) + InWorkers(ws[1..], b)
  }

  lemma {:induction false} OccursConcat(xs: seq<nat>, ys: seq<nat>, b: nat)
    ensures Occurs(xs + ys, b) == Occurs(xs, b) + Occurs(ys, b)
  {
    if xs == [] {
      assert xs + ys == ys;
    } else {
      OccursConcat(xs[1..], ys, b);
      assert (xs + ys)[1..] == xs[1..] + ys;
    }
  }

  lemma {:induction false} InQueueAppend(q: seq<Item>, x: Item, b: nat)
    ensures InQueue(q + [x], b) == InQueue(q, b) + if x == Bucket(b) then 1 else 0
  {
    if q == [] {
      assert [x][1..] == [] && q + [x] == [x];
    } else {
      InQueueAppend(q[1..], x, b);
      assert (q + [x])[1..] == q[1..] + [x];
    }
  }

  lemma {:induction false} InWorkersUpdate(ws: seq<Worker>, i: nat, w: Worker, b: nat)
    requires i < |ws|
    ensures InWorkers(ws[i := w], b)
            == InWorkers(ws, b) - (if ws[i] == Computing(b) then 1 else 0) + (if w == Computing(b) then 1 else 0)
  {
    if i == 0 {
      assert ws[0 := w][1..] == ws[1..];
    } else {
      InWorkersUpdate(ws[1..], i - 1, w, b);
      assert ws[i := w][1..] == ws[1..][i - 1 := w];
    }
  }

  /** How often bucket `b` is on its way to the heap. */
  ghost function InFlight(s: State, b: nat): nat {
    Occurs(s.pending, b) + Occurs(s.preparing, b) + InQueue(s.inQueue, b) + InWorkers(s.workers, b)
    + InQueue(s.outQueue, b) + if s.main == Holding(b) then 1 else 0
  }

  /** The buckets looked at so far, here or before the checkpoint. */
  ghost function Known(c: Config, s: State): set<nat> {
    s.initial + Span(c.start, s.cursor)
  }

  /** Each known bucket is either on its way or merged, exactly once; no other bucket is. */
  ghost predicate Conserved(c: Config, s: State) {
    forall b: nat {:trigger InFlight(s, b)} ::
      InFlight(s, b) + Occurs(s.history, b) == if b in Known(c, s) then 1 else 0
  }

  /** A step moves buckets along; only the task manager brings in a new one. */
  lemma TokensMove(c: Config, s: State, step: Step, b: nat)
    requires Enabled(c, s, step)
    ensures var t := Apply(c, s, step);
            InFlight(t, b) + Occurs(t.history, b)
            == InFlight(s, b) + Occurs(s.history, b)
               + if step.Submit? && b == s.cursor && b !in s.completed then 1 else 0
  {
    match step
    case Submit => OccursConcat(s.pending, [s.cursor], b);
    case Prepare => OccursConcat(s.preparing, [s.pending[0]], b);
    case Deliver(i) =>
      InQueueAppend(s.inQueue, Bucket(s.preparing[i]), b);
      OccursRemove(s.preparing, i, b);
    case EndPrepare => InQueueAppend(s.inQueue, Sentinel, b);
    case EndCompute => InQueueAppend(s.outQueue, Sentinel, b);
    case Take(_) | Emit(_) | Relay(_) => WorkerTokensMove(c, s, step, b);
    case MergeResult => OccursConcat(s.history, [s.main.b], b);
    case _ =>
  }

  lemma WorkerTokensMove(c: Config, s: State, step: Step, b: nat)
    requires Enabled(c, s, step) && (step.Take? || step.Emit? || step.Relay?)
    ensures InFlight(Apply(c, s, step), b) == InFlight(s, b)
  {
    InWorkersUpdate(s.workers, step.w, Apply(c, s, step).workers[step.w], b);
    if step.Emit? { InQueueAppend(s.outQueue, Bucket(s.workers[step.w].b), b); }
    if step.Relay? { InQueueAppend(s.inQueue, Sentinel, b); }
  }

  lemma OccursRemove(xs: seq<nat>, i: nat, b: nat)
    requires i < |xs|
    ensures Occurs(xs, b) == Occurs(xs[..i] + xs[i + 1..], b) + if xs[i] == b then 1 else 0
  {
    assert xs == xs[..i] + ([xs[i]] + xs[i + 1..]);
    OccursConcat(xs[..i], [xs[i]] + xs[i + 1..], b);
    OccursConcat([xs[i]], xs[i + 1..], b);
    OccursConcat(xs[..i], xs[i + 1..], b);
  }

  lemma {:induction false} OccursMember(xs: seq<nat>, b: nat)
    ensures b in xs <==> Occurs(xs, b) > 0
  {
    if xs != [] { OccursMember(xs[1..], b); }
  }

  // The invariant

  /** Sizes, and what the record of completed buckets means. */
  ghost predicate Recorded(c: Config, s: State) {
    && c.Valid() && |s.workers| == c.computeThreads
    && c.start <= s.cursor && (s.cursor <= c.end || s.cursor == c.start)
    && |s.preparing| <= c.prefetchThreads && |s.inQueue| <= QUEUE_SIZE && |s.outQueue| <= QUEUE_SIZE
    && s.initial <= s.completed && s.initial <= c.Lists()
    && (forall b :: b in s.history <==> b in s.completed || s.main == Merged(b))
    && HeapHolds(c, s.heap, s.history)
  }

  ghost predicate NoSentinel(q: seq<Item>) {
    forall i :: 0 <= i < |q| ==> q[i].Bucket?
  }

  ghost predicate SentinelLast(q: seq<Item>) {
    q != [] && q[|q| - 1].Sentinel? && forall i :: 0 <= i < |q| - 1 ==> q[i].Bucket?
  }

  ghost predicate Quitting(w: Worker) {
    w.Relaying? || w.Exited?
  }

  /** Before the preparation ends there is no sentinel around; afterwards there is one, either
      at the back of the queue or in the hands of one worker, and once a worker has seen it
      no bucket is left in the queue. */
  ghost predicate PrepareSide(c: Config, s: State) {
    if !s.prepareDone then
      NoSentinel(s.inQueue) && forall w :: 0 <= w < |s.workers| ==> !Quitting(s.workers[w])
    else
      && s.cursor >= c.end && s.pending == [] && s.preparing == []
      && (if s.inQueue != []
          then SentinelLast(s.inQueue) && forall w :: 0 <= w < |s.workers| ==> !s.workers[w].Relaying?
          else (exists w :: 0 <= w < |s.workers| && s.workers[w].Relaying?)
               && forall v, w :: 0 <= v < w < |s.workers| ==> !(s.workers[v].Relaying? && s.workers[w].Relaying?))
      && (forall w :: 0 <= w < |s.workers| && Quitting(s.workers[w]) ==> |s.inQueue| <= 1)
  }

  /** The sentinel comes out once all the workers have exited, behind all the results. */
  ghost predicate ComputeSide(s: State) {
    && (s.computeDone ==> forall w :: 0 <= w < |s.workers| ==> s.workers[w].Exited?)
    && (if !s.computeDone then NoSentinel(s.outQueue) && !s.main.Joining? && !s.main.Returned?
        else if s.main.Joining? || s.main.Returned? then s.outQueue == []
        else SentinelLast(s.outQueue))
    && (s.main.Returned? ==> s.prepareDone)
  }

  /** A checkpoint holds exactly the best of the buckets it calls completed. */
  ghost predicate Sound(c: Config, ck: Checkpoint) {
    && ck.completed <= c.Lists()
    && (forall b: nat {:trigger Occurs(ck.history, b)} :: Occurs(ck.history, b) == if b in ck.completed then 1 else 0)
    && HeapHolds(c, ck.heap, ck.history)
  }

  ghost predicate Saved(c: Config, s: State) {
    && (s.disk.Some? ==> Sound(c, s.disk.value))
    && (s.temp.Some? ==> Sound(c, s.temp.value))
    && (s.main.Saving? ==> s.temp.Some?)
  }

  ghost predicate Inv(c: Config, s: State) {
    Recorded(c, s) && Conserved(c, s) && PrepareSide(c, s) && ComputeSide(s) && Saved(c, s)
  }

  // Every step keeps the invariant

  lemma {:induction false} IdleWorkersHoldNothing(ws: seq<Worker>, b: nat)
    requires forall w :: 0 <= w < |ws| ==> !ws[w].Computing?
    ensures InWorkers(ws, b) == 0
  {
    if ws != [] { IdleWorkersHoldNothing(ws[1..], b); }
  }

  lemma StartKeeps(c: Config, disk: Option<Checkpoint>)
    requires c.Valid() && (disk.Some? ==> Sound(c, disk.value))
    ensures Inv(c, Start(c, disk))
  {
    var s := Start(c, disk);
    assert Known(c, s) == s.initial;
    forall b: nat ensures InFlight(s, b) + Occurs(s.history, b) == if b in Known(c, s) then 1 else 0 {
      IdleWorkersHoldNothing(s.workers, b);
    }
    forall b: nat ensures b in s.history <==> b in s.completed { OccursMember(s.history, b); }
    if !(c.checkpointing && disk.Some?) {
      forall q | 0 <= q < c.nq ensures s.heap[q] == Best(c.k, Total(c.found, q, [])) {
        BestIs([], c.k, multiset{});
      }
    }
  }

  /** The concurrent read of `completed` is harmless: while the manager looks at a bucket, the
      main thread cannot have completed it in this execution. */
  lemma ReadIsHarmless(c: Config, s: State)
    requires Recorded(c, s) && Conserved(c, s)
    ensures s.cursor in s.completed <==> s.cursor in s.initial
  {
    if s.cursor in s.completed {
      OccursMember(s.history, s.cursor);
      assert InFlight(s, s.cursor) >= 0;
    }
  }

  lemma StepConserves(c: Config, s: State, step: Step)
    requires Recorded(c, s) && Conserved(c, s) && Enabled(c, s, step)
    ensures Conserved(c, Apply(c, s, step))
  {
    var t := Apply(c, s, step);
    ReadIsHarmless(c, s);
    forall b: nat ensures InFlight(t, b) + Occurs(t.history, b) == if b in Known(c, t) then 1 else 0 {
      TokensMove(c, s, step, b);
      KnownMoves(c, s, step, b);
      assert InFlight(s, b) >= 0;
    }
  }

  lemma KnownMoves(c: Config, s: State, step: Step, b: nat)
    requires c.start <= s.cursor && Enabled(c, s, step)
    ensures b in Known(c, Apply(c, s, step)) <==> b in Known(c, s) || (step.Submit? && b == s.cursor)
  {
  }

  lemma MergeKeeps(c: Config, heap: seq<seq<real>>, log: seq<nat>, b: nat)
    requires HeapHolds(c, heap, log)
    ensures HeapHolds(c, Merge(c, heap, b), log + [b])
  {
    forall q | 0 <= q < c.nq ensures Merge(c, heap, b)[q] == Best(c.k, Total(c.found, q, log + [b])) {
      AddToLog(c.k, c.found, q, log, b);
    }
  }

  lemma StepRecords(c: Config, s: State, step: Step)
    requires Recorded(c, s) && Enabled(c, s, step)
    ensures Recorded(c, Apply(c, s, step))
  {
    if step.MergeResult? {
      MergeKeeps(c, s.heap, s.history, s.main.b);
    }
  }

  lemma TakeTail(q: seq<Item>)
    requires q != []
    ensures NoSentinel(q) ==> NoSentinel(q[1..])
    ensures SentinelLast(q) && q[0].Bucket? ==> SentinelLast(q[1..])
    ensures SentinelLast(q) && q[0].Sentinel? ==> |q| == 1
  {
    assert forall i :: 0 <= i < |q| - 1 ==> q[1..][i] == q[i + 1];
  }

  lemma PutBack(q: seq<Item>, x: Item)
    ensures NoSentinel(q) && x.Bucket? ==> NoSentinel(q + [x])
    ensures NoSentinel(q) && x.Sentinel? ==> SentinelLast(q + [x])
  {
    assert forall i :: 0 <= i < |q| ==> (q + [x])[i] == q[i];
  }

  lemma TakeKeepsSentinel(c: Config, s: State, w: nat)
    requires PrepareSide(c, s) && Enabled(c, s, Take(w))
    ensures PrepareSide(c, Apply(c, s, Take(w)))
  {
    var t := Apply(c, s, Take(w));
    TakeTail(s.inQueue);
    if s.prepareDone && s.inQueue[0].Sentinel? {
      assert t.workers[w].Relaying?;
    } else if s.prepareDone {
      assert |s.inQueue| > 1 by { assert s.inQueue[|s.inQueue| - 1].Sentinel?; }
    }
  }

  lemma RelayKeepsSentinel(c: Config, s: State, w: nat)
    requires PrepareSide(c, s) && Enabled(c, s, Relay(w))
    ensures PrepareSide(c, Apply(c, s, Relay(w)))
  {
    assert Quitting(s.workers[w]);
    assert s.inQueue == [] && [] + [Sentinel] == [Sentinel];
  }

  lemma StepKeepsPrepareSide(c: Config, s: State, step: Step)
    requires PrepareSide(c, s) && Enabled(c, s, step)
    ensures PrepareSide(c, Apply(c, s, step))
  {
    match step
    case Take(w) => TakeKeepsSentinel(c, s, w);
    case Relay(w) => RelayKeepsSentinel(c, s, w);
    case EndPrepare => PutBack(s.inQueue, Sentinel);
    case Deliver(i) => PutBack(s.inQueue, Bucket(s.preparing[i]));
    case Emit(w) =>
      var t := Apply(c, s, step);
      if s.prepareDone && s.inQueue == [] {
        var v :| 0 <= v < |s.workers| && s.workers[v].Relaying?;
        assert t.workers[v].Relaying?;
      }
    case _ =>
  }

  lemma StepKeepsComputeSide(c: Config, s: State, step: Step)
    requires ComputeSide(s) && PrepareSide(c, s) && Enabled(c, s, step)
    ensures ComputeSide(Apply(c, s, step))
  {
    match step
    case Receive => TakeTail(s.outQueue);
    case Emit(w) => PutBack(s.outQueue, Bucket(s.workers[w].b));
    case EndCompute => PutBack(s.outQueue, Sentinel);
    case _ =>
  }

  /** When the record is saved, it describes a sound checkpoint. */
  lemma CheckpointIsSound(c: Config, s: State)
    requires Recorded(c, s) && Conserved(c, s) && s.main.Deciding?
    ensures Sound(c, Checkpoint(s.completed, s.heap, s.history))
  {
    forall b: nat ensures Occurs(s.history, b) == if b in s.completed then 1 else 0 {
      OccursMember(s.history, b);
      assert InFlight(s, b) >= 0;
    }
    forall b | b in s.completed ensures b in c.Lists() {
      OccursMember(s.history, b);
      assert InFlight(s, b) >= 0;
    }
  }

  /** Every step of every thread keeps the invariant. */
  lemma StepKeeps(c: Config, s: State, step: Step)
    requires Inv(c, s) && Enabled(c, s, step)
    ensures Inv(c, Apply(c, s, step))
  {
    StepRecords(c, s, step);
    StepConserves(c, s, step);
    StepKeepsPrepareSide(c, s, step);
    StepKeepsComputeSide(c, s, step);
    if step.WriteTemp? { CheckpointIsSound(c, s); }
  }
}
