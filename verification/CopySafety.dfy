/** What every reachable state of the parallel copy satisfies. */
module CopySafety {
  import opened ThreadPool
  import opened ParallelCopy

  ghost function Submitted(s: State): nat {
    match s.main
    case Submitting(i) => i
    case NotifyingWorker(i) => i + 1
    case _ => s.plan.tasks
  }

  /** The number of chunks that workers took from the queue. */
  ghost function Taken(s: State): int {
    Submitted(s) - |s.pool.queue|
  }

  ghost predicate Copied(s: State, from: nat, len: int) {
    from + len <= |s.dst| && |s.dst| == |s.src| && forall b :: from <= b < from + len ==> s.dst[b] == s.src[b]
  }

  ghost predicate AtCopy(worker: Worker<Job>) {
    worker.Running? && worker.action.Copy?
  }

  ghost predicate Copies(worker: Worker<Job>, i: int) {
    AtCopy(worker) && worker.action.i == i
  }

  ghost predicate SomeoneCopies(s: State, i: int) {
    exists w :: 0 <= w < |s.pool.workers| && Copies(s.pool.workers[w], i)
  }

  ghost predicate Clash(x: Worker<Job>, y: Worker<Job>) {
    AtCopy(x) && Copies(y, x.action.i)
  }

  ghost predicate Shape(s: State) {
    && |s.src| == |s.dst| == s.plan.size && Fits(s.plan)
    && match s.main
       case Submitting(i) => i <= s.plan.tasks <= |s.pool.workers|
       case NotifyingWorker(i) => i < s.plan.tasks <= |s.pool.workers|
       case CopyingTail(c) => c <= Tail(s)
       case Joining(k) => k <= |s.pool.workers|
       case _ => true
  }

  /** The queue holds the latest chunks, in order and untouched. */
  ghost predicate Queued(s: State) {
    0 <= Taken(s) && forall j :: 0 <= j < |s.pool.queue| ==> s.pool.queue[j] == Copy(Taken(s) + j, 0)
  }

  ghost predicate WorkerOk(s: State, worker: Worker<Job>) {
    AtCopy(worker) ==>
      && worker.action.i < Taken(s) && worker.action.copied <= s.plan.chunk
      && Copied(s, Offset(s.plan, worker.action.i), worker.action.copied)
  }

  ghost predicate WorkersOk(s: State) {
    && (forall w :: 0 <= w < |s.pool.workers| ==> WorkerOk(s, s.pool.workers[w]))
    && forall v, w :: 0 <= v < w < |s.pool.workers| ==> !Clash(s.pool.workers[v], s.pool.workers[w])
  }

  ghost predicate ChunkDone(s: State, i: nat) {
    SomeoneCopies(s, i) || Copied(s, Offset(s.plan, i), s.plan.chunk)
  }

  ghost predicate AllChunksDone(s: State) {
    forall i: nat :: i < Taken(s) ==> ChunkDone(s, i)
  }

  ghost predicate Progress(s: State) {
    && AllChunksDone(s)
    && match s.main
       case Submitting(_) => true
       case NotifyingWorker(_) => true
       case CopyingTail(c) => Copied(s, Offset(s.plan, s.plan.tasks), c)
       case _ => Copied(s, Offset(s.plan, s.plan.tasks), Tail(s))
  }

  ghost function Held(worker: Worker<Job>): nat {
    if worker.Running? && !worker.action.Notify? then 1 else 0
  }

  /** remaining_tasks_cnt counts the chunks not yet submitted, queued, or in a worker's hands. */
  ghost predicate Counted(s: State) {
    s.remaining == s.plan.tasks - Submitted(s) + |s.pool.queue| + Sum(s.pool.workers, Held)
  }

  ghost predicate BetweenCalls(s: State) {
    s.main.Idle? || s.main.StopSet? || s.main.Joining? || s.main.Done?
  }

  ghost predicate Safe(s: State) {
    && Shape(s) && Queued(s) && WorkersOk(s) && Progress(s) && Counted(s)
    && (BetweenCalls(s) ==> s.remaining == 0)
    && (s.pool.stop <==> s.main.StopSet? || s.main.Joining? || s.main.Done?)
  }

  // Consequences

  lemma NobodyCopies(s: State)
    requires Counted(s) && s.remaining == 0 && Submitted(s) <= s.plan.tasks
    ensures s.pool.queue == [] && Sum(s.pool.workers, Held) == 0
    ensures forall w :: 0 <= w < |s.pool.workers| ==> Held(s.pool.workers[w]) == 0
  {
    forall w | 0 <= w < |s.pool.workers| ensures Held(s.pool.workers[w]) == 0 {
      SumPart(s.pool.workers, Held, w);
    }
  }

  /** Whenever no call is in progress the target holds the source. */
  lemma ReturnedMeansCopied(s: State)
    requires Safe(s) && BetweenCalls(s)
    ensures s.dst == s.src
  {
    NobodyCopies(s);
    forall b | 0 <= b < |s.dst| ensures s.dst[b] == s.src[b] {
      var i := PieceOf(s.plan, b);
      if i < s.plan.tasks {
        assert ChunkDone(s, i);
      }
    }
  }

  // Copying bytes

  /** t has every right byte that s has. */
  ghost predicate Grows(s: State, t: State) {
    && s.plan == t.plan && s.src == t.src && |s.dst| == |t.dst| == |s.src|
    && forall b :: 0 <= b < |s.dst| && s.dst[b] == s.src[b] ==> t.dst[b] == s.src[b]
  }

  lemma CopiedGrows(s: State, t: State, from: nat, len: int)
    requires Copied(s, from, len) && Grows(s, t)
    ensures Copied(t, from, len)
  {}

  lemma CopyByteGrows(s: State, k: nat)
    requires |s.src| == |s.dst|
    ensures Grows(s, CopyByte(s, k)) && CopyByte(s, k) == s.(dst := CopyByte(s, k).dst)
  {}

  lemma CopyByteExtends(s: State, from: nat, c: nat)
    requires Copied(s, from, c) && from + c < |s.dst|
    ensures Copied(CopyByte(s, from + c), from, c + 1)
  {}

  lemma WorkerOkGrows(s: State, t: State, worker: Worker<Job>)
    requires WorkerOk(s, worker) && Grows(s, t) && Taken(s) <= Taken(t)
    ensures WorkerOk(t, worker)
  {
    if AtCopy(worker) {
      CopiedGrows(s, t, Offset(s.plan, worker.action.i), worker.action.copied);
    }
  }

  lemma WorkersGrow(s: State, t: State)
    requires WorkersOk(s) && Grows(s, t) && Taken(s) <= Taken(t) && |s.pool.workers| == |t.pool.workers|
    requires forall v :: 0 <= v < |t.pool.workers| ==>
      t.pool.workers[v] == s.pool.workers[v] || WorkerOk(t, t.pool.workers[v])
    requires forall v :: 0 <= v < |t.pool.workers| ==> SameChunk(s.pool.workers[v], t.pool.workers[v])
    ensures WorkersOk(t)
  {
    hide WorkerOk, Grows;
    forall v | 0 <= v < |t.pool.workers| ensures WorkerOk(t, t.pool.workers[v]) {
      if t.pool.workers[v] == s.pool.workers[v] { WorkerOkGrows(s, t, t.pool.workers[v]); }
    }
    forall v, w | 0 <= v < w < |t.pool.workers| ensures !Clash(t.pool.workers[v], t.pool.workers[w]) {
      assert !Clash(s.pool.workers[v], s.pool.workers[w]);
      assert SameChunk(s.pool.workers[v], t.pool.workers[v]) && SameChunk(s.pool.workers[w], t.pool.workers[w]);
    }
  }

  /** If y copies a chunk, x copies it too. */
  ghost predicate SameChunk(x: Worker<Job>, y: Worker<Job>) {
    AtCopy(y) ==> Copies(x, y.action.i)
  }

  lemma ChunksGrow(s: State, t: State)
    requires AllChunksDone(s) && Grows(s, t) && Taken(t) == Taken(s)
    requires forall i: nat :: i < Taken(s) && SomeoneCopies(s, i) ==> ChunkDone(t, i)
    ensures AllChunksDone(t)
  {
    hide Copied, Offset, SomeoneCopies;
    forall i: nat | i < Taken(t) ensures ChunkDone(t, i) {
      assert ChunkDone(s, i);
      if !SomeoneCopies(s, i) { CopiedGrows(s, t, Offset(s.plan, i), s.plan.chunk); }
    }
  }

  lemma StillCopied(s: State, t: State, i: nat)
    requires SomeoneCopies(s, i) && |s.pool.workers| == |t.pool.workers|
    requires forall v :: 0 <= v < |t.pool.workers| ==> SameChunk(t.pool.workers[v], s.pool.workers[v])
    ensures ChunkDone(t, i)
  {
    var w :| 0 <= w < |s.pool.workers| && Copies(s.pool.workers[w], i);
    assert SameChunk(t.pool.workers[w], s.pool.workers[w]);
    assert Copies(t.pool.workers[w], i);
  }

  /** A step that leaves every chunk with who has it. */
  lemma DataKept(s: State, t: State)
    requires WorkersOk(s) && AllChunksDone(s) && Grows(s, t) && Taken(t) == Taken(s)
    requires |s.pool.workers| == |t.pool.workers|
    requires forall v :: 0 <= v < |t.pool.workers| ==>
      && (t.pool.workers[v] == s.pool.workers[v] || WorkerOk(t, t.pool.workers[v]))
      && SameChunk(s.pool.workers[v], t.pool.workers[v]) && SameChunk(t.pool.workers[v], s.pool.workers[v])
    ensures WorkersOk(t) && AllChunksDone(t)
  {
    hide WorkersOk, AllChunksDone, Grows, WorkerOk, SameChunk, ChunkDone, SomeoneCopies;
    WorkersGrow(s, t);
    forall i: nat | i < Taken(s) && SomeoneCopies(s, i) ensures ChunkDone(t, i) {
      StillCopied(s, t, i);
    }
    ChunksGrow(s, t);
  }

  // Steps of the caller

  lemma TailStepSafe(s: State)
    requires Safe(s) && s.main.CopyingTail?
    ensures Safe(MainStepped(s))
  {
    hide Sum, WorkersOk, AllChunksDone, Copied, Fits, CopyByte, Grows;
    var t := MainStepped(s);
    var from := Offset(s.plan, s.plan.tasks);
    if s.main.copied < Tail(s) {
      var k := from + s.main.copied;
      CopyByteGrows(s, k);
      CopyByteExtends(s, from, s.main.copied);
      assert Grows(s, t) by { SameGrows(s, CopyByte(s, k), t); }
      DataKept(s, t);
      SameCopied(CopyByte(s, k), t, from, s.main.copied + 1);
    } else {
      MainMoved(s, t);
    }
  }

  lemma SameGrows(s: State, t: State, u: State)
    requires Grows(s, t) && t.plan == u.plan && t.src == u.src && t.dst == u.dst
    ensures Grows(s, u)
  {}

  lemma SameCopied(s: State, t: State, from: nat, len: int)
    requires Copied(s, from, len) && s.src == t.src && s.dst == t.dst
    ensures Copied(t, from, len)
  {}

  lemma MainMoved(s: State, t: State)
    requires Shape(s) && WorkersOk(s) && AllChunksDone(s) && t == s.(main := t.main) && Submitted(s) == Submitted(t)
    ensures WorkersOk(t) && AllChunksDone(t)
    ensures forall from: nat, len :: Copied(s, from, len) ==> Copied(t, from, len)
  {
    hide WorkersOk, AllChunksDone;
    DataKept(s, t);
  }

  lemma PushSafe(s: State)
    requires Safe(s) && s.main.Submitting? && s.main.i < s.plan.tasks
    ensures Safe(MainStepped(s))
  {
    hide Sum, WorkersOk, AllChunksDone, Copied, Fits, Grows;
    var t := MainStepped(s);
    assert Grows(s, t) by { AlwaysGrows(s, t); }
    DataKept(s, t);
  }

  lemma AlwaysGrows(s: State, t: State)
    requires Shape(s) && s.plan == t.plan && s.src == t.src && s.dst == t.dst
    ensures Grows(s, t)
  {}

  /** Steps of the caller that move no data: the rest of the loop, the checks and the joins. */
  lemma OtherMainStepSafe(s: State)
    requires Safe(s) && MainCanStep(s) && !s.main.CopyingTail? && !s.main.StopSet?
    requires s.main.Submitting? ==> s.main.i == s.plan.tasks
    ensures Safe(MainStepped(s))
  {
    hide Sum, WorkersOk, AllChunksDone, Grows, SomeWaiting;
    MainMoved(s, MainStepped(s));
  }

  /** Waking a thread that waits moves no data either. */
  lemma WakeSafe(s: State, t: State)
    requires Safe(s) && t == s.(pool := t.pool, main := t.main) && t.pool == s.pool.(workers := t.pool.workers)
    requires |s.pool.workers| == |t.pool.workers| && Submitted(s) == Submitted(t)
    requires forall w :: 0 <= w < |s.pool.workers| ==> Wakes(s.pool.workers[w], t.pool.workers[w])
    requires Shape(t) && (BetweenCalls(t) <==> BetweenCalls(s))
    requires s.main == t.main || (s.main.NotifyingWorker? && t.main.Submitting?) || (s.main.StopSet? && t.main.Joining?)
    ensures Safe(t)
  {
    hide Sum, WorkersOk, AllChunksDone, Fits, Grows, Copied;
    assert Grows(s, t) by { AlwaysGrows(s, t); }
    DataKept(s, t);
    forall from: nat, len | Copied(s, from, len) ensures Copied(t, from, len) {
      SameCopied(s, t, from, len);
    }
    SumSame(s.pool.workers, t.pool.workers);
  }

  ghost predicate Wakes(x: Worker<Job>, y: Worker<Job>) {
    x == y || (x.Waiting? && y.Woken?)
  }

  lemma {:induction false} SumSame(xs: seq<Worker<Job>>, ys: seq<Worker<Job>>)
    requires |xs| == |ys| && forall i :: 0 <= i < |xs| ==> Held(xs[i]) == Held(ys[i])
    ensures Sum(xs, Held) == Sum(ys, Held)
    decreases |xs|
  {
    if xs != [] { SumSame(xs[1..], ys[1..]); }
  }

  // Steps of a worker

  lemma WorkerCopySafe(s: State, w: nat)
    requires Safe(s) && w < |s.pool.workers| && AtCopy(s.pool.workers[w])
    requires s.pool.workers[w].action.copied < s.plan.chunk
    ensures Safe(WorkerStepped(s, w))
  {
    hide Sum, Copied, Fits, CopyByte, Grows, AllChunksDone;
    var t := WorkerStepped(s, w);
    var job := s.pool.workers[w].action;
    assert WorkerOk(s, s.pool.workers[w]);
    var k := Offset(s.plan, job.i) + job.copied;
    CopyByteGrows(s, k);
    SameGrows(s, CopyByte(s, k), t);
    ChunkInside(s.plan, job.i);
    CopyByteExtends(s, Offset(s.plan, job.i), job.copied);
    SameCopied(CopyByte(s, k), t, Offset(s.plan, job.i), job.copied + 1);
    DataKept(s, t);
    SumUpdate(s.pool.workers, Held, w, t.pool.workers[w]);
    TailGrows(s, t);
    assert Shape(t) && Queued(t);
  }

  lemma TailGrows(s: State, t: State)
    requires Grows(s, t)
    ensures forall from: nat, len :: Copied(s, from, len) ==> Copied(t, from, len)
  {
    hide Grows;
    forall from: nat, len | Copied(s, from, len) ensures Copied(t, from, len) {
      CopiedGrows(s, t, from, len);
    }
  }

  /** A worker gives up what it has, if anything: it does not copy afterwards. */
  lemma WorkerReleases(s: State, t: State, w: nat)
    requires Shape(s) && WorkersOk(s) && AllChunksDone(s)
    requires w < |s.pool.workers| == |t.pool.workers|
    requires t == SetWorker(s, w, t.pool.workers[w]).(remaining := t.remaining, main := t.main)
    requires !AtCopy(t.pool.workers[w]) && Submitted(s) == Submitted(t)
    requires AtCopy(s.pool.workers[w]) ==> s.pool.workers[w].action.copied == s.plan.chunk
    ensures WorkersOk(t) && AllChunksDone(t)
    ensures Sum(t.pool.workers, Held) + Held(s.pool.workers[w]) == Sum(s.pool.workers, Held) + Held(t.pool.workers[w])
    ensures forall from: nat, len :: Copied(s, from, len) ==> Copied(t, from, len)
  {
    hide Sum, Copied, Fits, Grows, AllChunksDone;
    assert Grows(s, t) by { AlwaysGrows(s, t); }
    WorkersGrow(s, t);
    TailGrows(s, t);
    SumUpdate(s.pool.workers, Held, w, t.pool.workers[w]);
    forall i: nat | i < Taken(s) && SomeoneCopies(s, i) ensures ChunkDone(t, i) {
      if Copies(s.pool.workers[w], i) {
        assert WorkerOk(s, s.pool.workers[w]);
      } else {
        var v :| 0 <= v < |s.pool.workers| && Copies(s.pool.workers[v], i);
        assert Copies(t.pool.workers[v], i);
      }
    }
    ChunksGrow(s, t);
  }

  lemma WorkerFinishSafe(s: State, w: nat)
    requires Safe(s) && w < |s.pool.workers| && s.pool.workers[w].Running?
    requires AtCopy(s.pool.workers[w]) ==> s.pool.workers[w].action.copied >= s.plan.chunk
    ensures Safe(WorkerStepped(s, w))
  {
    hide Sum, Copied, Fits, AllChunksDone;
    assert WorkerOk(s, s.pool.workers[w]);
    WorkerReleases(s, WorkerStepped(s, w), w);
    assert BetweenCalls(s) ==> Held(s.pool.workers[w]) == 0 by {
      if BetweenCalls(s) { NobodyCopies(s); }
    }
  }

  lemma WorkerRestsSafe(s: State, w: nat)
    requires Safe(s) && CanLock(s.pool, w) && !Lock(s.pool, w).workers[w].Running?
    ensures Safe(WorkerStepped(s, w))
  {
    hide Sum, Copied, Fits, AllChunksDone, WorkersOk;
    WorkerReleases(s, WorkerStepped(s, w), w);
  }

  lemma WorkerTakesSafe(s: State, w: nat)
    requires Safe(s) && CanLock(s.pool, w) && Lock(s.pool, w).workers[w].Running?
    ensures Safe(WorkerStepped(s, w))
  {
    hide Sum, Fits, Copied, AllChunksDone, Grows;
    var t := WorkerStepped(s, w);
    assert Grows(s, t) by { AlwaysGrows(s, t); }
    TailGrows(s, t);
    SumUpdate(s.pool.workers, Held, w, t.pool.workers[w]);
    assert Taken(t) == Taken(s) + 1;
    forall v | 0 <= v < |t.pool.workers| && v != w ensures WorkerOk(t, t.pool.workers[v]) {
      WorkerOkGrows(s, t, s.pool.workers[v]);
    }
    CopiedNothing(t);
    TakenChunksDone(s, t, w);
  }

  lemma TakenChunksDone(s: State, t: State, w: nat)
    requires AllChunksDone(s) && Grows(s, t) && 0 <= Taken(s) && Taken(t) == Taken(s) + 1
    requires w < |s.pool.workers| && t.pool.workers == s.pool.workers[w := Running(Copy(Taken(s), 0))]
        && !AtCopy(s.pool.workers[w])
    ensures AllChunksDone(t)
  {
    hide Grows, Copied, Offset;
    forall i: nat | i < Taken(t) ensures ChunkDone(t, i) {
      if i == Taken(s) {
        assert Copies(t.pool.workers[w], i);
      } else {
        assert ChunkDone(s, i);
        if SomeoneCopies(s, i) {
          var v :| 0 <= v < |s.pool.workers| && Copies(s.pool.workers[v], i);
          assert Copies(t.pool.workers[v], i);
        } else {
          CopiedGrows(s, t, Offset(s.plan, i), s.plan.chunk);
          assert s.plan == t.plan by { GrowsPlan(s, t); }
        }
      }
    }
  }

  lemma GrowsPlan(s: State, t: State)
    requires Grows(s, t)
    ensures s.plan == t.plan
  {}

  lemma CopiedNothing(s: State)
    requires |s.src| == |s.dst| == s.plan.size && Fits(s.plan)
    ensures forall i: nat :: i <= s.plan.tasks ==> Copied(s, Offset(s.plan, i), 0)
  {
    hide Offset;
    forall i: nat | i <= s.plan.tasks ensures Copied(s, Offset(s.plan, i), 0) {
      assert Offset(s.plan, i) <= s.plan.size by {
        if i < s.plan.tasks { ChunkInside(s.plan, i); } else { FitsSays(s.plan); }
      }
    }
  }

  lemma FitsSays(p: Plan)
    requires Fits(p)
    ensures Offset(p, p.tasks) <= p.size
  {}

  // Beginning and ending

  lemma CallSafe(s: State, e: Event)
    requires Safe(s) && e.Call? && Enabled(s, e)
    ensures Safe(Apply(s, e))
  {
    hide Sum, Fits, Copied, MakePlan, Offset;
    var t := Apply(s, e);
    NobodyCopies(s);
    MadePlanFits(|e.source|, e.pagesize, |s.pool.workers|);
    assert t.plan.size == |e.source| by { PlanSize(|e.source|, e.pagesize, |s.pool.workers|); }
    forall w | 0 <= w < |t.pool.workers| ensures !AtCopy(t.pool.workers[w]) {
      assert Held(s.pool.workers[w]) == 0;
    }
  }

  lemma PlanSize(size: nat, pagesize: nat, threads: nat)
    requires 0 < pagesize
    ensures MakePlan(size, pagesize, threads).size == size
  {}

  lemma InitializeSafe(s: State, threads: nat)
    requires Safe(s) && s.main.Done?
    ensures Safe(Apply(s, Initialize(threads)))
  {
    hide Sum, Fits;
    var t := Apply(s, Initialize(threads));
    ReturnedMeansCopied(s);
    NobodyHolds(t.pool.workers);
    forall i: nat | i < Taken(t) ensures ChunkDone(t, i) {
      ChunkInside(s.plan, i);
    }
    FitsSays(s.plan);
  }

  lemma {:induction false} NobodyHolds(workers: seq<Worker<Job>>)
    requires forall w :: 0 <= w < |workers| ==> workers[w].Ready?
    ensures Sum(workers, Held) == 0
    decreases |workers|
  {
    if workers != [] { NobodyHolds(workers[1..]); }
  }

  lemma StopSafe(s: State)
    requires Safe(s) && s.main.Idle?
    ensures Safe(Apply(s, Stop))
  {
    hide Sum, WorkersOk, AllChunksDone, Fits, Copied;
    var t := Apply(s, Stop);
    assert Grows(s, t) by { AlwaysGrows(s, t); }
    DataKept(s, t);
    TailGrows(s, t);
  }

  lemma StepSafe(s: State, e: Event)
    requires Safe(s) && Enabled(s, e)
    ensures Safe(Apply(s, e))
  {
    hide Safe, Sum, Offset, Copied;
    match e
    case Initialize(threads) => InitializeSafe(s, threads);
    case Call(_, _, _) => CallSafe(s, e);
    case Stop => StopSafe(s);
    case MainStep => MainStepSafe(s);
    case WakeWorker(w) => OneWokenSafe(s, w, Submitting(s.main.i + 1));
    case WorkerStep(w) => WorkerStepSafe(s, w);
    case SpuriousMain => SpuriousMainSafe(s);
    case SpuriousWorker(w) => OneWokenSafe(s, w, s.main);
  }

  lemma MainStepSafe(s: State)
    requires Safe(s) && MainCanStep(s)
    ensures Safe(MainStepped(s))
  {
    hide Sum, Offset, Copied, WorkersOk, AllChunksDone, Fits, SomeWaiting;
    if s.main.CopyingTail? { TailStepSafe(s); }
    else if s.main.StopSet? { WakeSafe(s, MainStepped(s)); }
    else if s.main.Submitting? && s.main.i < s.plan.tasks { PushSafe(s); }
    else { OtherMainStepSafe(s); }
  }

  lemma OneWokenSafe(s: State, w: nat, main: Main)
    requires Safe(s) && w < |s.pool.workers| && s.pool.workers[w].Waiting?
    requires main == s.main || (s.main.NotifyingWorker? && main == Submitting(s.main.i + 1))
    ensures Safe(s.(pool := Wake(s.pool, w), main := main))
  {
    hide Sum, Offset, Copied, WorkersOk, AllChunksDone, Fits;
    WakeSafe(s, s.(pool := Wake(s.pool, w), main := main));
  }

  lemma SpuriousMainSafe(s: State)
    requires Safe(s) && s.main.Blocked?
    ensures Safe(s.(main := Awake))
  {
    hide Sum, WorkersOk, AllChunksDone, Fits;
    MainMoved(s, s.(main := Awake));
  }

  lemma WorkerStepSafe(s: State, w: nat)
    requires Safe(s) && WorkerCanStep(s, w)
    ensures Safe(WorkerStepped(s, w))
  {
    hide Safe, WorkerStepped;
    var worker := s.pool.workers[w];
    if AtCopy(worker) && worker.action.copied < s.plan.chunk { WorkerCopySafe(s, w); }
    else if worker.Running? { WorkerFinishSafe(s, w); }
    else if Lock(s.pool, w).workers[w].Running? { WorkerTakesSafe(s, w); }
    else { WorkerRestsSafe(s, w); }
  }

  lemma StartSafe()
    ensures Safe(Start())
  {}

  lemma {:induction false} RunSafe(s: State, es: seq<Event>)
    requires Safe(s) && Possible(s, es)
    ensures Safe(After(s, es))
    decreases |es|
  {
    hide Safe, Enabled, Apply;
    if es != [] {
      StepSafe(s, es[0]);
      RunSafe(Apply(s, es[0]), es[1..]);
    }
  }

  // The theorems

  lemma {:induction false} RunFrom(s: State, es: seq<Event>, more: seq<Event>)
    requires Possible(s, es + more)
    ensures Possible(s, es) && Possible(After(s, es), more)
    ensures After(s, es + more) == After(After(s, es), more)
    decreases |es|
  {
    hide Enabled, Apply;
    if es == [] {
      assert es + more == more;
    } else {
      assert (es + more)[0] == es[0] && (es + more)[1..] == es[1..] + more;
      RunFrom(Apply(s, es[0]), es[1..], more);
    }
  }

  lemma SourceStays(s: State, e: Event)
    requires Enabled(s, e) && !e.Call?
    ensures Apply(s, e).src == s.src
  {}

  lemma {:induction false} SourceOfRun(s: State, es: seq<Event>)
    requires Possible(s, es) && forall i :: 0 <= i < |es| ==> !es[i].Call?
    ensures After(s, es).src == s.src
    decreases |es|
  {
    hide Enabled, Apply;
    if es != [] {
      SourceStays(s, es[0]);
      SourceOfRun(Apply(s, es[0]), es[1..]);
    }
  }

  /** In every interleaving, after any earlier calls and whatever the size, page size and
      number of threads: when parallel_memcpy has returned, the target is the source. */
  lemma EveryCallCopies(before: seq<Event>, e: Event, during: seq<Event>)
    requires Possible(Start(), before + [e] + during) && e.Call?
    requires forall i :: 0 <= i < |during| ==> !during[i].Call?
    requires After(Start(), before + [e] + during).main.Idle?
    ensures After(Start(), before + [e] + during).dst == e.source
  {
    hide Safe, Enabled, Start;
    StartSafe();
    RunSafe(Start(), before + [e] + during);
    ReturnedMeansCopied(After(Start(), before + [e] + during));
    RunFrom(Start(), before + [e], during);
    RunFrom(Start(), before, [e]);
    SourceOfRun(After(Start(), before + [e]), during);
    OneStep(After(Start(), before), e);
  }

  lemma OneStep(s: State, e: Event)
    requires Possible(s, [e]) && e.Call?
    ensures After(s, [e]).src == e.source
  {
    assert [e][1..] == [];
  }

  /** The unchecked deque has room at every submit: its capacity is the number of threads. */
  lemma QueueNeverOverflows(es: seq<Event>)
    requires Possible(Start(), es)
    ensures var s := After(Start(), es);
      s.main.Submitting? && s.main.i < s.plan.tasks ==> |s.pool.queue| < |s.pool.workers|
  {
    hide Sum, WorkersOk, AllChunksDone, Copied;
    StartSafe();
    RunSafe(Start(), es);
  }

  /** The unsigned counter is decremented only when it is positive. */
  lemma CounterNeverWraps(es: seq<Event>, w: nat)
    requires Possible(Start(), es)
    ensures var s := After(Start(), es);
      && 0 <= s.remaining
      && (w < |s.pool.workers| && s.pool.workers[w] == Running(Count) ==> s.remaining > 0)
  {
    hide Sum, WorkersOk, AllChunksDone, Copied, Fits;
    StartSafe();
    RunSafe(Start(), es);
    var s := After(Start(), es);
    if w < |s.pool.workers| { SumPart(s.pool.workers, Held, w); }
  }

  /** The byte that thread t (a worker, or the caller at |workers|) is about to write. */
  ghost predicate Writes(s: State, t: nat, k: int) {
    if t < |s.pool.workers| then
      var worker := s.pool.workers[t];
      && AtCopy(worker) && worker.action.copied < s.plan.chunk
      && k == Offset(s.plan, worker.action.i) + worker.action.copied
    else
      s.main.CopyingTail? && s.main.copied < Tail(s) && k == Offset(s.plan, s.plan.tasks) + s.main.copied
  }

  lemma WriteInPiece(s: State, t: nat, k: int) returns (i: nat)
    requires Safe(s) && t <= |s.pool.workers| && Writes(s, t, k)
    ensures i <= s.plan.tasks && 0 <= k < |s.dst| && InPiece(s.plan, i, k)
    ensures if t < |s.pool.workers| then i < s.plan.tasks && Copies(s.pool.workers[t], i) else i == s.plan.tasks
  {
    hide Sum, AllChunksDone;
    if t < |s.pool.workers| {
      assert WorkerOk(s, s.pool.workers[t]);
      i := s.pool.workers[t].action.i;
      ChunkInside(s.plan, i);
    } else {
      i := s.plan.tasks;
    }
  }

  /** Every write stays inside the target, and no two threads ever write the same byte. */
  lemma NoRaces(es: seq<Event>, t: nat, k: int, u: nat, l: int)
    requires Possible(Start(), es)
    requires var s := After(Start(), es);
      t < u <= |s.pool.workers| && Writes(s, t, k) && Writes(s, u, l)
    ensures var s := After(Start(), es); 0 <= k < |s.dst| && 0 <= l < |s.dst| && k != l
  {
    hide Sum, AllChunksDone, Copied, Writes, InPiece;
    StartSafe();
    RunSafe(Start(), es);
    var s := After(Start(), es);
    var i := WriteInPiece(s, t, k);
    var j := WriteInPiece(s, u, l);
    assert !(u < |s.pool.workers| && Clash(s.pool.workers[t], s.pool.workers[u]));
    if k == l { var m := PieceOf(s.plan, k); }
  }
}
