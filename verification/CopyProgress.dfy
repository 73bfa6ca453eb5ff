/** No wakeup of the parallel copy is lost, nothing deadlocks, and every call returns. */
module CopyProgress {
  import opened ThreadPool
  import opened ParallelCopy
  import opened CopySafety

  ghost predicate SomeoneNotifies(s: State) {
    exists w :: 0 <= w < |s.pool.workers| && s.pool.workers[w] == Running(Notify)
  }

  /** Queued chunks have an awake worker, or the caller is about to wake one. */
  ghost predicate WorkIsSeen(s: State) {
    s.pool.queue != [] && !s.main.NotifyingWorker? ==> SomeAwake(s.pool)
  }

  /** The last chunk wakes the caller. */
  ghost predicate EndIsSeen(s: State) {
    s.main.Blocked? && s.remaining == 0 ==> SomeoneNotifies(s)
  }

  /** stop reaches every worker, and joined workers are gone. */
  ghost predicate StopIsSeen(s: State) {
    && (forall w :: 0 <= w < |s.pool.workers| && s.pool.workers[w].Exited? ==> s.pool.stop)
    && (s.main.Joining? || s.main.Done? ==> !SomeWaiting(s.pool))
    && (s.main.Joining? ==> forall w :: 0 <= w < s.main.k && w < |s.pool.workers| ==> s.pool.workers[w].Exited?)
    && (s.main.Done? ==> forall w :: 0 <= w < |s.pool.workers| ==> s.pool.workers[w].Exited?)
  }

  ghost predicate Live(s: State) {
    WorkIsSeen(s) && EndIsSeen(s) && StopIsSeen(s)
  }

  lemma WorkStaysSeen(s: State, e: Event)
    requires Safe(s) && Live(s) && Enabled(s, e)
    ensures WorkIsSeen(Apply(s, e))
  {
    hide Sum, WorkersOk, AllChunksDone, Copied, Fits, Offset, MakePlan;
    var t := Apply(s, e);
    if BetweenCalls(s) { NobodyCopies(s); }
    match e
    case WakeWorker(w) => assert t.pool.workers[w].Woken?;
    case SpuriousWorker(w) => assert t.pool.workers[w].Woken?;
    case WorkerStep(w) =>
      if t.pool.queue != [] && !t.main.NotifyingWorker? {
        assert !t.pool.workers[w].Waiting? && !t.pool.workers[w].Exited?;
      }
    case MainStep =>
      if s.main.NotifyingWorker? { assert !s.pool.workers[0].Waiting? && !s.pool.workers[0].Exited?; }
    case Initialize(_) =>
    case Call(_, _, _) =>
    case Stop =>
    case SpuriousMain =>
  }

  lemma EndStaysSeen(s: State, e: Event)
    requires Safe(s) && Live(s) && Enabled(s, e)
    ensures EndIsSeen(Apply(s, e))
  {
    hide Sum, WorkersOk, AllChunksDone, Copied, Fits, Offset, MakePlan;
    var t := Apply(s, e);
    if e.WorkerStep? && t.main.Blocked? && t.remaining == 0 {
      if s.remaining == 0 {
        var w :| 0 <= w < |s.pool.workers| && s.pool.workers[w] == Running(Notify);
        assert t.pool.workers[w] == Running(Notify);
      } else {
        assert t.pool.workers[e.w] == Running(Notify);
      }
    } else if e.SpuriousWorker? && t.main.Blocked? && t.remaining == 0 {
      var w :| 0 <= w < |s.pool.workers| && s.pool.workers[w] == Running(Notify);
      assert t.pool.workers[w] == Running(Notify);
    }
  }

  lemma StopStaysSeenByWorker(s: State, w: nat)
    requires Safe(s) && StopIsSeen(s) && WorkerCanStep(s, w)
    ensures StopIsSeen(WorkerStepped(s, w))
  {
    hide Sum, WorkersOk, AllChunksDone, Copied, Fits, Shape, Queued, Counted, Progress, CopyByte;
    var t := WorkerStepped(s, w);
    CopyByteMoves(s);
    assert forall v :: 0 <= v < |s.pool.workers| && v != w ==> t.pool.workers[v] == s.pool.workers[v];
  }

  lemma CopyByteMoves(s: State)
    ensures forall k :: CopyByte(s, k) == s.(dst := CopyByte(s, k).dst)
  {}

  lemma StopStaysSeen(s: State, e: Event)
    requires Safe(s) && Live(s) && Enabled(s, e)
    ensures StopIsSeen(Apply(s, e))
  {
    hide Sum, WorkersOk, AllChunksDone, Copied, Fits, Offset, MakePlan, WorkerStepped, WorkerCanStep;
    if e.WorkerStep? { StopStaysSeenByWorker(s, e.w); }
  }

  lemma {:induction false} RunLive(s: State, es: seq<Event>)
    requires Safe(s) && Live(s) && Possible(s, es)
    ensures Safe(After(s, es)) && Live(After(s, es))
    decreases |es|
  {
    hide Safe, WorkIsSeen, EndIsSeen, StopIsSeen, Enabled, Apply;
    if es != [] {
      StepSafe(s, es[0]);
      WorkStaysSeen(s, es[0]);
      EndStaysSeen(s, es[0]);
      StopStaysSeen(s, es[0]);
      RunLive(Apply(s, es[0]), es[1..]);
    }
  }

  /** No wakeup is lost in any interleaving of any calls. */
  lemma NoLostWakeup(es: seq<Event>)
    requires Possible(Start(), es)
    ensures Safe(After(Start(), es)) && Live(After(Start(), es))
  {
    StartSafe();
    RunLive(Start(), es);
  }

  ghost predicate Internal(e: Event) {
    e.MainStep? || e.WakeWorker? || e.WorkerStep?
  }

  // No deadlock

  lemma BlockedIsNotStuck(s: State) returns (e: Event)
    requires Safe(s) && Live(s) && s.main.Blocked?
    ensures Internal(e) && Enabled(s, e)
  {
    hide Sum, WorkersOk, AllChunksDone, Copied, Fits, Offset;
    if s.remaining == 0 {
      var w :| 0 <= w < |s.pool.workers| && s.pool.workers[w] == Running(Notify);
      e := WorkerStep(w);
    } else if s.pool.queue != [] {
      var w :| 0 <= w < |s.pool.workers| && !s.pool.workers[w].Waiting? && !s.pool.workers[w].Exited?;
      e := WorkerStep(w);
    } else {
      var w := SumPositive(s.pool.workers, Held);
      e := WorkerStep(w);
    }
  }

  /** Unless no call is in progress, some thread can take a step that is no spurious wakeup. */
  lemma NoDeadlock(es: seq<Event>) returns (e: Event)
    requires Possible(Start(), es)
    requires var main := After(Start(), es).main; !main.Idle? && !main.Done?
    ensures Internal(e) && Enabled(After(Start(), es), e)
  {
    hide Safe, WorkIsSeen, EndIsSeen;
    var s := After(Start(), es);
    NoLostWakeup(es);
    e := MainStep;
    if s.main.Blocked? {
      e := BlockedIsNotStuck(s);
    } else if s.main.NotifyingWorker? && SomeWaiting(s.pool) {
      var w :| 0 <= w < |s.pool.workers| && s.pool.workers[w].Waiting?;
      e := WakeWorker(w);
    } else if s.main.Joining? && s.main.k < |s.pool.workers| && !s.pool.workers[s.main.k].Exited? {
      e := WorkerStep(s.main.k);
    }
  }

  // Every call returns

  ghost function WorkerWeight(chunk: nat): Worker<Job> -> nat {
    (worker: Worker<Job>) =>
      match worker
      case Exited => 0
      case Waiting => 1
      case Ready => 2
      case Woken => 2
      case Running(Notify) => 4
      case Running(Count) => 5
      case Running(Copy(_, c)) => 6 + if c < chunk then chunk - c else 0
  }

  ghost function ChunksToGo(p: Plan, n: int): int {
    n * (p.chunk + 8)
  }

  lemma OneChunkLess(p: Plan, n: int)
    ensures ChunksToGo(p, n) == ChunksToGo(p, n - 1) + p.chunk + 8
    ensures ChunksToGo(p, 0) == 0
  {}

  ghost function MainWeight(s: State): int {
    match s.main
    case Submitting(i) => ChunksToGo(s.plan, s.plan.tasks - i) + Tail(s) + 5
    case NotifyingWorker(i) => ChunksToGo(s.plan, s.plan.tasks - i - 1) + Tail(s) + 7
    case CopyingTail(c) => Tail(s) - c + 4
    case Checking => 3
    case Awake => 2
    case Blocked => 1
    case Idle => 0
    case StopSet => 2 * |s.pool.workers| + 2
    case Joining(k) => |s.pool.workers| - k + 1
    case Done => 0
  }

  ghost function Weight(s: State): int {
    MainWeight(s) + |s.pool.queue| * (s.plan.chunk + 5) + Sum(s.pool.workers, WorkerWeight(s.plan.chunk))
  }

  lemma WeightIsNatural(s: State)
    requires Safe(s)
    ensures Weight(s) >= 0
  {
    hide Sum, WorkersOk, AllChunksDone, Copied, Offset;
    match s.main
    case Submitting(i) => ProductsGrow(0, s.plan.tasks - i, s.plan.chunk + 8);
    case NotifyingWorker(i) => ProductsGrow(0, s.plan.tasks - i - 1, s.plan.chunk + 8);
    case _ =>
  }

  lemma JobWithinChunk(s: State, w: nat)
    requires Safe(s) && w < |s.pool.workers| && AtCopy(s.pool.workers[w])
    ensures s.pool.workers[w].action.copied <= s.plan.chunk
  {
    assert WorkerOk(s, s.pool.workers[w]);
  }

  lemma QueueHead(s: State)
    requires Safe(s) && s.pool.queue != []
    ensures s.pool.queue[0].Copy? && s.pool.queue[0].copied == 0
    ensures |s.pool.queue| * (s.plan.chunk + 5) == |s.pool.queue[1..]| * (s.plan.chunk + 5) + s.plan.chunk + 5
  {}

  lemma LockWeighs(s: State, w: nat)
    requires Safe(s) && CanLock(s.pool, w)
    ensures Weight(s.(pool := Lock(s.pool, w))) < Weight(s)
  {
    hide Sum, Safe, Fits, ChunksToGo, Offset, Copied;
    var t := s.(pool := Lock(s.pool, w));
    SumUpdate(s.pool.workers, WorkerWeight(s.plan.chunk), w, t.pool.workers[w]);
    assert t.pool.workers == s.pool.workers[w := t.pool.workers[w]];
    if s.pool.queue != [] { QueueHead(s); }
  }

  lemma RunningWeighs(s: State, w: nat)
    requires Safe(s) && w < |s.pool.workers| && s.pool.workers[w].Running?
    ensures Weight(WorkerStepped(s, w)) < Weight(s)
  {
    hide Sum, Safe, Fits, ChunksToGo, Offset, Copied, CopyByte;
    var t := WorkerStepped(s, w);
    CopyByteMoves(s);
    SumUpdate(s.pool.workers, WorkerWeight(s.plan.chunk), w, t.pool.workers[w]);
    if AtCopy(s.pool.workers[w]) { JobWithinChunk(s, w); }
    assert t.pool.workers == s.pool.workers[w := t.pool.workers[w]];
  }

  lemma WorkerStepWeighs(s: State, w: nat)
    requires Safe(s) && WorkerCanStep(s, w)
    ensures Weight(WorkerStepped(s, w)) < Weight(s)
  {
    hide Weight, Safe;
    if s.pool.workers[w].Running? { RunningWeighs(s, w); } else { LockWeighs(s, w); }
  }

  lemma MainStepWeighs(s: State)
    requires Safe(s) && MainCanStep(s)
    ensures Weight(MainStepped(s)) < Weight(s)
  {
    hide Sum, WorkersOk, AllChunksDone, Copied, Offset, ChunksToGo;
    var t := MainStepped(s);
    assert (|s.pool.queue| + 1) * (s.plan.chunk + 5) == |s.pool.queue| * (s.plan.chunk + 5) + s.plan.chunk + 5;
    match s.main
    case Submitting(i) => OneChunkLess(s.plan, s.plan.tasks - i);
    case StopSet => SumBound(s.pool.workers, t.pool.workers, WorkerWeight(s.plan.chunk), 1);
    case _ =>
  }

  lemma WakeWeighs(s: State, w: nat)
    requires w < |s.pool.workers| && s.pool.workers[w].Waiting?
    ensures var weight := WorkerWeight(s.plan.chunk);
      Sum(Wake(s.pool, w).workers, weight) == Sum(s.pool.workers, weight) + 1
  {
    hide Sum;
    SumUpdate(s.pool.workers, WorkerWeight(s.plan.chunk), w, Woken);
  }

  lemma StepWeighs(s: State, e: Event)
    requires Safe(s) && Enabled(s, e)
    ensures Internal(e) ==> Weight(Apply(s, e)) < Weight(s)
    ensures e.SpuriousMain? || e.SpuriousWorker? ==> Weight(Apply(s, e)) == Weight(s) + 1
  {
    hide Sum, Safe, Offset, ChunksToGo, WorkerStepped, MainStepped, MainCanStep, WorkerCanStep;
    match e
    case MainStep => MainStepWeighs(s);
    case WorkerStep(w) => WorkerStepWeighs(s, w);
    case WakeWorker(w) => WakeWeighs(s, w);
    case SpuriousWorker(w) => WakeWeighs(s, w);
    case _ =>
  }

  ghost function Spurious(es: seq<Event>): nat {
    if es == [] then 0 else (if Internal(es[0]) then 0 else 1) + Spurious(es[1..])
  }

  ghost predicate WithinCall(es: seq<Event>) {
    forall i :: 0 <= i < |es| ==> !es[i].Initialize? && !es[i].Call? && !es[i].Stop?
  }

  lemma {:induction false} RunIsShort(s: State, es: seq<Event>)
    requires Safe(s) && Possible(s, es) && WithinCall(es)
    ensures |es| <= Weight(s) + 2 * Spurious(es)
    decreases |es|
  {
    hide Safe, Weight, Enabled, Apply, Internal;
    if es == [] {
      WeightIsNatural(s);
    } else {
      assert !es[0].Initialize? && !es[0].Call? && !es[0].Stop?;
      assert WithinCall(es[1..]);
      StepSafe(s, es[0]);
      StepWeighs(s, es[0]);
      RunIsShort(Apply(s, es[0]), es[1..]);
      assert Internal(es[0]) || es[0].SpuriousMain? || es[0].SpuriousWorker? by { InternalSays(es[0]); }
    }
  }

  lemma InternalSays(e: Event)
    ensures Internal(e) || e.SpuriousMain? || e.SpuriousWorker? || e.Initialize? || e.Call? || e.Stop?
  {}

  /** However the threads are scheduled, the steps between two operations of the caller
      are bounded up to spurious wakeups; and where no step is left, the call (or stop)
      has returned. */
  lemma EveryCallReturns(before: seq<Event>, es: seq<Event>)
    requires Possible(Start(), before + es) && WithinCall(es)
    ensures Possible(Start(), before)
    ensures |es| <= Weight(After(Start(), before)) + 2 * Spurious(es)
    ensures var s := After(Start(), before + es);
      (forall e :: Internal(e) ==> !Enabled(s, e)) ==> s.main.Idle? || s.main.Done?
  {
    hide Safe, Weight, Enabled, Apply, Internal, WithinCall, Live;
    RunFrom(Start(), before, es);
    NoLostWakeup(before);
    RunIsShort(After(Start(), before), es);
    var s := After(Start(), before + es);
    if !s.main.Idle? && !s.main.Done? {
      var e := NoDeadlock(before + es);
    }
  }
}
