/** parallel_memcpy of Assignment10/src/parallel_memcpy.cpp over the thread pool.

    One caller (the functions keep their state in static variables) and the workers take
    steps in any order; a step is a critical section, a notification or the copy of one
    byte.  Replacing a pool stops it first, up to `Done`. */
module ParallelCopy {
  import opened ThreadPool

  type Byte = bv8

  const SIZE_MODULUS: nat := 0x1_0000_0000_0000_0000

  // Planning a call

  datatype Plan = Plan(tasks: nat, chunk: nat, size: nat)

  /** The number of chunks for the pool; the subtraction wraps around for a size below a page. */
  function TaskCount(size: nat, pagesize: nat, threads: nat): nat
    requires 0 < pagesize
  {
    var wanted := (size / pagesize + SIZE_MODULUS - 1) % SIZE_MODULUS;
    if wanted < threads then wanted else threads
  }

  function MakePlan(size: nat, pagesize: nat, threads: nat): Plan
    requires 0 < pagesize
  {
    var tasks := TaskCount(size, pagesize, threads);
    Plan(tasks, size / (tasks + 1), size)
  }

  ghost function Offset(p: Plan, i: nat): nat {
    i * p.chunk
  }

  /** Piece i of the plan: one chunk, or the tail when i is the number of chunks. */
  ghost predicate InPiece(p: Plan, i: nat, b: nat) {
    Offset(p, i) <= b < if i < p.tasks then Offset(p, i) + p.chunk else p.size
  }

  ghost predicate Fits(p: Plan) {
    Offset(p, p.tasks) <= p.size
  }

  lemma {:induction false} ProductsGrow(a: nat, b: nat, c: nat)
    requires a <= b
    ensures a * c <= b * c
    decreases b
  {
    if a < b {
      assert b * c == (b - 1) * c + c;
      ProductsGrow(a, b - 1, c);
    }
  }

  lemma ChunkInside(p: Plan, i: nat)
    requires Fits(p) && i < p.tasks
    ensures Offset(p, i) + p.chunk <= Offset(p, p.tasks) <= p.size
  {
    ProductsGrow(i + 1, p.tasks, p.chunk);
  }

  lemma PiecesApart(p: Plan, i: nat, j: nat)
    requires i < j
    ensures Offset(p, i) + p.chunk <= Offset(p, j)
  {
    ProductsGrow(i + 1, j, p.chunk);
  }

  lemma MadePlanFits(size: nat, pagesize: nat, threads: nat)
    requires 0 < pagesize
    ensures Fits(MakePlan(size, pagesize, threads)) && MakePlan(size, pagesize, threads).tasks <= threads
  {
    var p := MakePlan(size, pagesize, threads);
    assert (p.tasks + 1) * p.chunk <= size;
    assert (p.tasks + 1) * p.chunk == p.tasks * p.chunk + p.chunk;
  }

  lemma PieceOf(p: Plan, b: nat) returns (i: nat)
    requires Fits(p) && b < p.size
    ensures i <= p.tasks && InPiece(p, i, b)
    ensures forall j: nat :: j <= p.tasks && InPiece(p, j, b) ==> j == i
  {
    if b >= Offset(p, p.tasks) {
      i := p.tasks;
    } else {
      assert p.chunk > 0;
      i := b / p.chunk;
      assert i * p.chunk <= b < i * p.chunk + p.chunk;
      if i >= p.tasks { ProductsGrow(p.tasks, i, p.chunk); }
    }
    forall j: nat | j <= p.tasks && InPiece(p, j, b) ensures j == i {
      if j < i { PiecesApart(p, j, i); }
      if i < j { PiecesApart(p, i, j); }
    }
  }

  /** For every size and number of threads, chunks and tail partition the bytes. */
  lemma EveryByteInOnePiece(size: nat, pagesize: nat, threads: nat, b: nat) returns (i: nat)
    requires 0 < pagesize && b < size
    ensures var p := MakePlan(size, pagesize, threads);
      && i <= p.tasks && InPiece(p, i, b)
      && forall j: nat :: j <= p.tasks && InPiece(p, j, b) ==> j == i
  {
    MadePlanFits(size, pagesize, threads);
    i := PieceOf(MakePlan(size, pagesize, threads), b);
  }

  /** Below a page the clamp takes every thread of the pool. */
  lemma SmallCopyUsesAllThreads(size: nat, pagesize: nat, threads: nat)
    requires size < pagesize && threads < SIZE_MODULUS
    ensures TaskCount(size, pagesize, threads) == threads
  {
    assert size / pagesize == 0;
  }

  // The machine

  datatype Job = Copy(i: nat, copied: nat) | Count | Notify

  datatype Main =
    | Submitting(i: nat)
    | NotifyingWorker(i: nat)
    | CopyingTail(copied: nat)
    | Checking
    | Blocked
    | Awake
    | Idle
    | StopSet
    | Joining(k: nat)
    | Done

  datatype State = State(pool: Pool<Job>, main: Main, remaining: int, plan: Plan, src: seq<Byte>, dst: seq<Byte>)

  datatype Event =
    | Initialize(threads: nat)
    | Call(source: seq<Byte>, target: seq<Byte>, pagesize: nat)
    | Stop
    | MainStep
    | WakeWorker(w: nat)
    | WorkerStep(w: nat)
    | SpuriousMain
    | SpuriousWorker(w: nat)

  ghost function Tail(s: State): int {
    s.plan.size - Offset(s.plan, s.plan.tasks)
  }

  function CopyByte(s: State, k: nat): State {
    if k < |s.src| && k < |s.dst| then s.(dst := s.dst[k := s.src[k]]) else s
  }

  ghost predicate MainCanStep(s: State) {
    match s.main
    case NotifyingWorker(_) => !SomeWaiting(s.pool)
    case Blocked => false
    case Idle => false
    case Joining(k) => k < |s.pool.workers| ==> s.pool.workers[k].Exited?
    case Done => false
    case _ => true
  }

  ghost function MainStepped(s: State): State
    requires MainCanStep(s)
  {
    match s.main
    case Submitting(i) =>
      if i < s.plan.tasks then s.(pool := Push(s.pool, Copy(i, 0)), main := NotifyingWorker(i))
      else s.(main := CopyingTail(0))
    case NotifyingWorker(i) => s.(main := Submitting(i + 1))
    case CopyingTail(c) =>
      if c < Tail(s) then CopyByte(s, Offset(s.plan, s.plan.tasks) + c).(main := CopyingTail(c + 1))
      else s.(main := Checking)
    case Checking => s.(main := if s.remaining > 0 then Blocked else Idle)
    case Awake => s.(main := if s.remaining > 0 then Blocked else Idle)
    case StopSet => s.(pool := WakeAll(s.pool), main := Joining(0))
    case Joining(k) => s.(main := if k < |s.pool.workers| then Joining(k + 1) else Done)
  }

  function SetWorker(s: State, w: nat, worker: Worker<Job>): State
    requires w < |s.pool.workers|
  {
    s.(pool := s.pool.(workers := s.pool.workers[w := worker]))
  }

  ghost predicate WorkerCanStep(s: State, w: nat) {
    w < |s.pool.workers| && !s.pool.workers[w].Waiting? && !s.pool.workers[w].Exited?
  }

  function WorkerStepped(s: State, w: nat): State
    requires w < |s.pool.workers| && !s.pool.workers[w].Waiting? && !s.pool.workers[w].Exited?
  {
    var worker := s.pool.workers[w];
    if !worker.Running? then s.(pool := Lock(s.pool, w))
    else match worker.action
      case Copy(i, c) =>
        if c < s.plan.chunk then SetWorker(CopyByte(s, i * s.plan.chunk + c), w, Running(Copy(i, c + 1)))
        else SetWorker(s, w, Running(Count))
      case Count => SetWorker(s.(remaining := s.remaining - 1), w, Running(Notify))
      case Notify => SetWorker(s.(main := if s.main.Blocked? then Awake else s.main), w, Ready)
  }

  ghost predicate Enabled(s: State, e: Event) {
    match e
    case Initialize(_) => s.main.Done?
    case Call(source, target, pagesize) =>
      s.main.Idle? && |source| == |target| < SIZE_MODULUS && 0 < pagesize
    case Stop => s.main.Idle?
    case MainStep => MainCanStep(s)
    case WakeWorker(w) => s.main.NotifyingWorker? && w < |s.pool.workers| && s.pool.workers[w].Waiting?
    case WorkerStep(w) => WorkerCanStep(s, w)
    case SpuriousMain => s.main.Blocked?
    case SpuriousWorker(w) => w < |s.pool.workers| && s.pool.workers[w].Waiting?
  }

  ghost function Apply(s: State, e: Event): State
    requires Enabled(s, e)
  {
    match e
    case Initialize(threads) =>
      State(Pool(seq(threads, w => Ready), [], false), Idle, s.remaining, s.plan, s.src, s.dst)
    case Call(source, target, pagesize) =>
      var plan := MakePlan(|source|, pagesize, |s.pool.workers|);
      State(s.pool, Submitting(0), plan.tasks, plan, source, target)
    case Stop => s.(pool := s.pool.(stop := true), main := StopSet)
    case MainStep => MainStepped(s)
    case WakeWorker(w) => s.(pool := Wake(s.pool, w), main := Submitting(s.main.i + 1))
    case WorkerStep(w) => WorkerStepped(s, w)
    case SpuriousMain => s.(main := Awake)
    case SpuriousWorker(w) => s.(pool := Wake(s.pool, w))
  }

  /** Before the first initialize_thread_pool there is no pool, which copies like one without
      threads. */
  function Start(): State {
    State(Pool([], [], false), Idle, 0, Plan(0, 0, 0), [], [])
  }

  ghost predicate Possible(s: State, es: seq<Event>)
    decreases |es|
  {
    es == [] || (Enabled(s, es[0]) && Possible(Apply(s, es[0]), es[1..]))
  }

  ghost function After(s: State, es: seq<Event>): State
    requires Possible(s, es)
    decreases |es|
  {
    if es == [] then s else After(Apply(s, es[0]), es[1..])
  }
}
