/** The pool of ThreadPool under any number of submitting threads, and stop(). */
module PoolRuns {
  import opened ThreadPool

  /** `notifies` counts submitters between their critical section and notify_one;
      `late[w]` counts the actions that worker w began after `stop` was set. */
  datatype System<A> = System(pool: Pool<A>, notifies: nat, notifyAll: bool, stopped: bool, late: seq<nat>)

  datatype Event<A> =
    | Submit(action: A)
    | NotifyOne(w: nat)
    | NotifyNobody
    | SetStop
    | NotifyAll
    | LockStep(w: nat)
    | Finish(w: nat)
    | Spurious(w: nat)

  ghost predicate Enabled<A>(s: System<A>, e: Event<A>) {
    var p := s.pool;
    match e
    case Submit(_) => true
    case NotifyOne(w) => s.notifies > 0 && w < |p.workers| && p.workers[w].Waiting?
    case NotifyNobody => s.notifies > 0 && !SomeWaiting(p)
    case SetStop => !p.stop
    case NotifyAll => s.notifyAll
    case LockStep(w) => CanLock(p, w) && w < |s.late|
    case Finish(w) => w < |p.workers| && p.workers[w].Running?
    case Spurious(w) => w < |p.workers| && p.workers[w].Waiting?
  }

  ghost function Apply<A>(s: System<A>, e: Event<A>): System<A>
    requires Enabled(s, e)
  {
    var p := s.pool;
    match e
    case Submit(action) => s.(pool := Push(p, action), notifies := s.notifies + 1)
    case NotifyOne(w) => s.(pool := Wake(p, w), notifies := s.notifies - 1)
    case NotifyNobody => s.(notifies := s.notifies - 1)
    case SetStop => s.(pool := p.(stop := true), notifyAll := true)
    case NotifyAll => s.(pool := WakeAll(p), notifyAll := false, stopped := true)
    case LockStep(w) =>
      var q := Lock(p, w);
      s.(pool := q, late := if p.stop && q.workers[w].Running? then s.late[w := s.late[w] + 1] else s.late)
    case Finish(w) => s.(pool := p.(workers := p.workers[w := Ready]))
    case Spurious(w) => s.(pool := Wake(p, w))
  }

  ghost predicate Start<A>(s: System<A>) {
    && (forall w :: 0 <= w < |s.pool.workers| ==> s.pool.workers[w].Ready?)
    && s.pool.queue == [] && !s.pool.stop && s.notifies == 0 && !s.notifyAll && !s.stopped
    && s.late == seq(|s.pool.workers|, w => 0)
  }

  /** Queued work has an awake worker or a notification on its way. */
  ghost predicate NoLostWakeup<A>(s: System<A>) {
    s.pool.queue != [] && !s.pool.stop && s.notifies == 0 && s.pool.workers != [] ==> SomeAwake(s.pool)
  }

  /** After `stop`: the notification is pending or nobody waits, and a worker begins at
      most one more action. */
  ghost predicate StopIsSeen<A>(s: System<A>) {
    && |s.late| == |s.pool.workers|
    && (s.pool.stop <==> s.notifyAll || s.stopped)
    && (s.stopped ==> !SomeWaiting(s.pool))
    && forall w :: 0 <= w < |s.late| ==>
         && s.late[w] <= 1
         && (s.pool.workers[w].Exited? ==> s.pool.stop)
         && (!s.pool.stop || s.pool.workers[w].Waiting? || s.pool.workers[w].Woken? ==> s.late[w] == 0)
  }

  ghost predicate Inv<A>(s: System<A>) {
    NoLostWakeup(s) && StopIsSeen(s)
  }

  lemma StepKeepsWakeups<A>(s: System<A>, e: Event<A>)
    requires Inv(s) && Enabled(s, e)
    ensures NoLostWakeup(Apply(s, e))
  {
    var t := Apply(s, e);
    if t.pool.queue != [] && !t.pool.stop && t.notifies == 0 && t.pool.workers != [] {
      match e
      case NotifyOne(w) => assert t.pool.workers[w].Woken?;
      case NotifyNobody => assert !s.pool.workers[0].Waiting? && !s.pool.workers[0].Exited?;
      case LockStep(w) => assert t.pool.workers[w].Running?;
      case Finish(w) => assert t.pool.workers[w].Ready?;
      case Spurious(w) => assert t.pool.workers[w].Woken?;
      case NotifyAll =>
      case Submit(_) =>
      case SetStop =>
    }
  }

  lemma StepKeepsStop<A>(s: System<A>, e: Event<A>)
    requires Inv(s) && Enabled(s, e)
    ensures StopIsSeen(Apply(s, e))
  {
    if e.LockStep? && s.stopped {
      var workers := Lock(s.pool, e.w).workers;
      assert forall w :: 0 <= w < |workers| && w != e.w ==> workers[w] == s.pool.workers[w];
    }
  }

  ghost predicate Possible<A>(s: System<A>, es: seq<Event<A>>)
    decreases |es|
  {
    es == [] || (Enabled(s, es[0]) && Possible(Apply(s, es[0]), es[1..]))
  }

  ghost function After<A>(s: System<A>, es: seq<Event<A>>): System<A>
    requires Possible(s, es)
    decreases |es|
  {
    if es == [] then s else After(Apply(s, es[0]), es[1..])
  }

  lemma {:induction false} RunKeepsInv<A>(s: System<A>, es: seq<Event<A>>)
    requires Inv(s) && Possible(s, es)
    ensures Inv(After(s, es))
    decreases |es|
  {
    if es != [] {
      StepKeepsWakeups(s, es[0]);
      StepKeepsStop(s, es[0]);
      RunKeepsInv(Apply(s, es[0]), es[1..]);
    }
  }

  /** In every run with any number of submitters: no lost wakeup, and `stop` reaches everyone. */
  lemma EveryRunKeepsInv<A>(s: System<A>, es: seq<Event<A>>)
    requires Start(s) && Possible(s, es)
    ensures Inv(After(s, es))
  {
    RunKeepsInv(s, es);
  }

  // Joining

  ghost function LeftAfterStop<A>(worker: Worker<A>): nat {
    match worker
    case Woken => 3
    case Running(_) => 2
    case Ready => 1
    case _ => 0
  }

  /** Once everyone was notified, every step of a worker brings its end nearer. */
  lemma WorkersRunOut<A>(s: System<A>, e: Event<A>)
    requires Inv(s) && s.stopped && Enabled(s, e) && (e.LockStep? || e.Finish? || e.Spurious?)
    ensures Sum(Apply(s, e).pool.workers, LeftAfterStop) < Sum(s.pool.workers, LeftAfterStop)
  {
    var p := s.pool;
    assert !p.workers[e.w].Waiting?;
    SumUpdate(p.workers, LeftAfterStop, e.w, Apply(s, e).pool.workers[e.w]);
    assert Apply(s, e).pool.workers == p.workers[e.w := Apply(s, e).pool.workers[e.w]];
  }

  /** And a worker that has not exited yet can take a step, so that joins return. */
  lemma JoinIsNotStuck<A>(s: System<A>, w: nat)
    requires Inv(s) && s.stopped && w < |s.pool.workers| && !s.pool.workers[w].Exited?
    ensures Enabled(s, LockStep(w)) || Enabled(s, Finish(w))
  {
    assert !s.pool.workers[w].Waiting?;
  }
}
