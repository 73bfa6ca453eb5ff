/** The thread pool of Assignment10/src/thread_pool.h as a state machine.

    A critical section is one step.  A worker is about to enter one (Ready), blocked in
    wait, woken but without the mutex yet, running an action outside, or gone. */
module ThreadPool {

  datatype Worker<A> = Ready | Waiting | Woken | Running(action: A) | Exited

  datatype Pool<A> = Pool(workers: seq<Worker<A>>, queue: seq<A>, stop: bool)

  ghost predicate CanLock<A>(p: Pool<A>, w: nat) {
    w < |p.workers| && (p.workers[w].Ready? || p.workers[w].Woken?)
  }

  /** What execute_actions does from taking the mutex to giving it up: a worker that comes
      from an action looks at `stop` alone first, one that comes from wait looks at both. */
  function Lock<A>(p: Pool<A>, w: nat): Pool<A>
    requires w < |p.workers|
  {
    if p.stop && (p.workers[w].Ready? || p.queue == []) then p.(workers := p.workers[w := Exited])
    else if p.queue == [] then p.(workers := p.workers[w := Waiting])
    else p.(workers := p.workers[w := Running(p.queue[0])], queue := p.queue[1..])
  }

  function Push<A>(p: Pool<A>, action: A): Pool<A> {
    p.(queue := p.queue + [action])
  }

  function Wake<A>(p: Pool<A>, w: nat): Pool<A>
    requires w < |p.workers|
  {
    p.(workers := p.workers[w := Woken])
  }

  function WakeAll<A>(p: Pool<A>): Pool<A> {
    p.(workers := seq(|p.workers|, w requires 0 <= w < |p.workers| =>
      if p.workers[w].Waiting? then Woken else p.workers[w]))
  }

  ghost predicate SomeWaiting<A>(p: Pool<A>) {
    exists w :: 0 <= w < |p.workers| && p.workers[w].Waiting?
  }

  ghost predicate SomeAwake<A>(p: Pool<A>) {
    exists w :: 0 <= w < |p.workers| && !p.workers[w].Waiting? && !p.workers[w].Exited?
  }

  // Sums over sequences

  ghost function Sum<X>(xs: seq<X>, f: X -> nat): nat {
    if xs == [] then 0 else f(xs[0]) + Sum(xs[1..], f)
  }

  lemma {:induction false} SumUpdate<X>(xs: seq<X>, f: X -> nat, i: nat, x: X)
    requires i < |xs|
    ensures Sum(xs[i := x], f) + f(xs[i]) == Sum(xs, f) + f(x)
  {
    if i == 0 {
      assert xs[0 := x][1..] == xs[1..];
    } else {
      assert xs[i := x][1..] == xs[1..][i - 1 := x];
      SumUpdate(xs[1..], f, i - 1, x);
    }
  }

  lemma {:induction false} SumBound<X>(xs: seq<X>, ys: seq<X>, f: X -> nat, extra: nat)
    requires |xs| == |ys| && forall i :: 0 <= i < |xs| ==> f(ys[i]) <= f(xs[i]) + extra
    ensures Sum(ys, f) <= Sum(xs, f) + extra * |xs|
  {
    if xs != [] {
      SumBound(xs[1..], ys[1..], f, extra);
      assert extra * |xs| == extra * (|xs| - 1) + extra;
    }
  }

  lemma {:induction false} SumPart<X>(xs: seq<X>, f: X -> nat, i: nat)
    requires i < |xs|
    ensures f(xs[i]) <= Sum(xs, f)
  {
    if i > 0 { SumPart(xs[1..], f, i - 1); }
  }

  lemma {:induction false} SumPositive<X>(xs: seq<X>, f: X -> nat) returns (i: nat)
    requires Sum(xs, f) > 0
    ensures i < |xs| && f(xs[i]) > 0
  {
    if f(xs[0]) > 0 {
      i := 0;
    } else {
      i := SumPositive(xs[1..], f);
      i := i + 1;
    }
  }
}
