/** Closures and frames at run time in the Truffle interpreter: LamaFunctionNode, LamaCallNode
    and LamaLookupMaterializedFrameNode of Assignment05. */
module Activations {
  import opened Options
  import opened Scopes
  import opened LexicalAddressing
  import ParseRuns

  /** A LamaFunction; it keeps the frame it was made in only if its code has captures. */
  datatype Closure = Closure(fn: nat, frame: Option<nat>, madeIn: nat)

  /** A frame, with the closure in argument 0; the main program's frame has none. */
  datatype Frame = Frame(fn: nat, callee: Option<nat>)

  datatype Runtime = Runtime(closures: seq<Closure>, frames: seq<Frame>)

  datatype Event = MakeFunction(frame: nat, fn: nat) | Invoke(closure: nat)

  function Start(): Runtime {
    Runtime([], [Frame(0, None)])
  }

  ghost predicate Enabled(fns: seq<Function>, r: Runtime, e: Event) {
    match e
    case MakeFunction(frame, fn) =>
      frame < |r.frames| && fn < |fns| && fns[fn].node.Some? && fns[fn].parent == r.frames[frame].fn
    case Invoke(closure) => closure < |r.closures|
  }

  function Apply(fns: seq<Function>, r: Runtime, e: Event): Runtime
    requires e.MakeFunction? ==> e.fn < |fns| && fns[e.fn].node.Some?
    requires e.Invoke? ==> e.closure < |r.closures|
  {
    match e
    case MakeFunction(frame, fn) =>
      r.(closures := r.closures + [Closure(fn, if fns[fn].node.value then Some(frame) else None, frame)])
    case Invoke(closure) => r.(frames := r.frames + [Frame(r.closures[closure].fn, Some(closure))])
  }

  /** The frame whose activation made the closure that this frame is an activation of, k times. */
  ghost function Creator(r: Runtime, frame: nat, k: nat): Option<nat>
    decreases k
  {
    if k == 0 then Some(frame)
    else if frame < |r.frames| && r.frames[frame].callee.Some? && r.frames[frame].callee.value < |r.closures|
    then Creator(r, r.closures[r.frames[frame].callee.value].madeIn, k - 1)
    else None
  }

  /** The walk of LamaLookupMaterializedFrameNode; None is a null frame on the way. */
  function Walk(r: Runtime, frame: nat, level: nat): Option<nat>
    decreases level
  {
    if frame < |r.frames| && r.frames[frame].callee.Some? && r.frames[frame].callee.value < |r.closures| then
      var outer := r.closures[r.frames[frame].callee.value].frame;
      if level == 0 || outer.None? then outer else Walk(r, outer.value, level - 1)
    else None
  }

  method LookupFrame(r: Runtime, frame: nat, level: nat) returns (found: Option<nat>)
    ensures found == Walk(r, frame, level)
  {
    if frame >= |r.frames| || r.frames[frame].callee.None? { return None; }
    if r.frames[frame].callee.value >= |r.closures| { return None; }
    var callee: nat := r.frames[frame].callee.value;
    var i := 0;
    while i < level
      invariant 0 <= i <= level && callee < |r.closures|
      invariant Walk(r, frame, level) ==
        var outer := r.closures[callee].frame;
        if level == i || outer.None? then outer else Walk(r, outer.value, level - i - 1)
    {
      var outer := r.closures[callee].frame;
      if outer.None? { return None; }
      if outer.value >= |r.frames| || r.frames[outer.value].callee.None? { return None; }
      if r.frames[outer.value].callee.value >= |r.closures| { return None; }
      callee := r.frames[outer.value].callee.value;
      i := i + 1;
    }
    found := r.closures[callee].frame;
  }

  /** The arguments of a call: the closure in front, or an error for a wrong number of them. */
  method Arguments<V(0)>(callee: V, count: nat, values: seq<V>) returns (arguments: Option<array<V>>)
    ensures arguments.Some? <==> |values| == count
    ensures arguments.Some? ==> fresh(arguments.value) && arguments.value[..] == [callee] + values
  {
    if |values| != count { return None; }
    var a := new V[|values| + 1];
    a[0] := callee;
    for i := 0 to |values|
      invariant a[0] == callee && forall k :: 0 <= k < i ==> a[k + 1] == values[k]
    {
      a[i + 1] := values[i];
    }
    arguments := Some(a);
  }

  ghost predicate ClosureOk(fns: seq<Function>, r: Runtime, c: nat)
    requires c < |r.closures|
  {
    var f := r.closures[c];
    && f.fn < |fns| && fns[f.fn].node.Some? && f.madeIn < |r.frames| && r.frames[f.madeIn].fn == fns[f.fn].parent
    && f.frame == if fns[f.fn].node.value then Some(f.madeIn) else None
  }

  ghost predicate FrameOk(fns: seq<Function>, r: Runtime, i: nat)
    requires i < |r.frames|
  {
    match r.frames[i].callee
    case None => r.frames[i].fn < |fns| && fns[r.frames[i].fn].parent == -1
    case Some(c) => c < |r.closures| && r.closures[c].fn == r.frames[i].fn
  }

  ghost predicate Inv(fns: seq<Function>, r: Runtime) {
    && (forall c :: 0 <= c < |r.closures| ==> ClosureOk(fns, r, c))
    && (forall i :: 0 <= i < |r.frames| ==> FrameOk(fns, r, i))
  }

  lemma StepKeepsInv(fns: seq<Function>, r: Runtime, e: Event)
    requires Inv(fns, r) && Enabled(fns, r, e)
    ensures Inv(fns, Apply(fns, r, e))
  {
    var t := Apply(fns, r, e);
    forall c | 0 <= c < |t.closures| ensures ClosureOk(fns, t, c) {
      if c < |r.closures| { assert ClosureOk(fns, r, c); }
    }
    forall i | 0 <= i < |t.frames| ensures FrameOk(fns, t, i) {
      if i < |r.frames| { assert FrameOk(fns, r, i); }
    }
  }

  ghost predicate Possible(fns: seq<Function>, r: Runtime, es: seq<Event>)
    decreases |es|
  {
    es == [] || (Enabled(fns, r, es[0]) && Possible(fns, Apply(fns, r, es[0]), es[1..]))
  }

  ghost function After(fns: seq<Function>, r: Runtime, es: seq<Event>): Runtime
    requires Possible(fns, r, es)
    decreases |es|
  {
    if es == [] then r else After(fns, Apply(fns, r, es[0]), es[1..])
  }

  lemma {:induction false} RunKeepsInv(fns: seq<Function>, r: Runtime, es: seq<Event>)
    requires Inv(fns, r) && Possible(fns, r, es)
    ensures Inv(fns, After(fns, r, es))
    decreases |es|
  {
    hide Inv;
    if es != [] {
      StepKeepsInv(fns, r, es[0]);
      RunKeepsInv(fns, Apply(fns, r, es[0]), es[1..]);
    }
  }

  lemma {:induction false} AncestorOfNone(fns: seq<Function>, k: nat)
    ensures Ancestor(fns, -1, k) == -1
    decreases k
  {}

  /** The walk never meets a null frame, and ends at the activation of the declaring function
      in which the chain of closures was made. */
  lemma {:induction false} WalkFindsCreator(fns: seq<Function>, r: Runtime, frame: nat, level: nat)
    requires Inv(fns, r) && FunctionsOk(fns) && frame < |r.frames|
    requires KeepFrames(fns, r.frames[frame].fn, level) && Ancestor(fns, r.frames[frame].fn, level + 1) >= 0
    ensures var found := Walk(r, frame, level);
      && found.Some? && found == Creator(r, frame, level + 1)
      && found.value < |r.frames| && r.frames[found.value].fn == Ancestor(fns, r.frames[frame].fn, level + 1)
    decreases level
  {
    var f := r.frames[frame].fn;
    assert FrameOk(fns, r, frame) && FunctionOk(fns, f);
    AncestorOfNone(fns, level);
    assert r.frames[frame].callee.Some?;
    var c := r.frames[frame].callee.value;
    assert ClosureOk(fns, r, c);
    if level > 0 { WalkFindsCreator(fns, r, r.closures[c].madeIn, level - 1); }
  }

  /** For every program and every run of it: a load of a captured variable, executed in any
      activation of its function, finds the frame of the variable's declaration. */
  lemma EveryLoadFindsItsFrame(parse: seq<ParseRuns.Event>, run: seq<Event>, k: nat, frame: nat)
    requires ParseRuns.Possible(ParseRuns.Start(), parse)
    requires var s := ParseRuns.After(ParseRuns.Start(), parse);
      && |s.p.functions| > 0 && Possible(s.p.functions, Start(), run)
      && k < |s.loads| && s.loads[k].variable.Capture?
      && var r := After(s.p.functions, Start(), run); frame < |r.frames| && r.frames[frame].fn == s.loads[k].fn
    ensures var s := ParseRuns.After(ParseRuns.Start(), parse);
      var r := After(s.p.functions, Start(), run);
      var load := s.loads[k];
      var found := Walk(r, frame, load.variable.level);
      && found.Some? && found == Creator(r, frame, load.variable.level + 1)
      && found.value < |r.frames| && r.frames[found.value].fn == load.owner && load.variable.slot == load.slot
  {
    hide KeepFrames, SlotsOk, Walk, Creator, Possible, After, Ancestor, ParseRuns.Possible, ParseRuns.After;
    var s := ParseRuns.After(ParseRuns.Start(), parse);
    ParseRuns.EveryLoadIsRight(parse);
    assert ParseRuns.LoadOk(s.p.functions, s.loads[k]);
    assert FunctionOk(s.p.functions, 0);
    RunKeepsInv(s.p.functions, Start(), run);
    WalkFindsCreator(s.p.functions, After(s.p.functions, Start(), run), frame, s.loads[k].variable.level);
  }
}
