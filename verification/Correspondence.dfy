/** How a state of the interpreter stands for an environment and the operands of the
    expressions around. */
module Correspondence {
  import opened Bytecode
  import opened Options
  import opened Language
  import opened Postfix
  import E = Erasure
  import I = Interpreter

  /** A program, its file, and the runtime. */
  datatype Loaded = Loaded(c: I.Context, p: Program, layout: Layout)

  ghost predicate IsLoaded(m: Loaded) {
    && m.c.checked && |m.c.img.code| < 0x8000_0000
    && m.p.strings == m.c.img.strings && m.p.lib == m.c.lib
    && |m.layout| == |m.p.funs|
    && (forall f :: 0 <= f < |m.p.funs| ==> FunIsLoaded(m, f))
  }

  ghost predicate FunIsLoaded(m: Loaded, f: nat)
    requires f < |m.p.funs| == |m.layout|
  {
    && m.p.funs[f].args < 0x8000_0000 && m.p.funs[f].locals < 0x8000_0000
    && HasCode(m.c.img.code, m.layout[f], FunCode(m.layout, m.p.funs[f], m.layout[f]))
  }

  /** What lies below the current activation: the other frames, and the stack up to `bottom`. */
  datatype Below = Below(frames: seq<I.Frame>, buf: seq<I.Value>, bottom: nat)

  function SelfSize(env: Env): nat {
    if env.self.Some? then 1 else 0
  }

  /** Where the arguments begin, where the locals do, and where the operands do. */
  function ArgsAt(k: Below, env: Env): nat { k.bottom + SelfSize(env) }

  function Base(k: Below, env: Env): nat { ArgsAt(k, env) + |env.args| }

  function OperandsAt(k: Below, env: Env): nat { Base(k, env) + |env.locals| }

  ghost predicate FramesStand(k: Below, frames: seq<I.Frame>, env: Env) {
    && |frames| == |k.frames| + 1 == env.depth && frames[..|k.frames|] == k.frames
    && var f := frames[|k.frames|];
       && f.base == Base(k, env) && f.args == |env.args| && f.locals == |env.locals| && f.closure == env.self.Some?
  }

  /** Globals, what lies below, the closure, the arguments, the locals that have values, and
      the operands: one above the other. */
  ghost predicate StackStands(globals: nat, k: Below, buf: seq<I.Value>, sp: nat, env: Env, ops: seq<I.Value>) {
    && |buf| == |k.buf| == I.MAX_STACK_SIZE && sp == OperandsAt(k, env) + |ops| <= |buf|
    && |env.globals| == globals <= k.bottom
    && (forall i :: 0 <= i < globals ==> buf[i] == env.globals[i])
    && (forall i :: globals <= i < k.bottom ==> buf[i] == k.buf[i])
    && (env.self.Some? ==> buf[k.bottom] == I.Obj(env.self.value))
    && (forall i :: 0 <= i < |env.args| ==> buf[ArgsAt(k, env) + i] == env.args[i])
    && (forall i :: 0 <= i < |env.locals| && env.locals[i].Some? ==> buf[Base(k, env) + i] == env.locals[i].value)
    && (forall i :: 0 <= i < |ops| ==> buf[OperandsAt(k, env) + i] == ops[i])
  }

  /** Closures have the position of their function and one capture too many. */
  ghost predicate ObjectStands(layout: Layout, o: I.Object, q: I.Object) {
    if q.Closure? then
      && o.Closure? && 0 <= q.code < |layout| && o.code == layout[q.code]
      && |o.captures| == |q.captures| + 1 && o.captures[..|q.captures|] == q.captures
    else o == q
  }

  ghost predicate HeapStands(layout: Layout, heap: seq<I.Object>, ideal: seq<I.Object>) {
    |heap| == |ideal| && forall i :: 0 <= i < |heap| ==> ObjectStands(layout, heap[i], ideal[i])
  }

  ghost predicate PartsStand(
      m: Loaded, k: Below, frames: seq<I.Frame>, buf: seq<I.Value>, sp: nat,
      heap: seq<I.Object>, input: seq<int>, output: seq<int>, env: Env, ops: seq<I.Value>) {
    && FramesStand(k, frames, env)
    && StackStands(m.c.img.globals, k, buf, sp, env, ops)
    && HeapStands(m.layout, heap, env.heap)
    && input == env.input && output == env.output
  }

  /** Wherever the instruction pointer is. */
  ghost predicate Stands(m: Loaded, k: Below, s: I.State, env: Env, ops: seq<I.Value>) {
    PartsStand(m, k, s.frames, s.buf, s.sp, s.heap, s.input, s.output, env, ops)
  }

  /** n values less, and v on top. */
  function Replaced(s: I.State, n: nat, v: I.Value): I.State
    requires n <= s.sp && s.sp - n < |s.buf|
  {
    s.(sp := s.sp - n + 1, buf := s.buf[s.sp - n := v])
  }

  /** The stack holds the operands, within its bounds. */
  lemma OperandsLie(m: Loaded, k: Below, s: I.State, env: Env, ops: seq<I.Value>, xs: seq<I.Value>)
    requires Stands(m, k, s, env, ops + xs)
    ensures s.sp == OperandsAt(k, env) + |ops| + |xs| <= I.MAX_STACK_SIZE == |s.buf|
    ensures forall i :: 0 <= i < |xs| ==> s.buf[s.sp - |xs| + i] == xs[i]
    ensures s.frames != []
  {
    forall i | 0 <= i < |xs| ensures s.buf[s.sp - |xs| + i] == xs[i] {
      assert s.buf[OperandsAt(k, env) + (|ops| + i)] == (ops + xs)[|ops| + i];
    }
  }

  lemma Height(m: Loaded, k: Below, s: I.State, env: Env, ops: seq<I.Value>)
    requires Stands(m, k, s, env, ops)
    ensures s.sp == OperandsAt(k, env) + |ops| <= I.MAX_STACK_SIZE == |s.buf| && s.frames != []
  {}

  lemma TwoLie(m: Loaded, k: Below, s: I.State, env: Env, ops: seq<I.Value>, x: I.Value, y: I.Value)
    requires Stands(m, k, s, env, ops + [x, y])
    ensures 2 <= s.sp <= I.MAX_STACK_SIZE == |s.buf| && s.buf[s.sp - 2] == x && s.buf[s.sp - 1] == y
  {
    hide PartsStand;
    OperandsLie(m, k, s, env, ops, [x, y]);
    assert s.buf[s.sp - 2 + 0] == [x, y][0] && s.buf[s.sp - 2 + 1] == [x, y][1];
  }

  lemma OneLies(m: Loaded, k: Below, s: I.State, env: Env, ops: seq<I.Value>, x: I.Value)
    requires Stands(m, k, s, env, ops + [x])
    ensures 1 <= s.sp <= I.MAX_STACK_SIZE == |s.buf| && s.buf[s.sp - 1] == x
  {
    hide PartsStand;
    OperandsLie(m, k, s, env, ops, [x]);
    assert s.buf[s.sp - 1 + 0] == [x][0];
  }

  lemma ReplacedStack(
      globals: nat, k: Below, buf: seq<I.Value>, sp: nat, env: Env, ops: seq<I.Value>, xs: seq<I.Value>, v: I.Value)
    requires StackStands(globals, k, buf, sp, env, ops + xs) && sp - |xs| < I.MAX_STACK_SIZE
    ensures |xs| <= sp
    ensures StackStands(globals, k, buf[sp - |xs| := v], sp - |xs| + 1, env, ops + [v])
  {
    var buf2 := buf[sp - |xs| := v];
    forall i | 0 <= i < |ops + [v]| ensures buf2[OperandsAt(k, env) + i] == (ops + [v])[i] {
      if i < |ops| { assert buf[OperandsAt(k, env) + i] == (ops + xs)[i]; }
    }
  }

  /** One value in the place of some. */
  lemma ReplacedStands(
      m: Loaded, k: Below, s: I.State, env: Env, ops: seq<I.Value>, xs: seq<I.Value>, v: I.Value)
    requires Stands(m, k, s, env, ops + xs) && s.sp - |xs| < I.MAX_STACK_SIZE
    ensures |xs| <= s.sp && Stands(m, k, Replaced(s, |xs|, v), env, ops + [v])
  {
    hide StackStands;
    OperandsLie(m, k, s, env, ops, xs);
    ReplacedStack(m.c.img.globals, k, s.buf, s.sp, env, ops, xs, v);
  }

  lemma DroppedStands(m: Loaded, k: Below, s: I.State, env: Env, ops: seq<I.Value>, xs: seq<I.Value>)
    requires Stands(m, k, s, env, ops + xs)
    ensures |xs| <= s.sp && Stands(m, k, s.(sp := s.sp - |xs|), env, ops)
  {
    OperandsLie(m, k, s, env, ops, xs);
    forall i | 0 <= i < |ops| ensures s.buf[OperandsAt(k, env) + i] == ops[i] {
      assert s.buf[OperandsAt(k, env) + i] == (ops + xs)[i];
    }
  }

  /** Whatever changes in the heap, the input and the output. */
  lemma WorldStands(m: Loaded, k: Below, s: I.State, t: I.State, env: Env, env2: Env, ops: seq<I.Value>)
    requires Stands(m, k, s, env, ops)
    requires t == s.(ip := t.ip, tmp := t.tmp, heap := t.heap, input := t.input, output := t.output)
    requires env2 == env.(heap := env2.heap, input := t.input, output := t.output)
    requires HeapStands(m.layout, t.heap, env2.heap)
    ensures Stands(m, k, t, env2, ops)
  {}

  // Objects

  lemma HeapOf(m: Loaded, k: Below, s: I.State, env: Env, ops: seq<I.Value>)
    requires Stands(m, k, s, env, ops)
    ensures |s.heap| == |env.heap| && HeapStands(m.layout, s.heap, env.heap)
    ensures s.input == env.input && s.output == env.output
  {}

  lemma NewStands(layout: Layout, heap: seq<I.Object>, ideal: seq<I.Object>, o: I.Object, q: I.Object)
    requires HeapStands(layout, heap, ideal) && ObjectStands(layout, o, q)
    ensures HeapStands(layout, heap + [o], ideal + [q])
  {
    hide ObjectStands;
  }

  lemma ChangedStands(layout: Layout, heap: seq<I.Object>, ideal: seq<I.Object>, id: nat, o: I.Object, q: I.Object)
    requires HeapStands(layout, heap, ideal) && ObjectStands(layout, o, q) && id < |heap|
    ensures HeapStands(layout, heap[id := o], ideal[id := q])
  {
    hide ObjectStands;
  }

  /** Arrays, texts and S-expressions are what they are. */
  lemma ObjectIs(layout: Layout, heap: seq<I.Object>, ideal: seq<I.Object>, id: nat)
    requires HeapStands(layout, heap, ideal) && id < |heap|
    ensures heap[id].Closure? <==> ideal[id].Closure?
    ensures !ideal[id].Closure? ==> heap[id] == ideal[id]
  {
    assert ObjectStands(layout, heap[id], ideal[id]);
  }

  lemma SameWithoutClosures(layout: Layout, heap: seq<I.Object>, ideal: seq<I.Object>)
    requires HeapStands(layout, heap, ideal) && NoClosures(ideal)
    ensures heap == ideal
  {
    forall i | 0 <= i < |heap| ensures heap[i] == ideal[i] { ObjectIs(layout, heap, ideal, i); }
  }

  // Variables

  /** Where a variable is. */
  function Address(k: Below, env: Env, x: Variable): I.Value
    requires Exists(env, x).Ok?
  {
    match x.place
    case Global => I.Slot(x.index)
    case Local => I.Slot(Base(k, env) + x.index)
    case Argument => I.Slot(ArgsAt(k, env) + x.index)
    case Captured => I.CaptureSlot(env.self.value, x.index)
  }

  /** The closure of the activation has one capture too many. */
  lemma SelfStands(m: Loaded, k: Below, s: I.State, env: Env, ops: seq<I.Value>)
    requires Stands(m, k, s, env, ops) && Captures(env).Ok?
    ensures I.FrameClosure(s, s.frames[|s.frames| - 1]) == Ok(env.self.value)
    ensures env.self.value < |s.heap| && s.heap[env.self.value].Closure?
    ensures |s.heap[env.self.value].captures| == |Captures(env).value| + 1
    ensures s.heap[env.self.value].captures[..|Captures(env).value|] == Captures(env).value
    ensures 0 <= env.heap[env.self.value].code < |m.layout|
    ensures s.heap[env.self.value].code == m.layout[env.heap[env.self.value].code]
  {
    E.SmallU32(k.bottom);
    assert ObjectStands(m.layout, s.heap[env.self.value], env.heap[env.self.value]);
  }

  lemma LocateIs(m: Loaded, k: Below, s: I.State, env: Env, ops: seq<I.Value>, x: Variable)
    requires m.c.checked && Stands(m, k, s, env, ops)
    ensures Exists(env, x).Ok? ==> I.Locate(m.c, s, x.place, x.index) == Ok(Address(k, env, x))
    ensures Exists(env, x).Fails? ==> I.Locate(m.c, s, x.place, x.index) == Fails(Exists(env, x).reason)
  {
    hide HeapStands, U32, I.FrameClosure;
    assert s.frames[|k.frames|] == s.frames[|s.frames| - 1];
    if Exists(env, x).Ok? && !x.place.Captured? { E.SmallU32(Address(k, env, x).pos); }
    if x.place.Captured? && Captures(env).Ok? { SelfStands(m, k, s, env, ops); }
  }

  lemma LoadIs(m: Loaded, k: Below, s: I.State, env: Env, ops: seq<I.Value>, x: Variable)
    requires Stands(m, k, s, env, ops) && Lookup(env, x).Ok?
    ensures I.Load(s, Address(k, env, x)) == Ok(Lookup(env, x).value)
  {
    hide HeapStands, I.FrameClosure;
    if x.place.Captured? {
      SelfStands(m, k, s, env, ops);
      var captures := s.heap[env.self.value].captures;
      assert captures[x.index] == captures[..|captures| - 1][x.index];
    }
  }

  /** The frames, the operands and the rest stay. */
  lemma StoreIs(m: Loaded, k: Below, s: I.State, env: Env, ops: seq<I.Value>, x: Variable, v: I.Value)
    requires Stands(m, k, s, env, ops) && Update(env, x, v).Ok?
    ensures var r := I.Store(s, Address(k, env, x), v);
      && r.Ok? && r.value == s.(buf := r.value.buf, heap := r.value.heap)
      && Stands(m, k, r.value, Update(env, x, v).value, ops)
  {
    if x.place.Captured? { StoreCaptured(m, k, s, env, ops, x, v); } else { StoreSlot(m, k, s, env, ops, x, v); }
  }

  lemma StoreCaptured(m: Loaded, k: Below, s: I.State, env: Env, ops: seq<I.Value>, x: Variable, v: I.Value)
    requires Stands(m, k, s, env, ops) && Update(env, x, v).Ok? && x.place.Captured?
    ensures var r := I.Store(s, Address(k, env, x), v);
      && r.Ok? && r.value == s.(heap := r.value.heap)
      && Stands(m, k, r.value, Update(env, x, v).value, ops)
  {
    hide FramesStand, StackStands, I.FrameClosure;
    SelfStands(m, k, s, env, ops);
    var id := env.self.value;
    var o, q := s.heap[id], env.heap[id];
    var o2, q2 := o.(captures := o.captures[x.index := v]), I.Closure(q.code, q.captures[x.index := v]);
    assert o2.captures[..|q2.captures|] == q2.captures;
    ChangedStands(m.layout, s.heap, env.heap, id, o2, q2);
    var env2 := Update(env, x, v).value;
    WorldStands(m, k, s, s.(heap := s.heap[id := o2]), env, env2, ops);
  }

  lemma StoreSlot(m: Loaded, k: Below, s: I.State, env: Env, ops: seq<I.Value>, x: Variable, v: I.Value)
    requires Stands(m, k, s, env, ops) && Update(env, x, v).Ok? && !x.place.Captured?
    ensures var r := I.Store(s, Address(k, env, x), v);
      && r.Ok? && r.value == s.(buf := r.value.buf)
      && Stands(m, k, r.value, Update(env, x, v).value, ops)
  {
    hide HeapStands;
    var pos := Address(k, env, x).pos;
    var env2 := Update(env, x, v).value;
    assert pos < s.sp;
    assert FramesStand(k, s.frames, env2);
    SlotStored(m.c.img.globals, k, s.buf, s.sp, env, ops, x, v);
  }

  lemma SlotStored(
      globals: nat, k: Below, buf: seq<I.Value>, sp: nat, env: Env, ops: seq<I.Value>, x: Variable, v: I.Value)
    requires StackStands(globals, k, buf, sp, env, ops) && Update(env, x, v).Ok? && !x.place.Captured?
    ensures Address(k, env, x).pos < |buf|
    ensures StackStands(globals, k, buf[Address(k, env, x).pos := v], sp, Update(env, x, v).value, ops)
  {
    hide StackStands, Base, ArgsAt;
    match x.place
    case Global => GlobalStored(globals, k, buf, sp, env, ops, x.index, v);
    case Local => LocalStored(globals, k, buf, sp, env, ops, x.index, v);
    case Argument => ArgumentStored(globals, k, buf, sp, env, ops, x.index, v);
  }

  lemma GlobalStored(
      globals: nat, k: Below, buf: seq<I.Value>, sp: nat, env: Env, ops: seq<I.Value>, i: nat, v: I.Value)
    requires StackStands(globals, k, buf, sp, env, ops) && i < |env.globals|
    ensures i < |buf|
    ensures StackStands(globals, k, buf[i := v], sp, env.(globals := env.globals[i := v]), ops)
  {}

  lemma LocalStored(
      globals: nat, k: Below, buf: seq<I.Value>, sp: nat, env: Env, ops: seq<I.Value>, i: nat, v: I.Value)
    requires StackStands(globals, k, buf, sp, env, ops) && i < |env.locals|
    ensures Base(k, env) + i < |buf|
    ensures StackStands(globals, k, buf[Base(k, env) + i := v], sp, env.(locals := env.locals[i := Some(v)]), ops)
  {}

  lemma ArgumentStored(
      globals: nat, k: Below, buf: seq<I.Value>, sp: nat, env: Env, ops: seq<I.Value>, i: nat, v: I.Value)
    requires StackStands(globals, k, buf, sp, env, ops) && i < |env.args|
    ensures ArgsAt(k, env) + i < |buf|
    ensures StackStands(globals, k, buf[ArgsAt(k, env) + i := v], sp, env.(args := env.args[i := v]), ops)
  {}
}
