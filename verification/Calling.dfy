/** Calls, function entries, returns and the making of closures. */
module Calling {
  import opened Bytecode
  import opened Options
  import opened Language
  import opened Postfix
  import opened Correspondence
  import opened Instructions
  import I = Interpreter
  import E = Erasure
  import F = Effects
  import W = Words

  // Closures

  lemma FetchedByte(m: Loaded, s: I.State)
    requires IsLoaded(m) && s.ip + 1 < |m.c.img.code|
    ensures I.FetchByte(m.c, s) == Ok((s.(ip := s.ip + 1), m.c.img.code[s.ip]))
  {
    hide FunIsLoaded;
  }

  lemma CaptureBecomes(m: Loaded, k: Below, s: I.State, env: Env, ops: seq<I.Value>, x: Variable)
    requires IsLoaded(m) && Stands(m, k, s, env, ops) && HasCode(m.c.img.code, s.ip, Code1(PlaceCode(x.place), x.index))
    ensures s.sp <= I.MAX_STACK_SIZE
    ensures Becomes(m, k, I.ExecCapture(m.c, s), s.ip + 5, ops, LoadedFrom(env, x, I.MAX_STACK_SIZE - s.sp))
  {
    hide Int32At, IsLoaded, PartsStand, I.Locate, I.Load, I.Push, Exists, I.FetchInt, Address, I.FetchByte, HasCode;
    var t := s.(ip := s.ip + 5);
    HasCode1(m.c.img.code, s.ip, PlaceCode(x.place), x.index);
    FetchedByte(m, s);
    IsChecked(m);
    F.Fetched(m.c, s.(ip := s.ip + 1));
    PlaceOps(x.place);
    LocateIs(m, k, t, env, ops, x);
    if Lookup(env, x).Ok? {
      LoadIs(m, k, t, env, ops, x);
      PushBecomes(m, k, t, env, ops, Lookup(env, x).value);
    } else {
      PushBecomes(m, k, t, env, ops, I.Null);
    }
  }

  lemma IsChecked(m: Loaded)
    requires IsLoaded(m)
    ensures m.c.checked && |m.c.img.code| < 0x8000_0000
  {}

  /** The loop over the captures pushes what the evaluator looks up. */
  ghost predicate Captured(
      m: Loaded, k: Below, s: I.State, r: Result<I.State>, n: nat, env: Env, ops: seq<I.Value>, e: Result<seq<I.Value>>)
  {
    match e
    case Ok(vs) => r.Ok? && r.value.ip == s.ip + 5 * n && Stands(m, k, r.value, env, ops + vs)
    case Fails(f) => r == Fails(f)
    case Stuck => true
  }

  lemma {:induction false} CapturesRun(
      m: Loaded, k: Below, s: I.State, env: Env, ops: seq<I.Value>, xs: seq<Variable>)
    requires IsLoaded(m) && Stands(m, k, s, env, ops) && HasCode(m.c.img.code, s.ip, CapturedCode(xs))
    ensures s.sp <= I.MAX_STACK_SIZE
    ensures Captured(m, k, s, I.ExecCaptures(m.c, s, |xs|), |xs|, env, ops, LookupAll(env, xs, I.MAX_STACK_SIZE - s.sp))
    decreases |xs|
  {
    hide IsLoaded, PartsStand, HasCode, I.ExecCapture, Lookup, Code1;
    Height(m, k, s, env, ops);
    if xs == [] {
      assert ops + [] == ops;
    } else {
      HasBoth(m.c.img.code, s.ip, Code1(PlaceCode(xs[0].place), xs[0].index), CapturedCode(xs[1..]));
      CodeSizes(PlaceCode(xs[0].place), xs[0].index);
      CaptureBecomes(m, k, s, env, ops, xs[0]);
      var e := LoadedFrom(env, xs[0], I.MAX_STACK_SIZE - s.sp);
      if e.Ok? {
        var v, t := e.value.value, I.ExecCapture(m.c, s).value;
        Height(m, k, t, env, ops + [v]);
        CapturesRun(m, k, t, env, ops + [v], xs[1..]);
        assert forall vs: seq<I.Value> :: ops + [v] + vs == ops + ([v] + vs);
      }
    }
  }

  lemma CodeSizes(b: Byte, x: int)
    ensures |Code1(b, x)| == 5
    ensures forall y :: |Code2(b, x, y)| == 9
  {}

  lemma WrapBecomes(m: Loaded, k: Below, s: I.State, env: Env, ops: seq<I.Value>,
      callee: nat, first: I.Value, vs: seq<I.Value>)
    requires IsLoaded(m) && callee < |m.p.funs| && |m.layout| == |m.p.funs|
    requires Stands(m, k, s, env, ops + ([first] + vs)) && |vs| + 1 <= W.MAX_EXTRA_ROOTS_NUMBER
    requires s.sp < I.MAX_STACK_SIZE
    ensures |vs| + 1 <= s.sp
    ensures Becomes(m, k, I.WrapCaptures(m.c, s, m.layout[callee], |vs|), s.ip, ops,
      GiveNew(I.Closure(callee, vs), env, I.MAX_STACK_SIZE - s.sp + |vs| + 1))
  {
    hide IsLoaded, PartsStand, I.Push;
    IsChecked(m);
    TopIs(m, k, s, env, ops, [first] + vs);
    DroppedStands(m, k, s, env, ops, [first] + vs);
    var items := s.buf[s.sp - |vs|..s.sp + 1];
    assert items[..|vs|] == s.buf[s.sp - |vs| - 1..s.sp][1..] == vs;
    NewBecomes(m, k, s.(sp := s.sp - |vs| - 1), env, ops, I.Closure(m.layout[callee], items), I.Closure(callee, vs));
  }

  lemma FunIsHere(m: Loaded, f: nat)
    requires IsLoaded(m) && f < |m.p.funs|
    ensures |m.layout| == |m.p.funs| && FunIsLoaded(m, f) && m.layout[f] + 10 < |m.c.img.code|
    ensures m.p.funs[f].args < 0x8000_0000 && m.p.funs[f].locals < 0x8000_0000
  {
    hide Compile;
    assert FunIsLoaded(m, f);
  }

  lemma ClosureBecomes(m: Loaded, k: Below, s: I.State, env: Env, ops: seq<I.Value>, callee: nat, xs: seq<Variable>)
    requires IsLoaded(m) && Stands(m, k, s, env, ops)
    requires s.ip + 8 < |m.c.img.code| && Int32At(m.c.img.code, s.ip) == Position(m.layout, callee)
    requires Int32At(m.c.img.code, s.ip + 4) == |xs| && HasCode(m.c.img.code, s.ip + 8, CapturedCode(xs))
    ensures s.sp <= I.MAX_STACK_SIZE
    ensures Becomes(m, k, I.ExecClosure(m.c, s), s.ip + 8 + 5 * |xs|, ops,
      Capture(m.p, callee, xs, env, I.MAX_STACK_SIZE - s.sp))
  {
    hide IsLoaded, PartsStand, HasCode, I.FetchInt, Int32At, I.Push, I.ExecCaptures, I.WrapCaptures, LookupAll,
      FunIsLoaded, Give;
    IsChecked(m);
    F.Fetched(m.c, s);
    F.Fetched(m.c, s.(ip := s.ip + 4));
    var u := s.(ip := s.ip + 8);
    var first := I.Int(Position(m.layout, callee));
    PushBecomes(m, k, u, env, ops, first);
    if callee < |m.p.funs| {
      FunIsHere(m, callee);
      GiveIs(first, env, I.MAX_STACK_SIZE - s.sp);
      if s.sp < I.MAX_STACK_SIZE {
        var t := I.Push(m.c, u, first).value;
        Height(m, k, s, env, ops);
        Height(m, k, t, env, ops + [first]);
        CapturesRun(m, k, t, env, ops + [first], xs);
        ClosureWraps(m, k, s, t, env, ops, callee, first, xs);
      }
    }
  }

  lemma GiveIs(v: I.Value, env: Env, room: nat)
    ensures Give(v, env, room) == if room > 0 then Ok(Got(v, env)) else Fails(Overflow)
  {}

  lemma ClosureWraps(m: Loaded, k: Below, s: I.State, t: I.State, env: Env, ops: seq<I.Value>,
      callee: nat, first: I.Value, xs: seq<Variable>)
    requires IsLoaded(m) && callee < |m.p.funs| && |m.layout| == |m.p.funs|
    requires Stands(m, k, t, env, ops + [first]) && s.sp + 1 == t.sp <= I.MAX_STACK_SIZE && t.ip == s.ip + 8
    requires Captured(m, k, t, I.ExecCaptures(m.c, t, |xs|), |xs|, env, ops + [first],
      LookupAll(env, xs, I.MAX_STACK_SIZE - t.sp))
    ensures var r := I.ExecCaptures(m.c, t, |xs|);
      Becomes(m, k, if r.Ok? then I.WrapCaptures(m.c, r.value, m.layout[callee], |xs|) else r, s.ip + 8 + 5 * |xs|, ops,
        Capture(m.p, callee, xs, env, I.MAX_STACK_SIZE - s.sp))
  {
    hide IsLoaded, PartsStand, I.ExecCaptures, LookupAll, FunIsLoaded, GiveNew;
    var e, r := LookupAll(env, xs, I.MAX_STACK_SIZE - t.sp), I.ExecCaptures(m.c, t, |xs|);
    if e.Ok? {
      var vs := e.value;
      assert ops + [first] + vs == ops + ([first] + vs);
      Height(m, k, t, env, ops + [first]);
      Height(m, k, r.value, env, ops + ([first] + vs));
      if |vs| + 1 <= W.MAX_EXTRA_ROOTS_NUMBER && r.value.sp < I.MAX_STACK_SIZE {
        WrapBecomes(m, k, r.value, env, ops, callee, first, vs);
      }
    }
  }

  lemma MakeClosureExec(c: I.Context, s: I.State)
    ensures OpOf(0x54) == MakeClosure && I.Exec(c, s, MakeClosure) == I.ExecClosure(c, s)
  {
    hide I.ExecClosure;
  }

  lemma LambdaDelivers(m: Loaded, k: Below, s: I.State, env: Env, ops: seq<I.Value>, callee: nat, xs: seq<Variable>)
    returns (t: I.State)
    requires IsLoaded(m) && Stands(m, k, s, env, ops)
    requires HasCode(m.c.img.code, s.ip, LeafCode(m.layout, Lambda(callee, xs)))
    ensures s.sp <= I.MAX_STACK_SIZE
    ensures Delivers(m, k, s, t, s.ip + 9 + 5 * |xs|, ops, Capture(m.p, callee, xs, env, I.MAX_STACK_SIZE - s.sp))
  {
    hide IsLoaded, PartsStand, Delivers, HasCode, OpOf, I.Exec, Becomes, I.ExecClosure, Int32At, Code2, Capture,
      CapturedCode, Position;
    var code := m.c.img.code;
    HasBoth(code, s.ip, Code2(0x54, Position(m.layout, callee), |xs|), CapturedCode(xs));
    CodeSizes(0x54, Position(m.layout, callee));
    SmallOperands(m, s.ip + 9, callee, xs);
    HasCode2(code, s.ip, 0x54, Position(m.layout, callee), |xs|);
    MakeClosureExec(m.c, s.(ip := s.ip + 1));
    ClosureBecomes(m, k, s.(ip := s.ip + 1), env, ops, callee, xs);
    t := OneTurn(m, k, s, MakeClosure, s.ip + 9 + 5 * |xs|, ops,
      Capture(m.p, callee, xs, env, I.MAX_STACK_SIZE - s.sp));
  }

  lemma {:induction false} CapturedSize(xs: seq<Variable>)
    ensures |CapturedCode(xs)| == 5 * |xs|
    decreases |xs|
  {
    hide Code1;
    if xs != [] {
      CodeSizes(PlaceCode(xs[0].place), xs[0].index);
      CapturedSize(xs[1..]);
    }
  }

  /** What the code has room for is less than 2^31. */
  lemma SmallOperands(m: Loaded, at: nat, callee: nat, xs: seq<Variable>)
    requires IsLoaded(m) && HasCode(m.c.img.code, at, CapturedCode(xs))
    ensures Position(m.layout, callee) < 0x8000_0000 && |xs| < 0x8000_0000 && |CapturedCode(xs)| == 5 * |xs|
  {
    hide FunIsLoaded, CapturedCode;
    CapturedSize(xs);
    if callee < |m.layout| { FunIsHere(m, callee); }
  }

  // Calls

  /** The caller's frame knows where to go on. */
  function ReturnsTo(frames: seq<I.Frame>, ret: nat): seq<I.Frame>
    requires frames != []
  {
    frames[|frames| - 1 := frames[|frames| - 1].(ret := ret)]
  }

  lemma EntryIs(m: Loaded, f: nat)
    requires IsLoaded(m) && f < |m.p.funs|
    ensures |m.layout| == |m.p.funs| && m.layout[f] + 10 < |m.c.img.code|
    ensures m.p.funs[f].args < 0x8000_0000 && m.p.funs[f].locals < 0x8000_0000
    ensures var fun, at, code := m.p.funs[f], m.layout[f], m.c.img.code;
      && code[at] == (if fun.closure then 0x53 else 0x52)
      && Int32At(code, at + 1) == fun.args && Int32At(code, at + 5) == fun.locals
      && HasCode(code, at + 9, Compile(m.layout, fun.body, at + 9))
      && HasCode(code, at + 9 + |Compile(m.layout, fun.body, at + 9)|, [if fun.closure then 0x17 else 0x16])
  {
    hide IsLoaded, Compile, HasCode, Code2, Int32At;
    FunIsHere(m, f);
    var fun, at := m.p.funs[f], m.layout[f];
    var b: Byte := if fun.closure then 0x53 else 0x52;
    CodeSizes(b, fun.args);
    HasThree(m.c.img.code, at, Code2(b, fun.args, fun.locals), Compile(m.layout, fun.body, at + 9),
      [if fun.closure then 0x17 else 0x16]);
    HasCode2(m.c.img.code, at, b, fun.args, fun.locals);
  }

  lemma EntryOps()
    ensures OpOf(0x52) == Begin && OpOf(0x53) == Cbegin
  {}

  lemma ExecCallIs(m: Loaded, s: I.State, callee: nat, n: nat)
    requires IsLoaded(m) && callee < |m.p.funs| && s.frames != [] && s.ip + 8 < |m.c.img.code|
    requires Int32At(m.c.img.code, s.ip) == Position(m.layout, callee) && Int32At(m.c.img.code, s.ip + 4) == n
    ensures |m.layout| == |m.p.funs|
    ensures I.ExecCall(m.c, s) == if m.p.funs[callee].closure then Fails(Invalid)
      else Ok(s.(frames := ReturnsTo(s.frames, s.ip + 8), ip := m.layout[callee], tmp := false))
  {
    hide IsLoaded, I.FetchInt, Int32At, U32, OpOf, Compile, HasCode;
    IsChecked(m);
    EntryIs(m, callee);
    EntryOps();
    F.Fetched(m.c, s);
    F.Fetched(m.c, s.(ip := s.ip + 4));
    E.SmallU32(m.layout[callee]);
  }

  lemma CallExec(c: I.Context, s: I.State)
    ensures OpOf(0x56) == Op.Call && I.Exec(c, s, Op.Call) == I.ExecCall(c, s)
  {
    hide I.ExecCall;
  }

  lemma CallLeads(m: Loaded, s: I.State, callee: nat, n: nat)
    requires IsLoaded(m) && callee < |m.p.funs| && s.frames != [] && n < 0x8000_0000
    requires HasCode(m.c.img.code, s.ip, Code2(0x56, Position(m.layout, callee), n))
    ensures |m.layout| == |m.p.funs|
    ensures if m.p.funs[callee].closure then Ends(m.c, s, Invalid)
      else Leads(m.c, s, s.(frames := ReturnsTo(s.frames, s.ip + 9), ip := m.layout[callee], tmp := false))
  {
    hide IsLoaded, HasCode, OpOf, I.Exec, I.ExecCall, Int32At, Code2, Leads, Ends, FunIsLoaded;
    FunIsHere(m, callee);
    IsChecked(m);
    HasCode2(m.c.img.code, s.ip, 0x56, Position(m.layout, callee), n);
    CallExec(m.c, s.(ip := s.ip + 1));
    ExecCallIs(m, s.(ip := s.ip + 1), callee, n);
    TurnTo(m, s, Op.Call, I.ExecCall(m.c, s.(ip := s.ip + 1)));
  }

  lemma ExecCallcIs(m: Loaded, s: I.State, ideal: seq<I.Object>, x: I.Value, n: nat)
    requires IsLoaded(m) && s.frames != [] && n < 0x8000_0000
    requires s.ip + 4 < |m.c.img.code| && Int32At(m.c.img.code, s.ip) == n
    requires n < s.sp <= |s.buf| && s.buf[s.sp - n - 1] == x && HeapStands(m.layout, s.heap, ideal)
    ensures ClosureOf(ideal, x).Ok? ==>
      && 0 <= ClosureOf(ideal, x).value < |m.layout| == |m.p.funs| && x.Obj?
      && I.ExecCallc(m.c, s) ==
        Ok(s.(frames := ReturnsTo(s.frames, s.ip + 4), ip := m.layout[ClosureOf(ideal, x).value], tmp := true))
    ensures ClosureOf(ideal, x).Fails? ==> I.ExecCallc(m.c, s) == Fails(ClosureOf(ideal, x).reason)
  {
    hide IsLoaded, I.FetchInt, Int32At, U32, OpOf, Compile, HasCode, HeapStands;
    IsChecked(m);
    EntryOps();
    F.Fetched(m.c, s);
    E.SmallU32(n);
    if x.Obj? && x.id < |s.heap| {
      ClosureStands(m, s, ideal, x.id);
      if ideal[x.id].Closure? {
        EntryIs(m, ideal[x.id].code);
        E.SmallU32(s.heap[x.id].code);
      }
    }
    HeapSizes(m, s, ideal);
  }

  lemma HeapSizes(m: Loaded, s: I.State, ideal: seq<I.Object>)
    requires HeapStands(m.layout, s.heap, ideal)
    ensures |s.heap| == |ideal|
  {}

  lemma ClosureStands(m: Loaded, s: I.State, ideal: seq<I.Object>, id: nat)
    requires IsLoaded(m) && HeapStands(m.layout, s.heap, ideal) && id < |s.heap|
    ensures id < |ideal| && |m.layout| == |m.p.funs| && (s.heap[id].Closure? <==> ideal[id].Closure?)
    ensures ideal[id].Closure? ==> 0 <= ideal[id].code < |m.layout| && s.heap[id].code == m.layout[ideal[id].code]
  {
    hide FunIsLoaded;
    assert ObjectStands(m.layout, s.heap[id], ideal[id]);
  }

  lemma CallcExec(c: I.Context, s: I.State)
    ensures OpOf(0x55) == Callc && I.Exec(c, s, Callc) == I.ExecCallc(c, s)
  {
    hide I.ExecCallc;
  }

  lemma CallcLeads(m: Loaded, s: I.State, ideal: seq<I.Object>, x: I.Value, n: nat)
    requires IsLoaded(m) && s.frames != [] && n < 0x8000_0000 && HasCode(m.c.img.code, s.ip, Code1(0x55, n))
    requires n < s.sp <= |s.buf| && s.buf[s.sp - n - 1] == x && HeapStands(m.layout, s.heap, ideal)
    ensures ClosureOf(ideal, x).Ok? ==>
      && 0 <= ClosureOf(ideal, x).value < |m.layout| == |m.p.funs| && x.Obj?
      && Leads(m.c, s,
        s.(frames := ReturnsTo(s.frames, s.ip + 5), ip := m.layout[ClosureOf(ideal, x).value], tmp := true))
    ensures ClosureOf(ideal, x).Fails? ==> Ends(m.c, s, ClosureOf(ideal, x).reason)
  {
    hide IsLoaded, HasCode, OpOf, I.Exec, I.ExecCallc, Int32At, Code1, Leads, Ends, HeapStands, ClosureOf;
    HasCode1(m.c.img.code, s.ip, 0x55, n);
    CallcExec(m.c, s.(ip := s.ip + 1));
    ExecCallcIs(m, s.(ip := s.ip + 1), ideal, x, n);
    TurnTo(m, s, Callc, I.ExecCallc(m.c, s.(ip := s.ip + 1)));
  }

  // Entries

  /** A state in which a function is about to be entered: on top its arguments, below them the
      closure, if it is called through one. */
  ghost predicate Ready(m: Loaded, s: I.State, bottom: nat, vs: seq<I.Value>, self: Option<nat>, env: Env) {
    && |s.frames| == env.depth && |s.buf| == I.MAX_STACK_SIZE
    && s.sp == bottom + (if self.Some? then 1 else 0) + |vs| <= I.MAX_STACK_SIZE
    && |env.globals| == m.c.img.globals <= bottom
    && (forall i :: 0 <= i < |env.globals| ==> s.buf[i] == env.globals[i])
    && (self.Some? ==> s.buf[bottom] == I.Obj(self.value))
    && (forall i :: 0 <= i < |vs| ==> s.buf[s.sp - |vs| + i] == vs[i])
    && HeapStands(m.layout, s.heap, env.heap) && s.input == env.input && s.output == env.output
    && s.tmp == self.Some?
  }

  /** In the new frame, above what was there, the environment that the evaluator enters. */
  ghost predicate Entered(m: Loaded, s: I.State, r: Result<I.State>, at: nat, bottom: nat, e: Result<Env>) {
    match e
    case Ok(inner) => r.Ok? && r.value.ip == at && Stands(m, Below(s.frames, s.buf, bottom), r.value, inner, [])
    case Fails(f) => r == Fails(f)
    case Stuck => true
  }

  lemma BeginBecomes(m: Loaded, s: I.State, callee: nat, bottom: nat, vs: seq<I.Value>, self: Option<nat>, env: Env)
    requires IsLoaded(m) && callee < |m.p.funs| && Ready(m, s, bottom, vs, self, env)
    requires |m.layout| == |m.p.funs| && s.ip == m.layout[callee] + 1
    requires m.p.funs[callee].closure ==> self.Some?
    ensures Entered(m, s, I.ExecBegin(m.c, s, m.p.funs[callee].closure), s.ip + 8, bottom,
      Enter(m.p, callee, vs, self, env, I.MAX_STACK_SIZE - s.sp))
  {
    hide IsLoaded, I.FetchInt, Int32At, U32, OpOf, Compile, HasCode, HeapStands;
    IsChecked(m);
    EntryIs(m, callee);
    F.Fetched(m.c, s);
    F.Fetched(m.c, s.(ip := s.ip + 4));
    E.SmallU32(s.sp);
    E.SmallU32(m.p.funs[callee].locals);
    E.SmallU32(m.p.funs[callee].args);
  }

  lemma BeginExec(c: I.Context, s: I.State)
    ensures I.Exec(c, s, Begin) == I.ExecBegin(c, s, false)
    ensures I.Exec(c, s, Cbegin) == I.ExecBegin(c, s, true)
  {
    hide I.ExecBegin;
  }

  lemma BeginLeads(m: Loaded, s: I.State, callee: nat, bottom: nat, vs: seq<I.Value>, self: Option<nat>, env: Env)
    returns (t: I.State)
    requires IsLoaded(m) && callee < |m.p.funs| && Ready(m, s, bottom, vs, self, env)
    requires |m.layout| == |m.p.funs| && s.ip == m.layout[callee]
    requires m.p.funs[callee].closure ==> self.Some?
    ensures s.sp <= I.MAX_STACK_SIZE
    ensures var e := Enter(m.p, callee, vs, self, env, I.MAX_STACK_SIZE - s.sp);
      && (e.Ok? ==> Leads(m.c, s, t) && t.ip == s.ip + 9)
      && (e.Ok? ==> Stands(m, Below(s.frames, s.buf, bottom), t, e.value, []))
      && (e.Fails? ==> Ends(m.c, s, e.reason))
  {
    hide IsLoaded, OpOf, I.Exec, I.ExecBegin, Leads, Ends, PartsStand, Enter, HasCode, Int32At;
    EntryIs(m, callee);
    EntryOps();
    var closure := m.p.funs[callee].closure;
    BeginExec(m.c, s.(ip := s.ip + 1));
    BeginBecomes(m, s.(ip := s.ip + 1), callee, bottom, vs, self, env);
    var r := I.ExecBegin(m.c, s.(ip := s.ip + 1), closure);
    TurnTo(m, s, if closure then Cbegin else Begin, r);
    t := if r.Ok? then r.value else s;
  }

  // Returns

  /** Back in the caller's frame, with v where the callee's arguments began. */
  function BackIn(k: Below, s: I.State, v: I.Value): I.State
    requires k.frames != [] && k.bottom < |s.buf|
  {
    s.(frames := k.frames, ip := k.frames[|k.frames| - 1].ret, sp := k.bottom + 1, buf := s.buf[k.bottom := v])
  }

  lemma ExecRetIs(m: Loaded, k: Below, s: I.State, env: Env, v: I.Value)
    requires IsLoaded(m) && Stands(m, k, s, env, [v])
    ensures k.bottom < |s.buf|
    ensures I.ExecRet(m.c, s) ==
      if k.frames == [] then Ok(I.Halt(s.(frames := [], sp := k.bottom))) else Ok(I.Continue(BackIn(k, s, v)))
  {
    hide FunIsLoaded, HeapStands, U32;
    assert [] + [v] == [v];
    OneLies(m, k, s, env, [], v);
    assert s.frames[..|s.frames| - 1] == k.frames && s.frames[|k.frames|] == s.frames[|s.frames| - 1];
    E.SmallU32(s.frames[|k.frames|].base - |env.args|);
  }

  lemma StepReturns(m: Loaded, s: I.State)
    requires IsLoaded(m) && s.ip + 1 < |m.c.img.code| && OpOf(m.c.img.code[s.ip]).Ret?
    ensures I.Step(m.c, s) == I.ExecRet(m.c, s.(ip := s.ip + 1))
  {
    hide IsLoaded, OpOf, I.ExecRet, I.Exec, I.FetchByte;
    FetchedByte(m, s);
  }

  lemma RetOps()
    ensures OpOf(0x16) == Ret && OpOf(0x17) == Ret
  {}

  lemma Returns(m: Loaded, k: Below, s: I.State, env: Env, v: I.Value, closure: bool)
    requires IsLoaded(m) && Stands(m, k, s, env, [v])
    requires HasCode(m.c.img.code, s.ip, [if closure then 0x17 else 0x16])
    ensures k.bottom < |s.buf|
    ensures if k.frames == [] then I.Step(m.c, s) == Ok(I.Halt(s.(ip := s.ip + 1, frames := [], sp := k.bottom)))
      else Leads(m.c, s, BackIn(k, s, v))
  {
    hide IsLoaded, OpOf, I.ExecRet, I.Step, HasCode, PartsStand, Leads;
    HasByte(m.c.img.code, s.ip, if closure then 0x17 else 0x16);
    RetOps();
    StepReturns(m, s);
    ExecRetIs(m, k, s.(ip := s.ip + 1), env, v);
    if k.frames != [] { TurnLeads(m.c, s, Ok(BackIn(k, s, v))); }
  }

  /** The caller's stack is as it was, with v in the place of what the call took. */
  lemma BackStands(m: Loaded, k: Below, s: I.State, env: Env, ops: seq<I.Value>, xs: seq<I.Value>,
      ret: nat, t: I.State, inner: Env, v: I.Value)
    requires Stands(m, k, s, env, ops + xs) && |xs| <= s.sp && s.frames != []
    requires Stands(m, Below(ReturnsTo(s.frames, ret), s.buf, s.sp - |xs|), t, inner, [v])
    requires |inner.globals| == |env.globals|
    ensures s.sp - |xs| < |t.buf|
    ensures var k2 := Below(ReturnsTo(s.frames, ret), s.buf, s.sp - |xs|);
      Stands(m, k, BackIn(k2, t, v), Leave(env, inner), ops + [v])
  {
    hide HeapStands;
    var k2 := Below(ReturnsTo(s.frames, ret), s.buf, s.sp - |xs|);
    assert k2.frames[|k.frames|] == s.frames[|k.frames|].(ret := ret);
    assert k2.frames[..|k.frames|] == s.frames[..|k.frames|];
    assert FramesStand(k, k2.frames, env);
    BackOnStack(m.c.img.globals, k, s.buf, s.sp, env, ops, xs, k2, t.buf, t.sp, inner, v);
  }

  lemma BackOnStack(globals: nat, k: Below, buf: seq<I.Value>, sp: nat, env: Env, ops: seq<I.Value>, xs: seq<I.Value>,
      k2: Below, buf2: seq<I.Value>, sp2: nat, inner: Env, v: I.Value)
    requires StackStands(globals, k, buf, sp, env, ops + xs) && k2.buf == buf && k2.bottom == sp - |xs|
    requires StackStands(globals, k2, buf2, sp2, inner, [v])
    ensures k2.bottom < |buf2|
    ensures StackStands(globals, k, buf2[k2.bottom := v], k2.bottom + 1, Leave(env, inner), ops + [v])
  {
    forall i | 0 <= i < |ops + [v]| ensures buf2[k2.bottom := v][OperandsAt(k, env) + i] == (ops + [v])[i] {
      if i < |ops| { assert buf[OperandsAt(k, env) + i] == (ops + xs)[i]; }
    }
  }
}
