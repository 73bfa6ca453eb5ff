/** Every instruction leaves the value that the evaluator gives for it. */
module Instructions {
  import opened Bytecode
  import opened Language
  import opened Postfix
  import opened Correspondence
  import I = Interpreter
  import E = Erasure
  import F = Effects
  import R = Refinement
  import W = Words

  // Runs

  ghost predicate Leads(c: I.Context, s: I.State, t: I.State) {
    exists n: nat :: I.Run(c, s, n) == Ok(I.Continue(t))
  }

  ghost predicate Ends(c: I.Context, s: I.State, f: Failure) {
    exists n: nat :: I.Run(c, s, n) == Fails(f)
  }

  /** The run from s comes to t, which has the value on top, or fails as the evaluator does. */
  ghost predicate Delivers(
      m: Loaded, k: Below, s: I.State, t: I.State, at: nat, ops: seq<I.Value>, r: Result<Got>) {
    match r
    case Ok(got) => Leads(m.c, s, t) && t.ip == at && Stands(m, k, t, got.env, ops + [got.value])
    case Fails(f) => Ends(m.c, s, f)
    case Stuck => true
  }

  lemma {:induction false} RunsOn(c: I.Context, s: I.State, n: nat, k: nat)
    requires I.Run(c, s, n).Ok? && I.Run(c, s, n).value.Continue?
    ensures I.Run(c, s, n + k) == I.Run(c, I.Run(c, s, n).value.state, k)
    decreases n
  {
    hide I.Step;
    if n > 0 { RunsOn(c, I.Step(c, s).value.state, n - 1, k); }
  }

  lemma LeadsItself(c: I.Context, s: I.State)
    ensures Leads(c, s, s)
  {
    assert I.Run(c, s, 0) == Ok(I.Continue(s));
  }

  lemma LeadsOn(c: I.Context, s: I.State, t: I.State, u: I.State)
    requires Leads(c, s, t) && Leads(c, t, u)
    ensures Leads(c, s, u)
  {
    hide I.Run;
    var n: nat :| I.Run(c, s, n) == Ok(I.Continue(t));
    var k: nat :| I.Run(c, t, k) == Ok(I.Continue(u));
    RunsOn(c, s, n, k);
  }

  lemma EndsAfter(c: I.Context, s: I.State, t: I.State, f: Failure)
    requires Leads(c, s, t) && Ends(c, t, f)
    ensures Ends(c, s, f)
  {
    hide I.Run;
    var n: nat :| I.Run(c, s, n) == Ok(I.Continue(t));
    var k: nat :| I.Run(c, t, k) == Fails(f);
    RunsOn(c, s, n, k);
  }

  /** What comes behind a first part. */
  lemma DeliversAfter(
      m: Loaded, k: Below, s: I.State, t: I.State, u: I.State, at: nat, ops: seq<I.Value>, r: Result<Got>)
    requires Leads(m.c, s, t) && Delivers(m, k, t, u, at, ops, r)
    ensures Delivers(m, k, s, u, at, ops, r)
  {
    hide Leads, Ends, Stands;
    if r.Ok? { LeadsOn(m.c, s, t, u); }
    if r.Fails? { EndsAfter(m.c, s, t, r.reason); }
  }

  /** One turn. */
  ghost predicate Turns(c: I.Context, s: I.State, r: Result<I.State>) {
    if r.Ok? then I.Step(c, s) == Ok(I.Continue(r.value)) else I.Step(c, s) == r.PropagateFailure()
  }

  lemma TurnLeads(c: I.Context, s: I.State, r: Result<I.State>)
    requires Turns(c, s, r)
    ensures r.Ok? ==> Leads(c, s, r.value)
    ensures r.Fails? ==> Ends(c, s, r.reason)
  {
    hide I.Step;
    if r.Ok? { assert I.Run(c, s, 1) == I.Run(c, r.value, 0) == Ok(I.Continue(r.value)); }
    if r.Fails? { assert I.Run(c, s, 1) == Fails(r.reason); }
  }

  /** A turn executes the instruction under the instruction pointer. */
  lemma Executes(m: Loaded, s: I.State, op: Op)
    requires IsLoaded(m) && s.ip + 1 < |m.c.img.code| && OpOf(m.c.img.code[s.ip]) == op && !op.Ret? && !op.Stop?
    ensures Turns(m.c, s, I.Exec(m.c, s.(ip := s.ip + 1), op))
  {
    hide I.Exec, OpOf, I.Step, FunIsLoaded;
    R.StepExecutes(m.c, s);
  }

  /** What executing comes to, in terms of Delivers. */
  ghost predicate Becomes(
      m: Loaded, k: Below, r: Result<I.State>, at: nat, ops: seq<I.Value>, e: Result<Got>) {
    match e
    case Ok(got) => r.Ok? && r.value.ip == at && Stands(m, k, r.value, got.env, ops + [got.value])
    case Fails(f) => r == Fails(f)
    case Stuck => true
  }

  lemma TurnDelivers(
      m: Loaded, k: Below, s: I.State, r: Result<I.State>, at: nat, ops: seq<I.Value>, e: Result<Got>)
    returns (t: I.State)
    requires Turns(m.c, s, r) && Becomes(m, k, r, at, ops, e)
    ensures Delivers(m, k, s, t, at, ops, e)
  {
    hide Turns, Stands, Leads, Ends;
    t := if r.Ok? then r.value else s;
    TurnLeads(m.c, s, r);
  }

  /** A value in the place of some, or the failure to get it. */
  ghost function Valued(r: Result<I.Value>, env: Env): Result<Got> {
    var v :- r;
    Ok(Got(v, env))
  }

  ghost function Placed(s: I.State, n: nat, r: Result<I.Value>): Result<I.State>
    requires n <= s.sp && s.sp - n < |s.buf|
  {
    var v :- r;
    Ok(Replaced(s, n, v))
  }

  lemma PlacedBecomes(
      m: Loaded, k: Below, s: I.State, env: Env, ops: seq<I.Value>, xs: seq<I.Value>, r: Result<I.Value>)
    requires Stands(m, k, s, env, ops + xs) && s.sp - |xs| < I.MAX_STACK_SIZE
    ensures |xs| <= s.sp && s.sp - |xs| < |s.buf|
    ensures Becomes(m, k, Placed(s, |xs|, r), s.ip, ops, Valued(r, env))
  {
    hide Stands;
    OperandsLie(m, k, s, env, ops, xs);
    if r.Ok? { ReplacedStands(m, k, s, env, ops, xs, r.value); }
  }

  // Numbers

  lemma WrapIsI32(x: int)
    ensures Wrap(x) == I32(x)
  {}

  lemma DivideIsQuotient(x: int, y: int)
    requires y != 0
    ensures Divide(x, y) == I.Quotient(x, y)
  {
    if x >= 0 {
      if y < 0 { DivideByNegative(x, -y); }
    } else if y < 0 {
      DivideByNegative(-x, -y);
    }
  }

  lemma DivideByNegative(x: nat, y: int)
    requires y > 0
    ensures x / -y == -(x / y)
  {}

  lemma CalculateIsBinary(op: Operator, x: int, y: int)
    ensures I.Binary(OperatorCode(op), I32(x), I32(y)) == Calculate(op, Wrap(x), Wrap(y))
  {
    hide I32, Wrap, Divide, I.Quotient;
    WrapIsI32(x);
    WrapIsI32(y);
    var a, b := Wrap(x), Wrap(y);
    WrapIsI32(a + b);
    WrapIsI32(a - b);
    WrapIsI32(a * b);
    if b != 0 {
      DivideIsQuotient(a, b);
      WrapIsI32(Divide(a, b));
      WrapIsI32(a - b * Divide(a, b));
    }
  }

  lemma ExecBinopIs(c: I.Context, s: I.State, op: Operator)
    requires c.checked && 2 <= s.sp <= |s.buf| == I.MAX_STACK_SIZE
    ensures I.ExecBinop(c, s, OperatorCode(op)) ==
      Placed(s, 2, CalculateValues(op, s.buf[s.sp - 2], s.buf[s.sp - 1]))
  {
    hide I.Binary, Calculate, I32, Wrap, OperatorCode;
    var x, y := s.buf[s.sp - 2], s.buf[s.sp - 1];
    if x.Int? && y.Int? { CalculateIsBinary(op, x.n, y.n); }
  }

  /** As the evaluator says, if it says something. */
  ghost predicate Meets(r: Result<I.State>, e: Result<I.State>) {
    e.Stuck? || r == e
  }

  lemma ExecEqIs(c: I.Context, s: I.State, heap: seq<I.Object>)
    requires c.checked && 2 <= s.sp <= |s.buf| == I.MAX_STACK_SIZE
    ensures Meets(I.ExecEq(c, s), Placed(s, 2, EvalDyadic(Equal, s.buf[s.sp - 2], s.buf[s.sp - 1], heap)))
  {
    hide I32, Wrap;
    var x, y := s.buf[s.sp - 2], s.buf[s.sp - 1];
    if x.Int? && y.Int? {
      WrapIsI32(x.n);
      WrapIsI32(y.n);
    }
  }

  lemma AggregateIs(layout: Layout, s: I.State, ideal: seq<I.Object>, v: I.Value)
    requires HeapStands(layout, s.heap, ideal)
    ensures ObjectOf(ideal, v).Stuck? || I.Aggregate(s, v) == ObjectOf(ideal, v)
    ensures ObjectOf(ideal, v).Ok? ==>
      && v.Obj? && v.id < |s.heap| && s.heap[v.id] == ideal[v.id] == ObjectOf(ideal, v).value
      && !ideal[v.id].Closure?
  {
    hide ObjectStands;
    if v.Obj? && v.id < |s.heap| { ObjectIs(layout, s.heap, ideal, v.id); }
  }

  lemma LengthIsSize(o: I.Object)
    requires !o.Closure?
    ensures LengthOf(o) == I.Size(o)
  {}

  lemma ExecElemIs(m: Loaded, s: I.State, ideal: seq<I.Object>)
    requires m.c.checked && 2 <= s.sp <= |s.buf| == I.MAX_STACK_SIZE && HeapStands(m.layout, s.heap, ideal)
    ensures Meets(I.ExecElem(m.c, s), Placed(s, 2, EvalDyadic(At, s.buf[s.sp - 2], s.buf[s.sp - 1], ideal)))
  {
    hide I32, Wrap, HeapStands, I.Aggregate;
    var x, y := s.buf[s.sp - 2], s.buf[s.sp - 1];
    AggregateIs(m.layout, s.(sp := s.sp - 2), ideal, x);
    if y.Int? { WrapIsI32(y.n); }
    if ObjectOf(ideal, x).Ok? { LengthIsSize(ObjectOf(ideal, x).value); }
  }

  lemma IsIs(layout: Layout, s: I.State, ideal: seq<I.Object>, v: I.Value, kind: Kind)
    requires HeapStands(layout, s.heap, ideal)
    ensures IsOf(ideal, v, kind).Stuck? || I.Is(s, v, kind) == IsOf(ideal, v, kind)
    ensures IsOf(ideal, v, kind) == Ok(true) && !kind.Boxed? && !kind.Unboxed? ==>
      && v.Obj? && v.id < |s.heap| && (!kind.AClosure? ==> s.heap[v.id] == ideal[v.id])
  {
    hide ObjectStands;
    if v.Obj? && v.id < |s.heap| {
      ObjectIs(layout, s.heap, ideal, v.id);
      if ideal[v.id].Closure? { assert s.heap[v.id].Closure?; }
    }
  }

  lemma ExecPattStrIs(m: Loaded, s: I.State, ideal: seq<I.Object>)
    requires m.c.checked && 2 <= s.sp <= |s.buf| == I.MAX_STACK_SIZE && HeapStands(m.layout, s.heap, ideal)
    ensures Meets(I.ExecPattStr(m.c, s), Placed(s, 2, EvalDyadic(SameText, s.buf[s.sp - 2], s.buf[s.sp - 1], ideal)))
  {
    hide HeapStands, W.CString, I.Is;
    var x, y := s.buf[s.sp - 2], s.buf[s.sp - 1];
    var t := s.(sp := s.sp - 2);
    IsIs(m.layout, t, ideal, x, AString);
    IsIs(m.layout, t, ideal, y, AString);
  }

  /** One byte that works on the operands alone. */
  lemma OneByte(
      m: Loaded, k: Below, s: I.State, env: Env, ops: seq<I.Value>, xs: seq<I.Value>, b: Byte, r: Result<I.Value>)
    returns (t: I.State)
    requires IsLoaded(m) && Stands(m, k, s, env, ops + xs) && HasCode(m.c.img.code, s.ip, [b])
    requires !OpOf(b).Ret? && !OpOf(b).Stop? && s.sp - |xs| < I.MAX_STACK_SIZE
    requires |xs| <= s.sp && s.sp - |xs| < |s.buf|
    requires Meets(I.Exec(m.c, s.(ip := s.ip + 1), OpOf(b)), Placed(s.(ip := s.ip + 1), |xs|, r))
    ensures Delivers(m, k, s, t, s.ip + 1, ops, Valued(r, env))
  {
    hide HasCode, IsLoaded, I.Exec, OpOf, PartsStand, Delivers, Turns;
    HasByte(m.c.img.code, s.ip, b);
    var u := s.(ip := s.ip + 1);
    Executes(m, s, OpOf(b));
    PlacedBecomes(m, k, u, env, ops, xs, r);
    t := TurnDelivers(m, k, s, I.Exec(m.c, u, OpOf(b)), s.ip + 1, ops, Valued(r, env));
  }

  lemma OperatorOps(op: Operator)
    ensures OpOf(OperatorCode(op)) == Binop(OperatorCode(op))
  {}

  lemma BinopDelivers(m: Loaded, k: Below, s: I.State, env: Env, ops: seq<I.Value>,
      x: I.Value, y: I.Value, op: Operator)
    returns (t: I.State)
    requires IsLoaded(m) && Stands(m, k, s, env, ops + [x, y]) && HasCode(m.c.img.code, s.ip, [OperatorCode(op)])
    ensures Delivers(m, k, s, t, s.ip + 1, ops, Valued(CalculateValues(op, x, y), env))
  {
    hide HasCode, FunIsLoaded, I.ExecBinop, OpOf, OperatorCode, CalculateValues, PartsStand, Delivers;
    TwoLie(m, k, s, env, ops, x, y);
    OperatorOps(op);
    ExecBinopIs(m.c, s.(ip := s.ip + 1), op);
    t := OneByte(m, k, s, env, ops, [x, y], OperatorCode(op), CalculateValues(op, x, y));
  }

  /** SWAP leaves the operands in their order. */
  lemma SwapLeads(m: Loaded, s: I.State)
    requires IsLoaded(m) && HasCode(m.c.img.code, s.ip, [0x1A]) && 2 <= s.sp <= |s.buf| == I.MAX_STACK_SIZE
    ensures Leads(m.c, s, s.(ip := s.ip + 1))
  {
    hide HasCode, FunIsLoaded, Leads, Turns;
    HasByte(m.c.img.code, s.ip, 0x1A);
    Executes(m, s, Swap);
    var u := s.(ip := s.ip + 1);
    assert s.buf[s.sp - 2 := s.buf[s.sp - 2]][s.sp - 1 := s.buf[s.sp - 1]] == s.buf;
    TurnLeads(m.c, s, I.Exec(m.c, u, Swap));
  }

  lemma EqualDelivers(m: Loaded, k: Below, s: I.State, env: Env, ops: seq<I.Value>, x: I.Value, y: I.Value)
    returns (t: I.State)
    requires IsLoaded(m) && Stands(m, k, s, env, ops + [x, y]) && HasCode(m.c.img.code, s.ip, [0x0A])
    ensures Delivers(m, k, s, t, s.ip + 1, ops, Valued(EvalDyadic(Equal, x, y, env.heap), env))
  {
    hide FunIsLoaded, PartsStand, Delivers, HasCode, HeapStands, EvalDyadic, I.ExecEq;
    TwoLie(m, k, s, env, ops, x, y);
    HeapOf(m, k, s, env, ops + [x, y]);
    ExecEqIs(m.c, s.(ip := s.ip + 1), env.heap);
    t := OneByte(m, k, s, env, ops, [x, y], 0x0A, EvalDyadic(Equal, x, y, env.heap));
  }

  lemma AtDelivers(m: Loaded, k: Below, s: I.State, env: Env, ops: seq<I.Value>, x: I.Value, y: I.Value)
    returns (t: I.State)
    requires IsLoaded(m) && Stands(m, k, s, env, ops + [x, y]) && HasCode(m.c.img.code, s.ip, [0x1B])
    ensures Delivers(m, k, s, t, s.ip + 1, ops, Valued(EvalDyadic(At, x, y, env.heap), env))
  {
    hide FunIsLoaded, PartsStand, Delivers, HasCode, HeapStands, EvalDyadic, I.ExecElem;
    TwoLie(m, k, s, env, ops, x, y);
    HeapOf(m, k, s, env, ops + [x, y]);
    ExecElemIs(m, s.(ip := s.ip + 1), env.heap);
    t := OneByte(m, k, s, env, ops, [x, y], 0x1B, EvalDyadic(At, x, y, env.heap));
  }

  lemma SameTextDelivers(m: Loaded, k: Below, s: I.State, env: Env, ops: seq<I.Value>, x: I.Value, y: I.Value)
    returns (t: I.State)
    requires IsLoaded(m) && Stands(m, k, s, env, ops + [x, y]) && HasCode(m.c.img.code, s.ip, [0x60])
    ensures Delivers(m, k, s, t, s.ip + 1, ops, Valued(EvalDyadic(SameText, x, y, env.heap), env))
  {
    hide FunIsLoaded, PartsStand, Delivers, HasCode, HeapStands, EvalDyadic, I.ExecPattStr;
    TwoLie(m, k, s, env, ops, x, y);
    HeapOf(m, k, s, env, ops + [x, y]);
    ExecPattStrIs(m, s.(ip := s.ip + 1), env.heap);
    t := OneByte(m, k, s, env, ops, [x, y], 0x60, EvalDyadic(SameText, x, y, env.heap));
  }

  /** Two operands become one. */
  lemma DyadicDelivers(m: Loaded, k: Below, s: I.State, env: Env, ops: seq<I.Value>,
      x: I.Value, y: I.Value, d: Dyadic)
    returns (t: I.State)
    requires IsLoaded(m) && Stands(m, k, s, env, ops + [x, y]) && HasCode(m.c.img.code, s.ip, DyadicCode(d))
    ensures Delivers(m, k, s, t, s.ip + |DyadicCode(d)|, ops, Valued(EvalDyadic(d, x, y, env.heap), env))
  {
    hide IsLoaded, HasCode, PartsStand, Delivers, Leads, CalculateValues, ItemAt, SameTexts;
    match d
    case Apply(op) => t := BinopDelivers(m, k, s, env, ops, x, y, op);
    case Reordered(op) =>
      HasBoth(m.c.img.code, s.ip, [0x1A], [OperatorCode(op)]);
      TwoLie(m, k, s, env, ops, x, y);
      SwapLeads(m, s);
      t := BinopDelivers(m, k, s.(ip := s.ip + 1), env, ops, x, y, op);
      DeliversAfter(m, k, s, s.(ip := s.ip + 1), t, s.ip + 2, ops, Valued(CalculateValues(op, x, y), env));
    case Equal => t := EqualDelivers(m, k, s, env, ops, x, y);
    case At => t := AtDelivers(m, k, s, env, ops, x, y);
    case SameText => t := SameTextDelivers(m, k, s, env, ops, x, y);
  }

  // Pushing

  lemma PushBecomes(m: Loaded, k: Below, s: I.State, env: Env, ops: seq<I.Value>, v: I.Value)
    requires m.c.checked && Stands(m, k, s, env, ops)
    ensures s.sp <= I.MAX_STACK_SIZE
    ensures Becomes(m, k, I.Push(m.c, s, v), s.ip, ops, Give(v, env, I.MAX_STACK_SIZE - s.sp))
  {
    hide PartsStand;
    assert ops + [] == ops;
    OperandsLie(m, k, s, env, ops, []);
    if s.sp < I.MAX_STACK_SIZE { ReplacedStands(m, k, s, env, ops, [], v); }
  }

  /** A turn of an instruction that is known to come to this. */
  lemma OneTurn(m: Loaded, k: Below, s: I.State, op: Op, at: nat, ops: seq<I.Value>, e: Result<Got>)
    returns (t: I.State)
    requires IsLoaded(m) && s.ip + 1 < |m.c.img.code| && OpOf(m.c.img.code[s.ip]) == op && !op.Ret? && !op.Stop?
    requires Becomes(m, k, I.Exec(m.c, s.(ip := s.ip + 1), op), at, ops, e)
    ensures Delivers(m, k, s, t, at, ops, e)
  {
    hide IsLoaded, I.Exec, OpOf, Becomes, Delivers, Turns;
    Executes(m, s, op);
    t := TurnDelivers(m, k, s, I.Exec(m.c, s.(ip := s.ip + 1), op), at, ops, e);
  }

  // Variables

  ghost function Addressed(k: Below, env: Env, x: Variable, room: nat): Result<Got> {
    var _ :- Exists(env, x);
    Give(Address(k, env, x), env, room)
  }

  ghost function LoadedFrom(env: Env, x: Variable, room: nat): Result<Got> {
    var v :- Lookup(env, x);
    Give(v, env, room)
  }

  lemma PlaceOps(place: Place)
    ensures OpOf(0x20 + PlaceCode(place)) == Ld(place)
    ensures OpOf(0x30 + PlaceCode(place)) == Lda(place)
    ensures OpOf(0x40 + PlaceCode(place)) == St(place)
    ensures PlaceOf(PlaceCode(place)) == place
  {}

  lemma FetchIndexIs(m: Loaded, s: I.State, place: Place)
    requires IsLoaded(m) && s.ip + 4 < |m.c.img.code|
    ensures I.FetchIndex(m.c, s, place) == Ok((s.(ip := s.ip + 4), Int32At(m.c.img.code, s.ip)))
  {
    hide Int32At, FunIsLoaded;
    F.Fetched(m.c, s);
  }

  lemma LdBecomes(m: Loaded, k: Below, s: I.State, env: Env, ops: seq<I.Value>, x: Variable)
    requires IsLoaded(m) && Stands(m, k, s, env, ops)
    requires s.ip + 4 < |m.c.img.code| && Int32At(m.c.img.code, s.ip) == x.index
    ensures s.sp <= I.MAX_STACK_SIZE
    ensures Becomes(m, k, I.ExecLd(m.c, s, x.place), s.ip + 4, ops, LoadedFrom(env, x, I.MAX_STACK_SIZE - s.sp))
  {
    hide Int32At, FunIsLoaded, PartsStand, I.Locate, I.Load, I.Push, Exists, I.FetchIndex, Address;
    var t := s.(ip := s.ip + 4);
    FetchIndexIs(m, s, x.place);
    LocateIs(m, k, t, env, ops, x);
    if Lookup(env, x).Ok? {
      LoadIs(m, k, t, env, ops, x);
      PushBecomes(m, k, t, env, ops, Lookup(env, x).value);
    } else {
      PushBecomes(m, k, t, env, ops, I.Null);
    }
  }

  lemma LdaBecomes(m: Loaded, k: Below, s: I.State, env: Env, ops: seq<I.Value>, x: Variable)
    requires IsLoaded(m) && Stands(m, k, s, env, ops)
    requires s.ip + 4 < |m.c.img.code| && Int32At(m.c.img.code, s.ip) == x.index
    ensures s.sp <= I.MAX_STACK_SIZE
    ensures Becomes(m, k, I.ExecLda(m.c, s, x.place), s.ip + 4, ops, Addressed(k, env, x, I.MAX_STACK_SIZE - s.sp))
  {
    hide Int32At, FunIsLoaded, PartsStand, I.Locate, I.Push, Exists, I.FetchIndex, Address;
    var t := s.(ip := s.ip + 4);
    FetchIndexIs(m, s, x.place);
    LocateIs(m, k, t, env, ops, x);
    PushBecomes(m, k, t, env, ops, if Exists(env, x).Ok? then Address(k, env, x) else I.Null);
  }

  /** What is stored stays on top. */
  ghost function StoredIn(env: Env, x: Variable, v: I.Value): Result<Got> {
    var env :- Update(env, x, v);
    Ok(Got(v, env))
  }

  /** The store of v that has been popped, and v back. */
  lemma StorePushBecomes(m: Loaded, k: Below, s: I.State, env: Env, ops: seq<I.Value>, x: Variable, v: I.Value)
    requires m.c.checked && Stands(m, k, s, env, ops) && Update(env, x, v).Ok? && s.sp < I.MAX_STACK_SIZE
    ensures var r := I.Store(s, Address(k, env, x), v);
      r.Ok? && Becomes(m, k, I.Push(m.c, r.value, v), s.ip, ops, StoredIn(env, x, v))
  {
    hide PartsStand, I.Store, I.Push, Address;
    StoreIs(m, k, s, env, ops, x, v);
    PushBecomes(m, k, I.Store(s, Address(k, env, x), v).value, Update(env, x, v).value, ops, v);
  }

  lemma StBecomes(m: Loaded, k: Below, s: I.State, env: Env, ops: seq<I.Value>, x: Variable, v: I.Value)
    requires IsLoaded(m) && Stands(m, k, s, env, ops + [v])
    requires s.ip + 4 < |m.c.img.code| && Int32At(m.c.img.code, s.ip) == x.index
    ensures Becomes(m, k, I.ExecSt(m.c, s, x.place), s.ip + 4, ops, StoredIn(env, x, v))
  {
    hide Int32At, FunIsLoaded, PartsStand, I.Locate, I.Store, I.Push, Exists, I.FetchIndex, Address;
    OneLies(m, k, s, env, ops, v);
    var t := s.(ip := s.ip + 4, sp := s.sp - 1);
    DroppedStands(m, k, s, env, ops, [v]);
    FetchIndexIs(m, s.(sp := s.sp - 1), x.place);
    LocateIs(m, k, t, env, ops, x);
    if Update(env, x, v).Ok? { StorePushBecomes(m, k, t, env, ops, x, v); }
  }

  lemma VariableExecs(c: I.Context, s: I.State, place: Place)
    ensures I.Exec(c, s, Ld(place)) == I.ExecLd(c, s, place)
    ensures I.Exec(c, s, Lda(place)) == I.ExecLda(c, s, place)
    ensures I.Exec(c, s, St(place)) == I.ExecSt(c, s, place)
  {
    hide I.ExecLd, I.ExecLda, I.ExecSt;
  }

  lemma LoadDelivers(m: Loaded, k: Below, s: I.State, env: Env, ops: seq<I.Value>, x: Variable)
    returns (t: I.State)
    requires IsLoaded(m) && Stands(m, k, s, env, ops) && HasCode(m.c.img.code, s.ip, Load(x))
    ensures s.sp <= I.MAX_STACK_SIZE
    ensures Delivers(m, k, s, t, s.ip + 5, ops, LoadedFrom(env, x, I.MAX_STACK_SIZE - s.sp))
  {
    hide IsLoaded, I.Exec, OpOf, Becomes, Delivers, HasCode, Int32At, Code1, PartsStand, Lookup;
    HasCode1(m.c.img.code, s.ip, 0x20 + PlaceCode(x.place), x.index);
    PlaceOps(x.place);
    var u := s.(ip := s.ip + 1);
    VariableExecs(m.c, u, x.place);
    LdBecomes(m, k, u, env, ops, x);
    t := OneTurn(m, k, s, Ld(x.place), s.ip + 5, ops, LoadedFrom(env, x, I.MAX_STACK_SIZE - s.sp));
  }

  lemma AddressDelivers(m: Loaded, k: Below, s: I.State, env: Env, ops: seq<I.Value>, x: Variable)
    returns (t: I.State)
    requires IsLoaded(m) && Stands(m, k, s, env, ops) && HasCode(m.c.img.code, s.ip, LoadAddress(x))
    ensures s.sp <= I.MAX_STACK_SIZE
    ensures Delivers(m, k, s, t, s.ip + 5, ops, Addressed(k, env, x, I.MAX_STACK_SIZE - s.sp))
  {
    hide IsLoaded, I.Exec, OpOf, Becomes, Delivers, HasCode, Int32At, Code1, PartsStand, Exists, Address;
    HasCode1(m.c.img.code, s.ip, 0x30 + PlaceCode(x.place), x.index);
    PlaceOps(x.place);
    var u := s.(ip := s.ip + 1);
    VariableExecs(m.c, u, x.place);
    LdaBecomes(m, k, u, env, ops, x);
    t := OneTurn(m, k, s, Lda(x.place), s.ip + 5, ops, Addressed(k, env, x, I.MAX_STACK_SIZE - s.sp));
  }

  lemma StoreDelivers(m: Loaded, k: Below, s: I.State, env: Env, ops: seq<I.Value>, x: Variable, v: I.Value)
    returns (t: I.State)
    requires IsLoaded(m) && Stands(m, k, s, env, ops + [v]) && HasCode(m.c.img.code, s.ip, StoreCode(x))
    ensures Delivers(m, k, s, t, s.ip + 5, ops, StoredIn(env, x, v))
  {
    hide IsLoaded, I.Exec, OpOf, Becomes, Delivers, HasCode, Int32At, Code1, PartsStand, Update;
    HasCode1(m.c.img.code, s.ip, 0x40 + PlaceCode(x.place), x.index);
    PlaceOps(x.place);
    var u := s.(ip := s.ip + 1);
    VariableExecs(m.c, u, x.place);
    StBecomes(m, k, u, env, ops, x, v);
    t := OneTurn(m, k, s, St(x.place), s.ip + 5, ops, StoredIn(env, x, v));
  }

  lemma UpdateExists(env: Env, x: Variable, v: I.Value)
    ensures Update(env, x, v).Ok? <==> Exists(env, x).Ok?
    ensures Exists(env, x).IsFailure() ==> Update(env, x, v) == Exists(env, x).PropagateFailure()
  {}

  /** STI: the address is on top. */
  lemma StiDelivers(m: Loaded, k: Below, s: I.State, env: Env, ops: seq<I.Value>, x: Variable, v: I.Value)
    returns (t: I.State)
    requires IsLoaded(m) && Update(env, x, v).Ok? && Stands(m, k, s, env, ops + [v, Address(k, env, x)])
    requires HasCode(m.c.img.code, s.ip, [0x13])
    ensures Delivers(m, k, s, t, s.ip + 1, ops, StoredIn(env, x, v))
  {
    hide FunIsLoaded, OpOf, Becomes, Delivers, HasCode, PartsStand, Update, Address, I.Store, I.Push;
    HasByte(m.c.img.code, s.ip, 0x13);
    UpdateExists(env, x, v);
    TwoLie(m, k, s, env, ops, v, Address(k, env, x));
    DroppedStands(m, k, s, env, ops, [v, Address(k, env, x)]);
    StorePushBecomes(m, k, s.(ip := s.ip + 1, sp := s.sp - 2), env, ops, x, v);
    AddressIsNoNumber(k, env, x);
    StiOp();
    t := OneTurn(m, k, s, Sti, s.ip + 1, ops, StoredIn(env, x, v));
  }

  /** STA with an address below the value. */
  lemma StaDelivers(m: Loaded, k: Below, s: I.State, env: Env, ops: seq<I.Value>, x: Variable, v: I.Value)
    returns (t: I.State)
    requires IsLoaded(m) && Update(env, x, v).Ok? && Stands(m, k, s, env, ops + [Address(k, env, x), v])
    requires HasCode(m.c.img.code, s.ip, [0x14])
    ensures Delivers(m, k, s, t, s.ip + 1, ops, StoredIn(env, x, v))
  {
    hide FunIsLoaded, OpOf, Becomes, Delivers, HasCode, PartsStand, Update, Address, I.Store, I.Push;
    HasByte(m.c.img.code, s.ip, 0x14);
    UpdateExists(env, x, v);
    TwoLie(m, k, s, env, ops, Address(k, env, x), v);
    DroppedStands(m, k, s, env, ops, [Address(k, env, x), v]);
    StorePushBecomes(m, k, s.(ip := s.ip + 1, sp := s.sp - 2), env, ops, x, v);
    AddressIsNoNumber(k, env, x);
    StiOp();
    t := OneTurn(m, k, s, Sta, s.ip + 1, ops, StoredIn(env, x, v));
  }

  lemma StiOp()
    ensures OpOf(0x13) == Sti && OpOf(0x14) == Sta
  {}

  lemma AddressIsNoNumber(k: Below, env: Env, x: Variable)
    requires Exists(env, x).Ok?
    ensures !Address(k, env, x).Int?
  {}

  /** LDA, then STI. */
  lemma AssignThroughDelivers(m: Loaded, k: Below, s: I.State, env: Env, ops: seq<I.Value>, x: Variable, v: I.Value)
    returns (t: I.State)
    requires IsLoaded(m) && Stands(m, k, s, env, ops + [v])
    requires HasCode(m.c.img.code, s.ip, LoadAddress(x) + [0x13])
    ensures s.sp <= I.MAX_STACK_SIZE
    ensures Delivers(m, k, s, t, s.ip + 6, ops, EvalUnary(m.p, AssignThrough(x), v, env, I.MAX_STACK_SIZE - s.sp + 1))
  {
    hide IsLoaded, Leads, Ends, HasCode, PartsStand, Update, Address, R.Bytes32, Exists;
    HasBoth(m.c.img.code, s.ip, LoadAddress(x), [0x13]);
    var u := AddressDelivers(m, k, s, env, ops + [v], x);
    UpdateExists(env, x, v);
    t := u;
    if Update(env, x, v).Ok? && I.MAX_STACK_SIZE > s.sp {
      assert ops + [v] + [Address(k, env, x)] == ops + [v, Address(k, env, x)];
      t := StiDelivers(m, k, u, env, ops, x, v);
      DeliversAfter(m, k, s, u, t, s.ip + 6, ops, StoredIn(env, x, v));
    }
  }

  // One operand

  lemma ExecLengthIs(m: Loaded, s: I.State, ideal: seq<I.Object>)
    requires m.c.checked && 1 <= s.sp <= |s.buf| == I.MAX_STACK_SIZE && HeapStands(m.layout, s.heap, ideal)
    ensures Meets(I.ExecLlength(m.c, s), Placed(s, 1, LengthValue(ideal, s.buf[s.sp - 1])))
  {
    hide I32, Wrap, HeapStands, I.Aggregate;
    var x := s.buf[s.sp - 1];
    AggregateIs(m.layout, s.(sp := s.sp - 1), ideal, x);
    if ObjectOf(ideal, x).Ok? {
      LengthIsSize(ObjectOf(ideal, x).value);
      WrapIsI32(LengthOf(ObjectOf(ideal, x).value));
    }
  }

  ghost function LengthValue(heap: seq<I.Object>, v: I.Value): Result<I.Value> {
    var o :- ObjectOf(heap, v);
    Ok(I.Int(Wrap(LengthOf(o))))
  }

  ghost function TruthValue(r: Result<bool>): Result<I.Value> {
    var b :- r;
    Ok(I.Int(Truth(b)))
  }

  lemma ExecPattIs(m: Loaded, s: I.State, ideal: seq<I.Object>, kind: Kind)
    requires m.c.checked && 1 <= s.sp <= |s.buf| == I.MAX_STACK_SIZE && HeapStands(m.layout, s.heap, ideal)
    ensures Meets(I.ExecPatt(m.c, s, kind), Placed(s, 1, TruthValue(IsOf(ideal, s.buf[s.sp - 1], kind))))
  {
    hide HeapStands, I.Is, IsOf;
    IsIs(m.layout, s.(sp := s.sp - 1), ideal, s.buf[s.sp - 1], kind);
  }

  lemma ExecArrayIs(m: Loaded, s: I.State, ideal: seq<I.Object>, size: int)
    requires IsLoaded(m) && 1 <= s.sp <= |s.buf| == I.MAX_STACK_SIZE && HeapStands(m.layout, s.heap, ideal)
    requires s.ip + 4 < |m.c.img.code| && Int32At(m.c.img.code, s.ip) == size
    ensures Meets(I.ExecArrayPatt(m.c, s),
      Placed(s.(ip := s.ip + 4), 1, TruthValue(IsArrayOf(ideal, s.buf[s.sp - 1], size))))
  {
    hide HeapStands, FunIsLoaded, Int32At, I.FetchInt;
    F.Fetched(m.c, s);
    IsIs(m.layout, s.(ip := s.ip + 4, sp := s.sp - 1), ideal, s.buf[s.sp - 1], AnArray);
    var x := s.buf[s.sp - 1];
    if x.Obj? && x.id < |ideal| { LengthOfHeap(m.layout, s.heap, ideal, x.id); }
  }

  lemma LengthOfHeap(layout: Layout, heap: seq<I.Object>, ideal: seq<I.Object>, id: nat)
    requires HeapStands(layout, heap, ideal) && id < |ideal|
    ensures |heap| == |ideal| && (heap[id].Closure? <==> ideal[id].Closure?)
    ensures !ideal[id].Closure? ==> heap[id] == ideal[id]
  {
    ObjectIs(layout, heap, ideal, id);
  }

  lemma TextsAre(m: Loaded, pos: int)
    requires IsLoaded(m)
    ensures TextAt(m.p, pos).Ok? ==> 0 <= pos < |m.c.img.strings| && I.StringAt(m.c, pos) == Ok(TextAt(m.p, pos).value)
    ensures !TextAt(m.p, pos).Ok? ==> !(0 <= pos < |m.c.img.strings|) && TextAt(m.p, pos) == Fails(Invalid)
  {
    hide FunIsLoaded, W.CString;
  }

  lemma ExecTagIs(m: Loaded, s: I.State, ideal: seq<I.Object>, tag: int, size: int)
    requires IsLoaded(m) && 1 <= s.sp <= |s.buf| == I.MAX_STACK_SIZE && HeapStands(m.layout, s.heap, ideal)
    requires s.ip + 8 < |m.c.img.code|
    requires Int32At(m.c.img.code, s.ip) == tag && Int32At(m.c.img.code, s.ip + 4) == size
    ensures Meets(I.ExecTag(m.c, s),
      Placed(s.(ip := s.ip + 8), 1, TruthValue(IsSexpOf(m.p, ideal, s.buf[s.sp - 1], tag, size))))
  {
    hide HeapStands, FunIsLoaded, Int32At, I.FetchInt, TextAt, I.StringAt, I.Is;
    F.Fetched(m.c, s);
    F.Fetched(m.c, s.(ip := s.ip + 4));
    TextsAre(m, tag);
    IsIs(m.layout, s.(ip := s.ip + 8, sp := s.sp - 1), ideal, s.buf[s.sp - 1], ASexp);
    var x := s.buf[s.sp - 1];
    if x.Obj? && x.id < |ideal| { LengthOfHeap(m.layout, s.heap, ideal, x.id); }
  }

  /** One value in the place of the last one, by an instruction with operands in the code. */
  lemma OnTop(m: Loaded, k: Below, s: I.State, env: Env, ops: seq<I.Value>, v: I.Value, op: Op,
      at: nat, r: Result<I.Value>)
    returns (t: I.State)
    requires IsLoaded(m) && Stands(m, k, s, env, ops + [v]) && 0 < s.sp <= |s.buf|
    requires s.ip + 1 < |m.c.img.code| && OpOf(m.c.img.code[s.ip]) == op && !op.Ret? && !op.Stop?
    requires Meets(I.Exec(m.c, s.(ip := s.ip + 1), op), Placed(s.(ip := at), 1, r))
    ensures Delivers(m, k, s, t, at, ops, Valued(r, env))
  {
    hide IsLoaded, I.Exec, OpOf, PartsStand, Delivers, Turns;
    OneLies(m, k, s, env, ops, v);
    PlacedBecomes(m, k, s.(ip := at), env, ops, [v], r);
    t := OneTurn(m, k, s, op, at, ops, Valued(r, env));
  }

  lemma LengthDelivers(m: Loaded, k: Below, s: I.State, env: Env, ops: seq<I.Value>, v: I.Value)
    returns (t: I.State)
    requires IsLoaded(m) && Stands(m, k, s, env, ops + [v]) && HasCode(m.c.img.code, s.ip, [0x72])
    ensures Delivers(m, k, s, t, s.ip + 1, ops, Valued(LengthValue(env.heap, v), env))
  {
    hide FunIsLoaded, PartsStand, Delivers, HasCode, HeapStands, LengthValue, Int32At, OpOf, I.ExecLlength;
    HasByte(m.c.img.code, s.ip, 0x72);
    OneLies(m, k, s, env, ops, v);
    HeapOf(m, k, s, env, ops + [v]);
    LookOps();
    ExecLengthIs(m, s.(ip := s.ip + 1), env.heap);
    t := OnTop(m, k, s, env, ops, v, Llength, s.ip + 1, LengthValue(env.heap, v));
  }

  lemma IsDelivers(m: Loaded, k: Below, s: I.State, env: Env, ops: seq<I.Value>, v: I.Value, kind: Kind)
    returns (t: I.State)
    requires IsLoaded(m) && Stands(m, k, s, env, ops + [v]) && HasCode(m.c.img.code, s.ip, [KindCode(kind)])
    ensures Delivers(m, k, s, t, s.ip + 1, ops, Valued(TruthValue(IsOf(env.heap, v, kind)), env))
  {
    hide FunIsLoaded, PartsStand, Delivers, HasCode, HeapStands, TruthValue, IsOf, Int32At, OpOf, I.ExecPatt;
    HasByte(m.c.img.code, s.ip, KindCode(kind));
    OneLies(m, k, s, env, ops, v);
    HeapOf(m, k, s, env, ops + [v]);
    LookOps();
    ExecPattIs(m, s.(ip := s.ip + 1), env.heap, kind);
    t := OnTop(m, k, s, env, ops, v, Patt(kind), s.ip + 1, TruthValue(IsOf(env.heap, v, kind)));
  }

  lemma IsArrayDelivers(m: Loaded, k: Below, s: I.State, env: Env, ops: seq<I.Value>, v: I.Value, size: Int32)
    returns (t: I.State)
    requires IsLoaded(m) && Stands(m, k, s, env, ops + [v]) && HasCode(m.c.img.code, s.ip, Code1(0x58, size))
    ensures Delivers(m, k, s, t, s.ip + 5, ops, Valued(TruthValue(IsArrayOf(env.heap, v, size)), env))
  {
    hide FunIsLoaded, PartsStand, Delivers, HasCode, HeapStands, TruthValue, IsArrayOf, Int32At, OpOf, I.ExecArrayPatt;
    HasCode1(m.c.img.code, s.ip, 0x58, size);
    OneLies(m, k, s, env, ops, v);
    HeapOf(m, k, s, env, ops + [v]);
    LookOps();
    ExecArrayIs(m, s.(ip := s.ip + 1), env.heap, size);
    t := OnTop(m, k, s, env, ops, v, ArrayPatt, s.ip + 5, TruthValue(IsArrayOf(env.heap, v, size)));
  }

  lemma IsSexpDelivers(m: Loaded, k: Below, s: I.State, env: Env, ops: seq<I.Value>, v: I.Value,
      tag: Int32, size: Int32)
    returns (t: I.State)
    requires IsLoaded(m) && Stands(m, k, s, env, ops + [v]) && HasCode(m.c.img.code, s.ip, Code2(0x57, tag, size))
    ensures Delivers(m, k, s, t, s.ip + 9, ops, Valued(TruthValue(IsSexpOf(m.p, env.heap, v, tag, size)), env))
  {
    hide FunIsLoaded, PartsStand, Delivers, HasCode, HeapStands, TruthValue, IsSexpOf, Int32At, OpOf, I.ExecTag;
    HasCode2(m.c.img.code, s.ip, 0x57, tag, size);
    OneLies(m, k, s, env, ops, v);
    HeapOf(m, k, s, env, ops + [v]);
    LookOps();
    ExecTagIs(m, s.(ip := s.ip + 1), env.heap, tag, size);
    t := OnTop(m, k, s, env, ops, v, Tag, s.ip + 9, TruthValue(IsSexpOf(m.p, env.heap, v, tag, size)));
  }

  lemma LookOps()
    ensures OpOf(0x72) == Llength && OpOf(0x58) == ArrayPatt && OpOf(0x57) == Tag
    ensures forall kind :: OpOf(KindCode(kind)) == Patt(kind)
  {}

  lemma DupBecomes(m: Loaded, k: Below, s: I.State, env: Env, ops: seq<I.Value>, v: I.Value)
    requires IsLoaded(m) && Stands(m, k, s, env, ops + [v])
    ensures s.sp <= I.MAX_STACK_SIZE
    ensures Becomes(m, k, I.ExecDup(m.c, s), s.ip, ops + [v], Give(v, env, I.MAX_STACK_SIZE - s.sp))
  {
    hide FunIsLoaded, PartsStand, I.Push;
    OneLies(m, k, s, env, ops, v);
    PushBecomes(m, k, s, env, ops + [v], v);
  }

  lemma DupDelivers(m: Loaded, k: Below, s: I.State, env: Env, ops: seq<I.Value>, v: I.Value)
    returns (t: I.State)
    requires IsLoaded(m) && Stands(m, k, s, env, ops + [v]) && HasCode(m.c.img.code, s.ip, [0x19])
    ensures s.sp <= I.MAX_STACK_SIZE
    ensures Delivers(m, k, s, t, s.ip + 1, ops + [v], Give(v, env, I.MAX_STACK_SIZE - s.sp))
  {
    hide IsLoaded, PartsStand, Delivers, HasCode, OpOf, I.Exec, Becomes, I.ExecDup;
    HasByte(m.c.img.code, s.ip, 0x19);
    DupExec(m.c, s.(ip := s.ip + 1));
    DupBecomes(m, k, s.(ip := s.ip + 1), env, ops, v);
    t := OneTurn(m, k, s, Dup, s.ip + 1, ops + [v], Give(v, env, I.MAX_STACK_SIZE - s.sp));
  }

  /** DUP, then the operator. */
  lemma TwiceDelivers(m: Loaded, k: Below, s: I.State, env: Env, ops: seq<I.Value>, v: I.Value, op: Operator)
    returns (t: I.State)
    requires IsLoaded(m) && Stands(m, k, s, env, ops + [v]) && HasCode(m.c.img.code, s.ip, UnaryCode(Twice(op)))
    requires s.sp <= I.MAX_STACK_SIZE
    ensures Delivers(m, k, s, t, s.ip + 2, ops, EvalUnary(m.p, Twice(op), v, env, I.MAX_STACK_SIZE - s.sp + 1))
  {
    hide IsLoaded, PartsStand, Leads, Ends, HasCode, OperatorCode, CalculateValues;
    HasBoth(m.c.img.code, s.ip, [0x19], [OperatorCode(op)]);
    var u := DupDelivers(m, k, s, env, ops, v);
    t := u;
    if s.sp < I.MAX_STACK_SIZE {
      assert ops + [v] + [v] == ops + [v, v];
      t := BinopDelivers(m, k, u, env, ops, v, v, op);
      DeliversAfter(m, k, s, u, t, s.ip + 2, ops, Valued(CalculateValues(op, v, v), env));
    }
  }

  lemma DupExec(c: I.Context, s: I.State)
    ensures OpOf(0x19) == Dup
    ensures I.Exec(c, s, Dup) == I.ExecDup(c, s)
  {
    hide I.ExecDup;
  }

  lemma DropExec(c: I.Context, s: I.State)
    ensures OpOf(0x18) == Drop
    ensures I.Exec(c, s, Drop) == I.ExecDrop(c, s)
  {
    hide I.ExecDrop;
  }

  lemma LreadExec(c: I.Context, s: I.State)
    ensures OpOf(0x70) == Lread
    ensures I.Exec(c, s, Lread) == I.ExecLread(c, s)
  {
    hide I.ExecLread;
  }

  lemma LwriteExec(c: I.Context, s: I.State)
    ensures OpOf(0x71) == Lwrite
    ensures I.Exec(c, s, Lwrite) == I.ExecLwrite(c, s)
  {
    hide I.ExecLwrite;
  }

  lemma LstringExec(c: I.Context, s: I.State)
    ensures OpOf(0x73) == Lstring
    ensures I.Exec(c, s, Lstring) == I.ExecLstring(c, s)
  {
    hide I.ExecLstring;
  }

  lemma FailExec(c: I.Context, s: I.State)
    ensures OpOf(0x59) == Fail
    ensures I.Exec(c, s, Fail) == I.ExecFail(c, s)
  {
    hide I.ExecFail;
  }

  /** A new object in the place of n values, in a heap that stands for one with it. */
  lemma NewBecomes(m: Loaded, k: Below, s: I.State, env: Env, ops: seq<I.Value>, o: I.Object, q: I.Object)
    requires m.c.checked && Stands(m, k, s, env, ops) && ObjectStands(m.layout, o, q)
    ensures s.sp <= I.MAX_STACK_SIZE
    ensures var (t, v) := I.Alloc(s, o);
      Becomes(m, k, I.Push(m.c, t, v), s.ip, ops, GiveNew(q, env, I.MAX_STACK_SIZE - s.sp))
  {
    hide PartsStand, I.Push, ObjectStands, HeapStands;
    HeapOf(m, k, s, env, ops);
    NewStands(m.layout, s.heap, env.heap, o, q);
    var (t, v) := I.Alloc(s, o);
    var (w, env2) := New(env, q);
    WorldStands(m, k, s, t, env, env2, ops);
    PushBecomes(m, k, t, env2, ops, v);
  }

  lemma OutputBecomes(m: Loaded, k: Below, s: I.State, env: Env, ops: seq<I.Value>, v: I.Value)
    requires IsLoaded(m) && Stands(m, k, s, env, ops + [v])
    ensures s.sp <= I.MAX_STACK_SIZE
    ensures Becomes(m, k, I.ExecLwrite(m.c, s), s.ip, ops, EvalUnary(m.p, Output, v, env, I.MAX_STACK_SIZE - s.sp + 1))
  {
    hide PartsStand, I.Push, HeapStands;
    OneLies(m, k, s, env, ops, v);
    HeapOf(m, k, s, env, ops + [v]);
    DroppedStands(m, k, s, env, ops, [v]);
    var u := s.(sp := s.sp - 1);
    if v.Int? {
      var w, env2 := u.(output := u.output + [v.n]), env.(output := env.output + [v.n]);
      WorldStands(m, k, u, w, env, env2, ops);
      PushBecomes(m, k, w, env2, ops, I.Null);
    }
  }

  lemma OutputDelivers(m: Loaded, k: Below, s: I.State, env: Env, ops: seq<I.Value>, v: I.Value)
    returns (t: I.State)
    requires IsLoaded(m) && Stands(m, k, s, env, ops + [v]) && HasCode(m.c.img.code, s.ip, [0x71])
    ensures s.sp <= I.MAX_STACK_SIZE
    ensures Delivers(m, k, s, t, s.ip + 1, ops, EvalUnary(m.p, Output, v, env, I.MAX_STACK_SIZE - s.sp + 1))
  {
    hide IsLoaded, PartsStand, Delivers, HasCode, OpOf, I.Exec, EvalUnary, Becomes, I.ExecLwrite;
    HasByte(m.c.img.code, s.ip, 0x71);
    LwriteExec(m.c, s.(ip := s.ip + 1));
    OutputBecomes(m, k, s.(ip := s.ip + 1), env, ops, v);
    t := OneTurn(m, k, s, Lwrite, s.ip + 1, ops, EvalUnary(m.p, Output, v, env, I.MAX_STACK_SIZE - s.sp + 1));
  }

  lemma ShowBecomes(m: Loaded, k: Below, s: I.State, env: Env, ops: seq<I.Value>, v: I.Value)
    requires IsLoaded(m) && Stands(m, k, s, env, ops + [v])
    ensures s.sp <= I.MAX_STACK_SIZE
    ensures Becomes(m, k, I.ExecLstring(m.c, s), s.ip, ops, EvalUnary(m.p, Show, v, env, I.MAX_STACK_SIZE - s.sp + 1))
  {
    hide FunIsLoaded, PartsStand, I.Push, HeapStands, NoClosures;
    OneLies(m, k, s, env, ops, v);
    HeapOf(m, k, s, env, ops + [v]);
    DroppedStands(m, k, s, env, ops, [v]);
    if NoClosures(env.heap) {
      SameWithoutClosures(m.layout, s.heap, env.heap);
      var o := I.Text(m.p.lib.text(env.heap, v));
      NewBecomes(m, k, s.(sp := s.sp - 1), env, ops, o, o);
    }
  }

  lemma ShowDelivers(m: Loaded, k: Below, s: I.State, env: Env, ops: seq<I.Value>, v: I.Value)
    returns (t: I.State)
    requires IsLoaded(m) && Stands(m, k, s, env, ops + [v]) && HasCode(m.c.img.code, s.ip, [0x73])
    ensures s.sp <= I.MAX_STACK_SIZE
    ensures Delivers(m, k, s, t, s.ip + 1, ops, EvalUnary(m.p, Show, v, env, I.MAX_STACK_SIZE - s.sp + 1))
  {
    hide IsLoaded, PartsStand, Delivers, HasCode, OpOf, I.Exec, EvalUnary, Becomes, I.ExecLstring;
    HasByte(m.c.img.code, s.ip, 0x73);
    LstringExec(m.c, s.(ip := s.ip + 1));
    ShowBecomes(m, k, s.(ip := s.ip + 1), env, ops, v);
    t := OneTurn(m, k, s, Lstring, s.ip + 1, ops, EvalUnary(m.p, Show, v, env, I.MAX_STACK_SIZE - s.sp + 1));
  }

  lemma ExecFailIs(m: Loaded, s: I.State)
    requires IsLoaded(m) && s.ip + 8 < |m.c.img.code| && 0 < s.sp <= |s.buf|
    ensures I.ExecFail(m.c, s) == Fails(MatchFailure)
  {
    hide FunIsLoaded, I.FetchInt, Int32At;
    F.Fetched(m.c, s);
    F.Fetched(m.c, s.(ip := s.ip + 4));
  }

  lemma AbortDelivers(m: Loaded, k: Below, s: I.State, env: Env, ops: seq<I.Value>, v: I.Value, x: Int32, y: Int32)
    returns (t: I.State)
    requires IsLoaded(m) && Stands(m, k, s, env, ops + [v]) && HasCode(m.c.img.code, s.ip, Code2(0x59, x, y))
    ensures Delivers(m, k, s, t, s.ip + 9, ops, Fails(MatchFailure))
  {
    hide IsLoaded, PartsStand, Delivers, HasCode, OpOf, I.Exec, I.ExecFail, Int32At, Code2;
    HasCode2(m.c.img.code, s.ip, 0x59, x, y);
    OneLies(m, k, s, env, ops, v);
    FailExec(m.c, s.(ip := s.ip + 1));
    ExecFailIs(m, s.(ip := s.ip + 1));
    t := OneTurn(m, k, s, Fail, s.ip + 9, ops, Fails(MatchFailure));
  }

  /** One operand becomes another, whatever it does to variables, heap and output. */
  lemma UnaryDelivers(m: Loaded, k: Below, s: I.State, env: Env, ops: seq<I.Value>, v: I.Value, u: Unary)
    returns (t: I.State)
    requires IsLoaded(m) && Stands(m, k, s, env, ops + [v]) && HasCode(m.c.img.code, s.ip, UnaryCode(u))
    ensures s.sp <= I.MAX_STACK_SIZE
    ensures Delivers(m, k, s, t, s.ip + |UnaryCode(u)|, ops, EvalUnary(m.p, u, v, env, I.MAX_STACK_SIZE - s.sp + 1))
  {
    hide IsLoaded, PartsStand, Delivers, HasCode, R.Bytes32, Update, CalculateValues, OperatorCode, NoClosures, IsOf,
      IsArrayOf, IsSexpOf, ObjectOf;
    OneLies(m, k, s, env, ops, v);
    match u
    case Assign(x) => t := StoreDelivers(m, k, s, env, ops, x, v);
    case AssignThrough(x) => t := AssignThroughDelivers(m, k, s, env, ops, x, v);
    case Twice(operator) => t := TwiceDelivers(m, k, s, env, ops, v, operator);
    case Output => t := OutputDelivers(m, k, s, env, ops, v);
    case Show => t := ShowDelivers(m, k, s, env, ops, v);
    case Abort(line, column) => t := AbortDelivers(m, k, s, env, ops, v, line, column);
    case Length => t := LengthDelivers(m, k, s, env, ops, v);
    case Is(kind) => t := IsDelivers(m, k, s, env, ops, v, kind);
    case IsArray(size) => t := IsArrayDelivers(m, k, s, env, ops, v, size);
    case IsSexp(tag, size) => t := IsSexpDelivers(m, k, s, env, ops, v, tag, size);
  }

  // Values from the code and the input

  lemma ConstExec(c: I.Context, s: I.State)
    ensures OpOf(0x10) == Const
    ensures I.Exec(c, s, Const) == I.ExecConst(c, s)
  {
    hide I.ExecConst;
  }

  lemma StrExec(c: I.Context, s: I.State)
    ensures OpOf(0x11) == Str
    ensures I.Exec(c, s, Str) == I.ExecString(c, s)
  {
    hide I.ExecString;
  }

  lemma MakeSexpExec(c: I.Context, s: I.State)
    ensures OpOf(0x12) == MakeSexp
    ensures I.Exec(c, s, MakeSexp) == I.ExecSexp(c, s)
  {
    hide I.ExecSexp;
  }

  lemma BarrayExec(c: I.Context, s: I.State)
    ensures OpOf(0x74) == Barray
    ensures I.Exec(c, s, Barray) == I.ExecBarray(c, s)
  {
    hide I.ExecBarray;
  }

  lemma MakeClosureExec(c: I.Context, s: I.State)
    ensures I.Exec(c, s, MakeClosure) == I.ExecClosure(c, s)
  {
    hide I.ExecClosure;
  }

  lemma StaExec(c: I.Context, s: I.State)
    ensures I.Exec(c, s, Sta) == I.ExecSta(c, s)
  {
    hide I.ExecSta;
  }

  lemma ConstBecomes(m: Loaded, k: Below, s: I.State, env: Env, ops: seq<I.Value>, n: Int32)
    requires IsLoaded(m) && Stands(m, k, s, env, ops)
    requires s.ip + 4 < |m.c.img.code| && Int32At(m.c.img.code, s.ip) == n
    ensures s.sp <= I.MAX_STACK_SIZE
    ensures Becomes(m, k, I.ExecConst(m.c, s), s.ip + 4, ops, Give(I.Int(n), env, I.MAX_STACK_SIZE - s.sp))
  {
    hide FunIsLoaded, PartsStand, I.Push, I.FetchInt, Int32At;
    F.Fetched(m.c, s);
    PushBecomes(m, k, s.(ip := s.ip + 4), env, ops, I.Int(n));
  }

  lemma ConstDelivers(m: Loaded, k: Below, s: I.State, env: Env, ops: seq<I.Value>, n: Int32)
    returns (t: I.State)
    requires IsLoaded(m) && Stands(m, k, s, env, ops) && HasCode(m.c.img.code, s.ip, Code1(0x10, n))
    ensures s.sp <= I.MAX_STACK_SIZE
    ensures Delivers(m, k, s, t, s.ip + 5, ops, Give(I.Int(n), env, I.MAX_STACK_SIZE - s.sp))
  {
    hide IsLoaded, PartsStand, Delivers, HasCode, OpOf, I.Exec, Becomes, I.ExecConst, Int32At, Code1;
    HasCode1(m.c.img.code, s.ip, 0x10, n);
    ConstExec(m.c, s.(ip := s.ip + 1));
    ConstBecomes(m, k, s.(ip := s.ip + 1), env, ops, n);
    t := OneTurn(m, k, s, Const, s.ip + 5, ops, Give(I.Int(n), env, I.MAX_STACK_SIZE - s.sp));
  }

  lemma StringBecomes(m: Loaded, k: Below, s: I.State, env: Env, ops: seq<I.Value>, pos: Int32)
    requires IsLoaded(m) && Stands(m, k, s, env, ops)
    requires s.ip + 4 < |m.c.img.code| && Int32At(m.c.img.code, s.ip) == pos
    ensures s.sp <= I.MAX_STACK_SIZE
    ensures Becomes(m, k, I.ExecString(m.c, s), s.ip + 4, ops,
      EvalLeaf(m.p, Literal(pos), env, I.MAX_STACK_SIZE - s.sp))
  {
    hide FunIsLoaded, PartsStand, I.Push, I.FetchInt, Int32At, I.StringAt, TextAt;
    F.Fetched(m.c, s);
    TextsAre(m, pos);
    var o := I.Text(if TextAt(m.p, pos).Ok? then TextAt(m.p, pos).value else "");
    NewBecomes(m, k, s.(ip := s.ip + 4), env, ops, o, o);
  }

  lemma StringDelivers(m: Loaded, k: Below, s: I.State, env: Env, ops: seq<I.Value>, pos: Int32)
    returns (t: I.State)
    requires IsLoaded(m) && Stands(m, k, s, env, ops) && HasCode(m.c.img.code, s.ip, Code1(0x11, pos))
    ensures s.sp <= I.MAX_STACK_SIZE
    ensures Delivers(m, k, s, t, s.ip + 5, ops, EvalLeaf(m.p, Literal(pos), env, I.MAX_STACK_SIZE - s.sp))
  {
    hide IsLoaded, PartsStand, Delivers, HasCode, OpOf, I.Exec, Becomes, I.ExecString, Int32At, Code1, EvalLeaf;
    HasCode1(m.c.img.code, s.ip, 0x11, pos);
    StrExec(m.c, s.(ip := s.ip + 1));
    StringBecomes(m, k, s.(ip := s.ip + 1), env, ops, pos);
    t := OneTurn(m, k, s, Str, s.ip + 5, ops, EvalLeaf(m.p, Literal(pos), env, I.MAX_STACK_SIZE - s.sp));
  }

  lemma ReadBecomes(m: Loaded, k: Below, s: I.State, env: Env, ops: seq<I.Value>)
    requires IsLoaded(m) && Stands(m, k, s, env, ops)
    ensures s.sp <= I.MAX_STACK_SIZE
    ensures Becomes(m, k, I.ExecLread(m.c, s), s.ip, ops, EvalLeaf(m.p, Input, env, I.MAX_STACK_SIZE - s.sp))
  {
    hide FunIsLoaded, PartsStand, I.Push, HeapStands;
    HeapOf(m, k, s, env, ops);
    if s.input == [] {
      PushBecomes(m, k, s, env, ops, I.Int(1));
    } else {
      var t, env2 := s.(input := s.input[1..]), env.(input := env.input[1..]);
      WorldStands(m, k, s, t, env, env2, ops);
      PushBecomes(m, k, t, env2, ops, I.Int(s.input[0]));
    }
  }

  lemma ReadDelivers(m: Loaded, k: Below, s: I.State, env: Env, ops: seq<I.Value>)
    returns (t: I.State)
    requires IsLoaded(m) && Stands(m, k, s, env, ops) && HasCode(m.c.img.code, s.ip, [0x70])
    ensures s.sp <= I.MAX_STACK_SIZE
    ensures Delivers(m, k, s, t, s.ip + 1, ops, EvalLeaf(m.p, Input, env, I.MAX_STACK_SIZE - s.sp))
  {
    hide IsLoaded, PartsStand, Delivers, HasCode, OpOf, I.Exec, Becomes, I.ExecLread, EvalLeaf;
    HasByte(m.c.img.code, s.ip, 0x70);
    LreadExec(m.c, s.(ip := s.ip + 1));
    ReadBecomes(m, k, s.(ip := s.ip + 1), env, ops);
    t := OneTurn(m, k, s, Lread, s.ip + 1, ops, EvalLeaf(m.p, Input, env, I.MAX_STACK_SIZE - s.sp));
  }

  // Arrays and S-expressions

  /** The values on top, in their order. */
  lemma TopIs(m: Loaded, k: Below, s: I.State, env: Env, ops: seq<I.Value>, vs: seq<I.Value>)
    requires Stands(m, k, s, env, ops + vs)
    ensures |vs| <= s.sp <= I.MAX_STACK_SIZE == |s.buf| && s.buf[s.sp - |vs|..s.sp] == vs
  {
    hide PartsStand;
    OperandsLie(m, k, s, env, ops, vs);
    forall i | 0 <= i < |vs| ensures s.buf[s.sp - |vs|..s.sp][i] == vs[i] {
      assert s.buf[s.sp - |vs| + i] == vs[i];
    }
  }

  lemma BarrayBecomes(m: Loaded, k: Below, s: I.State, env: Env, ops: seq<I.Value>, vs: seq<I.Value>, e: Expr)
    requires e.List? && IsLoaded(m) && Stands(m, k, s, env, ops + vs)
    requires s.ip + 4 < |m.c.img.code| && Int32At(m.c.img.code, s.ip) == |vs|
    ensures |vs| <= s.sp <= I.MAX_STACK_SIZE
    ensures Becomes(m, k, I.ExecBarray(m.c, s), s.ip + 4, ops,
      Collect(m.p, e, vs, env, I.MAX_STACK_SIZE - s.sp + |vs|))
  {
    hide FunIsLoaded, PartsStand, I.Push, I.FetchInt, Int32At;
    F.Fetched(m.c, s);
    TopIs(m, k, s, env, ops, vs);
    DroppedStands(m, k, s, env, ops, vs);
    NewBecomes(m, k, s.(ip := s.ip + 4, sp := s.sp - |vs|), env, ops, I.Array(vs), I.Array(vs));
  }

  lemma BarrayDelivers(m: Loaded, k: Below, s: I.State, env: Env, ops: seq<I.Value>, vs: seq<I.Value>, e: Expr)
    returns (t: I.State)
    requires e.List? && IsLoaded(m) && Stands(m, k, s, env, ops + vs) && |vs| < 0x8000_0000
    requires HasCode(m.c.img.code, s.ip, Code1(0x74, |vs|))
    ensures |vs| <= s.sp <= I.MAX_STACK_SIZE
    ensures Delivers(m, k, s, t, s.ip + 5, ops, Collect(m.p, e, vs, env, I.MAX_STACK_SIZE - s.sp + |vs|))
  {
    hide IsLoaded, PartsStand, Delivers, HasCode, OpOf, I.Exec, Becomes, I.ExecBarray, Int32At, Code1, Collect;
    HasCode1(m.c.img.code, s.ip, 0x74, |vs|);
    BarrayExec(m.c, s.(ip := s.ip + 1));
    BarrayBecomes(m, k, s.(ip := s.ip + 1), env, ops, vs, e);
    t := OneTurn(m, k, s, Barray, s.ip + 5, ops, Collect(m.p, e, vs, env, I.MAX_STACK_SIZE - s.sp + |vs|));
  }

  /** The hash of the tag is left above the stack. */
  lemma MarkedStands(m: Loaded, k: Below, s: I.State, env: Env, ops: seq<I.Value>, v: I.Value)
    requires Stands(m, k, s, env, ops) && s.sp < |s.buf|
    ensures Stands(m, k, s.(buf := s.buf[s.sp := v]), env, ops)
  {
    hide HeapStands;
  }

  lemma SexpBecomes(m: Loaded, k: Below, s: I.State, env: Env, ops: seq<I.Value>, vs: seq<I.Value>, e: Expr)
    requires e.Construct? && IsLoaded(m) && Stands(m, k, s, env, ops + vs)
    requires s.ip + 8 < |m.c.img.code|
    requires Int32At(m.c.img.code, s.ip) == e.tag && Int32At(m.c.img.code, s.ip + 4) == |vs|
    ensures |vs| <= s.sp <= I.MAX_STACK_SIZE
    ensures Becomes(m, k, I.ExecSexp(m.c, s), s.ip + 8, ops,
      Collect(m.p, e, vs, env, I.MAX_STACK_SIZE - s.sp + |vs|))
  {
    hide FunIsLoaded, PartsStand, I.Push, I.FetchInt, Int32At, I.MakeSexp, TextAt, I.StringAt;
    F.Fetched(m.c, s);
    F.Fetched(m.c, s.(ip := s.ip + 4));
    TextsAre(m, e.tag);
    TopIs(m, k, s, env, ops, vs);
    if TagAt(m.p, e.tag).Ok? && s.sp < I.MAX_STACK_SIZE {
      MakeSexpBecomes(m, k, s.(ip := s.ip + 8), env, ops, vs, TagAt(m.p, e.tag).value);
    }
  }

  lemma MakeSexpBecomes(
      m: Loaded, k: Below, s: I.State, env: Env, ops: seq<I.Value>, vs: seq<I.Value>, h: int)
    requires IsLoaded(m) && Stands(m, k, s, env, ops + vs) && s.sp < I.MAX_STACK_SIZE
    ensures |vs| <= s.sp
    ensures if |vs| > W.MAX_EXTRA_ROOTS_NUMBER then I.MakeSexp(m.c, s, h, |vs|) == Fails(RuntimeLimit)
      else Becomes(m, k, I.MakeSexp(m.c, s, h, |vs|), s.ip, ops,
        GiveNew(I.Sexp(h, vs), env, I.MAX_STACK_SIZE - s.sp + |vs|))
  {
    hide FunIsLoaded, PartsStand, I.Push;
    TopIs(m, k, s, env, ops, vs);
    MarkedStands(m, k, s, env, ops + vs, I.Int(h));
    var t := s.(buf := s.buf[s.sp := I.Int(h)]);
    TopIs(m, k, t, env, ops, vs);
    DroppedStands(m, k, t, env, ops, vs);
    NewBecomes(m, k, t.(sp := s.sp - |vs|), env, ops, I.Sexp(h, vs), I.Sexp(h, vs));
  }

  lemma SexpDelivers(m: Loaded, k: Below, s: I.State, env: Env, ops: seq<I.Value>, vs: seq<I.Value>, e: Expr)
    returns (t: I.State)
    requires e.Construct? && IsLoaded(m) && Stands(m, k, s, env, ops + vs) && |vs| < 0x8000_0000
    requires HasCode(m.c.img.code, s.ip, Code2(0x12, e.tag, |vs|))
    ensures |vs| <= s.sp <= I.MAX_STACK_SIZE
    ensures Delivers(m, k, s, t, s.ip + 9, ops, Collect(m.p, e, vs, env, I.MAX_STACK_SIZE - s.sp + |vs|))
  {
    hide IsLoaded, PartsStand, Delivers, HasCode, OpOf, I.Exec, Becomes, I.ExecSexp, Int32At, Code2, Collect;
    HasCode2(m.c.img.code, s.ip, 0x12, e.tag, |vs|);
    MakeSexpExec(m.c, s.(ip := s.ip + 1));
    SexpBecomes(m, k, s.(ip := s.ip + 1), env, ops, vs, e);
    t := OneTurn(m, k, s, MakeSexp, s.ip + 9, ops, Collect(m.p, e, vs, env, I.MAX_STACK_SIZE - s.sp + |vs|));
  }

  // A store into an object

  ghost function PutIn(env: Env, x: I.Value, y: I.Value, v: I.Value): Result<Got> {
    var heap :- PutAt(env.heap, x, y, v);
    Ok(Got(v, env.(heap := heap)))
  }

  /** The element is set in both heaps. */
  lemma SetStands(layout: Layout, s: I.State, ideal: seq<I.Object>, x: I.Value, y: I.Value, v: I.Value)
    requires HeapStands(layout, s.heap, ideal) && PutAt(ideal, x, y, v).Ok?
    ensures x.Obj? && x.id < |s.heap| && !s.heap[x.id].Closure? && y.Int? && 0 <= I32(y.n) < I.Size(s.heap[x.id])
    ensures var r := I.SetElement(s, x.id, I32(y.n), v);
      && r.Ok? && r.value == s.(heap := r.value.heap)
      && HeapStands(layout, r.value.heap, PutAt(ideal, x, y, v).value)
  {
    hide HeapStands, I32, Wrap;
    WrapIsI32(y.n);
    LengthOfHeap(layout, s.heap, ideal, x.id);
    LengthIsSize(ideal[x.id]);
    var o := PutAt(ideal, x, y, v).value[x.id];
    ChangedStands(layout, s.heap, ideal, x.id, o, o);
  }

  lemma ThreeLie(m: Loaded, k: Below, s: I.State, env: Env, ops: seq<I.Value>, x: I.Value, y: I.Value, v: I.Value)
    requires Stands(m, k, s, env, ops + [x, y, v])
    ensures 3 <= s.sp <= I.MAX_STACK_SIZE == |s.buf|
    ensures s.buf[s.sp - 3] == x && s.buf[s.sp - 2] == y && s.buf[s.sp - 1] == v
  {
    hide PartsStand;
    OperandsLie(m, k, s, env, ops, [x, y, v]);
    var xs := [x, y, v];
    assert s.buf[s.sp - 3 + 0] == xs[0] && s.buf[s.sp - 3 + 1] == xs[1] && s.buf[s.sp - 3 + 2] == xs[2];
  }

  lemma PutBecomes(m: Loaded, k: Below, s: I.State, env: Env, ops: seq<I.Value>, x: I.Value, y: I.Value, v: I.Value)
    requires IsLoaded(m) && Stands(m, k, s, env, ops + [x, y, v])
    ensures Becomes(m, k, I.ExecSta(m.c, s), s.ip, ops, PutIn(env, x, y, v))
  {
    hide FunIsLoaded, PartsStand, I.Push, HeapStands, I.Aggregate, I.SetElement, I32, Wrap, ObjectOf;
    ThreeLie(m, k, s, env, ops, x, y, v);
    HeapOf(m, k, s, env, ops + [x, y, v]);
    DroppedStands(m, k, s, env, ops, [x, y, v]);
    var t := s.(sp := s.sp - 3);
    AggregateIs(m.layout, t, env.heap, x);
    if y.Int? && ObjectOf(env.heap, x).Ok? {
      LengthIsSize(ObjectOf(env.heap, x).value);
      WrapIsI32(y.n);
    }
    if PutAt(env.heap, x, y, v).Ok? {
      SetStands(m.layout, t, env.heap, x, y, v);
      var u, env2 := I.SetElement(t, x.id, I32(y.n), v).value, env.(heap := PutAt(env.heap, x, y, v).value);
      WorldStands(m, k, t, u, env, env2, ops);
      PushBecomes(m, k, u, env2, ops, v);
    }
  }

  lemma PutDelivers(m: Loaded, k: Below, s: I.State, env: Env, ops: seq<I.Value>, x: I.Value, y: I.Value, v: I.Value)
    returns (t: I.State)
    requires IsLoaded(m) && Stands(m, k, s, env, ops + [x, y, v]) && HasCode(m.c.img.code, s.ip, [0x14])
    ensures Delivers(m, k, s, t, s.ip + 1, ops, PutIn(env, x, y, v))
  {
    hide IsLoaded, PartsStand, Delivers, HasCode, OpOf, I.Exec, Becomes, I.ExecSta, PutIn;
    HasByte(m.c.img.code, s.ip, 0x14);
    StiOp();
    StaExec(m.c, s.(ip := s.ip + 1));
    PutBecomes(m, k, s.(ip := s.ip + 1), env, ops, x, y, v);
    t := OneTurn(m, k, s, Sta, s.ip + 1, ops, PutIn(env, x, y, v));
  }

  // Going on without a value

  lemma JmpExec(c: I.Context, s: I.State)
    ensures I.Exec(c, s, Jmp) == I.ExecJmp(c, s)
  {
    hide I.ExecJmp;
  }

  lemma LineExec(c: I.Context, s: I.State)
    ensures OpOf(0x5A) == Line
    ensures I.Exec(c, s, Line) == I.ExecLine(c, s)
  {
    hide I.ExecLine;
  }

  lemma CjmpExec(c: I.Context, s: I.State, nz: bool)
    ensures I.Exec(c, s, Cjmp(nz)) == I.ExecCjmp(c, s, nz)
  {
    hide I.ExecCjmp;
  }

  lemma JumpOps()
    ensures OpOf(0x15) == Jmp && OpOf(0x50) == Cjmp(false) && OpOf(0x51) == Cjmp(true)
  {}

  /** A turn to t, or to a failure. */
  lemma TurnTo(m: Loaded, s: I.State, op: Op, r: Result<I.State>)
    requires IsLoaded(m) && s.ip + 1 < |m.c.img.code| && OpOf(m.c.img.code[s.ip]) == op && !op.Ret? && !op.Stop?
    requires I.Exec(m.c, s.(ip := s.ip + 1), op) == r
    ensures r.Ok? ==> Leads(m.c, s, r.value)
    ensures r.Fails? ==> Ends(m.c, s, r.reason)
  {
    hide IsLoaded, I.Exec, OpOf, Turns, Leads, Ends;
    Executes(m, s, op);
    TurnLeads(m.c, s, r);
  }

  lemma ExecJmpIs(m: Loaded, s: I.State, target: nat)
    requires IsLoaded(m) && s.ip + 4 < |m.c.img.code| && Int32At(m.c.img.code, s.ip) == target < |m.c.img.code|
    ensures I.ExecJmp(m.c, s) == Ok(s.(ip := target))
  {
    hide FunIsLoaded, I.FetchInt, Int32At, U32;
    F.Fetched(m.c, s);
    E.SmallU32(target);
  }

  lemma JumpLeads(m: Loaded, s: I.State, target: nat)
    requires IsLoaded(m) && target < |m.c.img.code| < 0x8000_0000 && HasCode(m.c.img.code, s.ip, Code1(0x15, target))
    ensures Leads(m.c, s, s.(ip := target))
  {
    hide IsLoaded, Leads, Ends, HasCode, OpOf, I.Exec, I.ExecJmp, Int32At, Code1;
    HasCode1(m.c.img.code, s.ip, 0x15, target);
    JumpOps();
    JmpExec(m.c, s.(ip := s.ip + 1));
    ExecJmpIs(m, s.(ip := s.ip + 1), target);
    TurnTo(m, s, Jmp, Ok(s.(ip := target)));
  }

  /** Where a conditional jump goes. */
  ghost function Branch(s: I.State, v: I.Value, nz: bool, target: nat): Result<I.State>
    requires s.sp > 0
  {
    if !v.Int? then Fails(Invalid)
    else Ok(s.(sp := s.sp - 1, ip := if (if nz then Wrap(v.n) == 1 else Wrap(v.n) == 0) then target else s.ip))
  }

  lemma ExecCjmpIs(m: Loaded, s: I.State, v: I.Value, nz: bool, target: nat)
    requires IsLoaded(m) && s.ip + 4 < |m.c.img.code| && Int32At(m.c.img.code, s.ip) == target < |m.c.img.code|
    requires 0 < s.sp <= |s.buf| && s.buf[s.sp - 1] == v
    ensures I.ExecCjmp(m.c, s, nz) == Branch(s.(ip := s.ip + 4), v, nz, target)
  {
    hide FunIsLoaded, I.FetchInt, Int32At, U32, I32, Wrap;
    F.Fetched(m.c, s);
    E.SmallU32(target);
    if v.Int? { WrapIsI32(v.n); }
  }

  /** CJMPZ jumps on 0, CJMPNZ on 1 alone. */
  lemma BranchLeads(
      m: Loaded, k: Below, s: I.State, env: Env, ops: seq<I.Value>, v: I.Value, nz: bool, target: nat)
    requires IsLoaded(m) && target < |m.c.img.code| < 0x8000_0000 && Stands(m, k, s, env, ops + [v])
    requires HasCode(m.c.img.code, s.ip, Code1(if nz then 0x51 else 0x50, target))
    ensures s.sp > 0
    ensures var r := Branch(s.(ip := s.ip + 5), v, nz, target);
      if r.Ok? then Leads(m.c, s, r.value) && Stands(m, k, r.value, env, ops) else Ends(m.c, s, Invalid)
  {
    hide IsLoaded, Leads, Ends, HasCode, OpOf, I.Exec, I.ExecCjmp, Int32At, Code1, PartsStand, Wrap;
    HasCode1(m.c.img.code, s.ip, if nz then 0x51 else 0x50, target);
    JumpOps();
    OneLies(m, k, s, env, ops, v);
    CjmpExec(m.c, s.(ip := s.ip + 1), nz);
    ExecCjmpIs(m, s.(ip := s.ip + 1), v, nz, target);
    TurnTo(m, s, Cjmp(nz), Branch(s.(ip := s.ip + 5), v, nz, target));
    DroppedStands(m, k, s, env, ops, [v]);
  }

  lemma DropLeads(m: Loaded, k: Below, s: I.State, env: Env, ops: seq<I.Value>, v: I.Value)
    requires IsLoaded(m) && Stands(m, k, s, env, ops + [v]) && HasCode(m.c.img.code, s.ip, [0x18])
    ensures s.sp > 0
    ensures var t := s.(sp := s.sp - 1, ip := s.ip + 1); Leads(m.c, s, t) && Stands(m, k, t, env, ops)
  {
    hide IsLoaded, Leads, Ends, HasCode, OpOf, I.Exec, I.ExecDrop, PartsStand;
    HasByte(m.c.img.code, s.ip, 0x18);
    OneLies(m, k, s, env, ops, v);
    DropExec(m.c, s.(ip := s.ip + 1));
    ExecDropIs(m, s.(ip := s.ip + 1));
    TurnTo(m, s, Drop, Ok(s.(sp := s.sp - 1, ip := s.ip + 1)));
    DroppedStands(m, k, s, env, ops, [v]);
  }

  lemma ExecDropIs(m: Loaded, s: I.State)
    requires IsLoaded(m) && 0 < s.sp <= |s.buf|
    ensures I.ExecDrop(m.c, s) == Ok(s.(sp := s.sp - 1))
  {
    hide FunIsLoaded;
  }

  lemma ExecLineIs(m: Loaded, s: I.State)
    requires IsLoaded(m) && s.ip + 4 < |m.c.img.code|
    ensures I.ExecLine(m.c, s) == Ok(s.(ip := s.ip + 4))
  {
    hide FunIsLoaded, I.FetchInt, Int32At;
    F.Fetched(m.c, s);
  }

  lemma LineLeads(m: Loaded, s: I.State, line: Int32)
    requires IsLoaded(m) && HasCode(m.c.img.code, s.ip, Code1(0x5A, line))
    ensures Leads(m.c, s, s.(ip := s.ip + 5))
  {
    hide IsLoaded, Leads, Ends, HasCode, OpOf, I.Exec, I.ExecLine, Int32At, Code1;
    HasCode1(m.c.img.code, s.ip, 0x5A, line);
    LineExec(m.c, s.(ip := s.ip + 1));
    ExecLineIs(m, s.(ip := s.ip + 1));
    TurnTo(m, s, Line, Ok(s.(ip := s.ip + 5)));
  }
}
