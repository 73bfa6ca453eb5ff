/** Stack discipline of both interpreters, for bytecode with consistent operand depths. */
module Discipline {
  import opened Bytecode
  import opened Interpreter
  import opened Erasure
  import opened Effects
  import R = Refinement

  /** The operand depth before each instruction. */
  type Depths = map<int, nat>

  ghost predicate Inside(c: Context, d: Depths, p: int, depth: int) {
    p in d && d[p] == depth && 0 <= p < |c.img.code| && !Enters(OpAt(c.img, p))
  }

  /** The instruction at p finds its operands, and its successors expect what it leaves. */
  ghost predicate ConsistentAt(c: Context, d: Depths, p: int) {
    0 <= p && p in d && Whole(c.img, p) &&
    var op, x, y, k := OpAt(c.img, p), First(c, p + 1), First(c, p + 5), d[p];
    && Needs(op, x, y) <= k && !op.Sta?
    && (FallsThrough(op) ==> Inside(c, d, p + Length(c.img, p), k + Delta(op, x, y)))
    && (op.Jmp? || op.Cjmp? ==> Inside(c, d, x, k + Delta(op, x, y)))
    && (op.Call? ==> x in d && 0 <= x < |c.img.code| && First(c, x + 1) == y && y >= 0)
    && (op.Callc? ==> x >= 0)
    && (op.MakeClosure? ==> x in d)
    && (Enters(op) ==> k == 0 && x >= 0)
  }

  ghost predicate Consistent(c: Context, d: Depths) {
    |c.img.code| < NO_ADDRESS && forall p :: p in d ==> ConsistentAt(c, d, p)
  }

  ghost function Bottom(f: Frame): int {
    f.base - f.args - if f.closure then 1 else 0
  }

  ghost function Top(f: Frame): int {
    f.base + f.locals
  }

  /** From f's call on, `above` is where the frame of the callee begins: its arguments and
      closure are f's topmost operands, in whose place the result will be. */
  ghost predicate CallFits(c: Context, d: Depths, f: Frame, above: int) {
    f.ret in d && Inside(c, d, f.ret, d[f.ret]) && above == Top(f) + d[f.ret] - 1
  }

  ghost predicate FramesFit(c: Context, d: Depths, frames: seq<Frame>) {
    && (forall i :: 0 <= i < |frames| ==> 0 <= Bottom(frames[i]))
    && forall i :: 0 <= i < |frames| - 1 ==> CallFits(c, d, frames[i], Bottom(frames[i + 1]))
  }

  ghost predicate Entering(c: Context, s: State) {
    s.ip < |c.img.code| && Enters(OpAt(c.img, s.ip))
  }

  /** Where the frame that is about to be made will begin. */
  ghost function NextBottom(c: Context, s: State): int
    requires Entering(c, s)
  {
    s.sp - First(c, s.ip + 1) - if OpAt(c.img, s.ip).Cbegin? || s.tmp then 1 else 0
  }

  ghost predicate SizeFits(c: Context, d: Depths, s: State) {
    if Entering(c, s) then
      && 0 <= NextBottom(c, s)
      && (s.frames != [] ==> CallFits(c, d, s.frames[|s.frames| - 1], NextBottom(c, s)))
    else
      s.frames != [] && s.ip in d && s.sp == Top(s.frames[|s.frames| - 1]) + d[s.ip]
  }

  ghost predicate Disciplined(c: Context, d: Depths, s: State) {
    && s.ip in d && HeapOk(s, d.Keys)
    && |s.buf| == MAX_STACK_SIZE && s.sp <= MAX_STACK_SIZE + 0xFFFF
    && FramesFit(c, d, s.frames) && SizeFits(c, d, s)
  }

  /** A closure is called with as many arguments as its code says. */
  ghost predicate ArityOk(c: Context, s: State) {
    s.ip < |c.img.code| && OpAt(c.img, s.ip).Callc? ==>
      var n := First(c, s.ip + 1);
      0 <= s.sp - U32(n) - 1 < |s.buf| ==>
        var v := s.buf[s.sp - U32(n) - 1];
        v.Obj? && v.id < |s.heap| && s.heap[v.id].Closure? ==> First(c, U32(s.heap[v.id].code) + 1) == n
  }

  lemma ConsistentHere(c: Context, d: Depths, p: int)
    requires Consistent(c, d) && p in d
    ensures ConsistentAt(c, d, p) && |c.img.code| < NO_ADDRESS
  {
    hide ConsistentAt;
  }

  /** Steps that keep the frames. */
  lemma InsideStep(c: Context, d: Depths, s: State, t: State)
    requires Disciplined(c, d, s) && !Entering(c, s) && SameShape(s, t) && t.ip in d
    requires Inside(c, d, t.ip, d[s.ip] + t.sp - s.sp) && t.sp <= MAX_STACK_SIZE + 0xFFFF
    ensures Disciplined(c, d, t)
  {
    hide FramesFit, OpOf;
    R.HeapStaysOk(d.Keys, s, t);
  }

  lemma PlainStep(c: Context, d: Depths, s: State)
    requires Consistent(c, d) && Disciplined(c, d, s) && Plain(OpAt(c.img, s.ip))
    requires Step(c, s).Ok?
    ensures Step(c, s).value.Continue? && Disciplined(c, d, Step(c, s).value.state)
  {
    hide Consistent, FramesFit, SizeFits, HeapOk, Step, Exec, OpOf, First, U32;
    ConsistentHere(c, d, s.ip);
    R.StepBegins(c, s);
    R.StepExecutes(c, s);
    var op := OpAt(c.img, s.ip);
    var u := s.(ip := s.ip + 1);
    PlainMoves(c, u, op);
    R.OnlyOthersGoOn(c, u, op);
    var t := Exec(c, u, op).value;
    if op.Jmp? || op.Cjmp? { SmallU32(First(c, s.ip + 1)); }
    InsideStep(c, d, s, t);
  }

  lemma ClosureStep(c: Context, d: Depths, s: State)
    requires Consistent(c, d) && Disciplined(c, d, s) && OpAt(c.img, s.ip).MakeClosure?
    requires Step(c, s).Ok?
    ensures Step(c, s).value.Continue? && Disciplined(c, d, Step(c, s).value.state)
  {
    hide Consistent, FramesFit, Step, ExecClosure, OpOf, U32;
    ConsistentHere(c, d, s.ip);
    R.StepBegins(c, s);
    R.StepExecutes(c, s);
    ClosureMoves(c, s.(ip := s.ip + 1));
    var t := ExecClosure(c, s.(ip := s.ip + 1)).value;
    forall i | 0 <= i < |t.heap| && t.heap[i].Closure? ensures t.heap[i].code in d.Keys {
      assert i < |s.heap| ==> t.heap[i] == s.heap[i];
    }
    assert Inside(c, d, t.ip, d[s.ip] + 1);
  }

  lemma Entered(c: Context, d: Depths, s: State, t: State, f: Frame)
    requires Disciplined(c, d, s) && Entering(c, s) && t.frames == s.frames + [f] && Bottom(f) == NextBottom(c, s)
    requires t.sp == Top(f) <= MAX_STACK_SIZE + 0xFFFF && Inside(c, d, t.ip, 0) && t.heap == s.heap && t.buf == s.buf
    ensures Disciplined(c, d, t)
  {
    hide NextBottom, OpOf, Bottom;
    R.HeapStaysOk(d.Keys, s, t);
  }

  lemma BeginStep(c: Context, d: Depths, s: State)
    requires Consistent(c, d) && Disciplined(c, d, s) && Entering(c, s)
    requires Step(c, s).Ok?
    ensures Step(c, s).value.Continue? && Disciplined(c, d, Step(c, s).value.state)
  {
    hide Consistent, Step, ExecBegin, OpOf, U32, HeapOk, First, FramesFit, CallFits;
    ConsistentHere(c, d, s.ip);
    R.StepBegins(c, s);
    R.StepExecutes(c, s);
    var cbegin := OpAt(c.img, s.ip).Cbegin?;
    BeginMoves(c, s.(ip := s.ip + 1), cbegin);
    var t := ExecBegin(c, s.(ip := s.ip + 1), cbegin).value;
    SmallU32(s.sp);
    FirstIsSmall(c, s.ip + 1);
    SmallU32(First(c, s.ip + 1));
    assert t.frames == s.frames + [t.frames[|s.frames|]];
    Entered(c, d, s, t, t.frames[|s.frames|]);
  }

  lemma FirstIsSmall(c: Context, p: nat)
    ensures -0x8000_0000 <= First(c, p) < 0x8000_0000
  {}

  lemma CallStep(c: Context, d: Depths, s: State)
    requires Consistent(c, d) && Disciplined(c, d, s) && ArityOk(c, s)
    requires OpAt(c.img, s.ip).Call? || OpAt(c.img, s.ip).Callc?
    requires Step(c, s).Ok?
    ensures Step(c, s).value.Continue? && Disciplined(c, d, Step(c, s).value.state)
    ensures Calls(s, Step(c, s).value.state, s.ip + Length(c.img, s.ip)) && Entering(c, Step(c, s).value.state)
  {
    hide Consistent, Step, ExecCall, ExecCallc, OpOf, U32, HeapOk, First;
    ConsistentHere(c, d, s.ip);
    R.StepBegins(c, s);
    R.StepExecutes(c, s);
    var u := s.(ip := s.ip + 1);
    if OpAt(c.img, s.ip).Call? {
      CallMoves(c, u);
      SmallU32(First(c, s.ip + 1));
      Called(c, d, s, ExecCall(c, u).value, First(c, s.ip + 5), false);
    } else {
      CallcMoves(c, u);
      var v := s.buf[s.sp - U32(First(c, s.ip + 1)) - 1];
      ClosureCode(d, s, v.id);
      ConsistentHere(c, d, s.heap[v.id].code);
      SmallU32(s.heap[v.id].code);
      Called(c, d, s, ExecCallc(c, u).value, First(c, s.ip + 1), true);
    }
  }

  lemma ClosureCode(d: Depths, s: State, i: nat)
    requires HeapOk(s, d.Keys) && i < |s.heap| && s.heap[i].Closure?
    ensures s.heap[i].code in d
  {}

  lemma Called(c: Context, d: Depths, s: State, t: State, n: int, closure: bool)
    requires Disciplined(c, d, s) && !Entering(c, s) && s.ip < |c.img.code| && Whole(c.img, s.ip)
    requires var next := s.ip + Length(c.img, s.ip);
      Calls(s, t, next) && Inside(c, d, next, d[s.ip] - n + if closure then 0 else 1)
    requires t.ip in d && Entering(c, t) && First(c, t.ip + 1) == n && (closure || !OpAt(c.img, t.ip).Cbegin?)
    requires t.tmp == closure && 0 <= n
    requires n + (if closure then 1 else 0) <= d[s.ip]
    ensures Disciplined(c, d, t)
  {
    hide OpOf, First, Length;
    R.HeapStaysOk(d.Keys, s, t);
    var last := |s.frames| - 1;
    assert forall i :: 0 <= i < last ==> t.frames[i] == s.frames[i];
    assert Bottom(t.frames[last]) == Bottom(s.frames[last]);
  }

  /** RET gives the caller its stack back, with the arguments (and closure) replaced by the
      result, at the instruction after the call. */
  lemma RetStep(c: Context, d: Depths, s: State)
    requires Consistent(c, d) && Disciplined(c, d, s) && OpAt(c.img, s.ip).Ret?
    requires Step(c, s).Ok? && Step(c, s).value.Continue?
    ensures var t := Step(c, s).value.state;
      && Disciplined(c, d, t) && |s.frames| >= 2
      && t.frames == s.frames[..|s.frames| - 1]
      && var caller := s.frames[|s.frames| - 2];
         t.ip == caller.ret && t.sp == Top(caller) + d[caller.ret] && t.buf[t.sp - 1] == s.buf[s.sp - 1]
  {
    hide Consistent, ExecRet, Exec, OpOf, HeapOk;
    ConsistentHere(c, d, s.ip);
    R.StepBegins(c, s);
    SmallU32(s.ip + 1);
    RetMoves(c, s.(ip := s.ip + 1));
    var last := |s.frames| - 1;
    var t := Step(c, s).value.state;
    assert Bottom(s.frames[last]) >= 0 && CallFits(c, d, s.frames[last - 1], Bottom(s.frames[last]));
    BottomIsSmall(d, s, last);
    R.HeapStaysOk(d.Keys, s, t);
  }

  lemma BottomIsSmall(d: Depths, s: State, i: nat)
    requires i < |s.frames| && Bottom(s.frames[i]) >= 0
    ensures s.frames[i].base < 0x1_0000_0000 ==>
      U32(s.frames[i].base - s.frames[i].args) == s.frames[i].base - s.frames[i].args
  {}

  /** No instruction of consistent code finds too few values on the stack, or no frame. */
  lemma NoUnderflow(c: Context, d: Depths, s: State)
    requires Consistent(c, d) && Disciplined(c, d, s)
    ensures Step(c, s) != Fails(Underflow)
  {
    hide Consistent, ExecRet, Exec, OpOf, HeapOk, FramesFit, Needs, First;
    ConsistentHere(c, d, s.ip);
    SmallU32(s.ip + 1);
    var op := OpAt(c.img, s.ip);
    var t := s.(ip := s.ip + 1);
    OperandsAreThere(c, d, s);
    if Enters(op) || op.Call? || op.Callc? { OthersNeverUnderflow(c, t, op); }
    else if op.MakeClosure? { ClosureUnderflow(c, t); ExecClosureIs(c, t); }
    else if op.Ret? {
      if ExecRet(c, t) == Fails(Underflow) { RetUnderflows(c, t); }
    }
    else if Plain(op) && Exec(c, t, op) == Fails(Underflow) { PlainUnderflow(c, t, op); }
  }

  lemma ExecClosureIs(c: Context, s: State)
    ensures Exec(c, s, MakeClosure) == ExecClosure(c, s)
  {}

  lemma OperandsAreThere(c: Context, d: Depths, s: State)
    requires Consistent(c, d) && Disciplined(c, d, s) && s.ip < |c.img.code|
    ensures var op := OpAt(c.img, s.ip);
      !op.Sta? && (!Enters(op) ==> s.frames != [] && s.sp >= Needs(op, First(c, s.ip + 1), First(c, s.ip + 5)))
    ensures OpAt(c.img, s.ip).Ret? ==> s.sp > 0
  {
    hide Consistent, OpOf, HeapOk, FramesFit, First, Length;
    ConsistentHere(c, d, s.ip);
  }

  lemma StepDisciplined(c: Context, d: Depths, s: State)
    requires Consistent(c, d) && Disciplined(c, d, s) && ArityOk(c, s)
    requires Step(c, s).Ok? && Step(c, s).value.Continue?
    ensures Disciplined(c, d, Step(c, s).value.state)
  {
    hide Consistent, Disciplined, Step, OpOf, ArityOk;
    InBounds(c, d, s);
    var op := OpAt(c.img, s.ip);
    if Enters(op) { BeginStep(c, d, s); }
    else if op.MakeClosure? { ClosureStep(c, d, s); }
    else if op.Call? || op.Callc? { CallStep(c, d, s); }
    else if op.Ret? { RetStep(c, d, s); }
    else if op.Stop? { StopHalts(c, s); }
    else { PlainStep(c, d, s); }
  }

  lemma InBounds(c: Context, d: Depths, s: State)
    requires Consistent(c, d) && Disciplined(c, d, s)
    ensures s.ip < |c.img.code| < NO_ADDRESS
  {
    hide Consistent, HeapOk, FramesFit, SizeFits;
    ConsistentHere(c, d, s.ip);
  }

  lemma StopHalts(c: Context, s: State)
    requires s.ip < |c.img.code| < NO_ADDRESS && OpAt(c.img, s.ip).Stop? && Step(c, s).Ok?
    ensures Step(c, s).value.Halt?
  {
    hide OpOf, Exec, ExecRet;
    SmallU32(s.ip + 1);
  }

  // Whole runs

  /** The run from s makes n turns, and calls closures with the right numbers of arguments. */
  ghost predicate RunsFor(c: Context, s: State, n: nat)
    decreases n
  {
    n > 0 ==>
      ArityOk(c, s) && Step(c, s).Ok? && Step(c, s).value.Continue? && RunsFor(c, Step(c, s).value.state, n - 1)
  }

  ghost function StateAfter(c: Context, s: State, n: nat): State
    requires RunsFor(c, s, n)
    decreases n
  {
    if n == 0 then s else StateAfter(c, Step(c, s).value.state, n - 1)
  }

  lemma {:induction false} RunDisciplined(c: Context, d: Depths, s: State, n: nat)
    requires Consistent(c, d) && Disciplined(c, d, s) && RunsFor(c, s, n)
    ensures Disciplined(c, d, StateAfter(c, s, n))
    decreases n
  {
    hide Consistent, Disciplined, Step, ArityOk;
    if n > 0 {
      StepDisciplined(c, d, s);
      RunDisciplined(c, d, Step(c, s).value.state, n - 1);
    }
  }

  /** The program begins with an entry that takes no more arguments than there are words
      below it. */
  ghost predicate GoodStart(c: Context, d: Depths) {
    && 0 in d && |c.img.code| > 0 && Enters(OpAt(c.img, 0))
    && First(c, 1) + (if OpAt(c.img, 0).Cbegin? then 1 else 0) <= c.img.globals + 2
  }

  /** The stack holds exactly the current frame's locals and the operands that the depths say,
      and frames lie one above the other. */
  ghost predicate InOrder(c: Context, d: Depths, t: State) {
    && t.ip in d
    && (!Entering(c, t) ==> t.frames != [] && t.sp == Top(t.frames[|t.frames| - 1]) + d[t.ip])
    && forall i :: 0 <= i < |t.frames| - 1 ==>
         t.frames[i].ret in d && Bottom(t.frames[i + 1]) == Top(t.frames[i]) + d[t.frames[i].ret] - 1
  }

  lemma DisciplinedIsInOrder(c: Context, d: Depths, t: State)
    requires Disciplined(c, d, t)
    ensures InOrder(c, d, t)
  {
    hide OpOf, First, HeapOk;
    forall i | 0 <= i < |t.frames| - 1
      ensures t.frames[i].ret in d && Bottom(t.frames[i + 1]) == Top(t.frames[i]) + d[t.frames[i].ret] - 1
    {
      assert CallFits(c, d, t.frames[i], Bottom(t.frames[i + 1]));
    }
  }

  lemma StartDisciplined(c: Context, d: Depths, input: seq<int>)
    requires Consistent(c, d) && GoodStart(c, d) && Start(c.img, input).Ok?
    ensures Disciplined(c, d, Start(c.img, input).value)
  {
    hide Consistent, OpOf, First;
  }

  /** In every reachable state of either interpreter the stack is in order, and the next
      instruction does not underflow. */
  lemma StackDiscipline(c: Context, d: Depths, input: seq<int>, n: nat)
    requires Consistent(c, d) && GoodStart(c, d)
    requires Start(c.img, input).Ok? && RunsFor(c, Start(c.img, input).value, n)
    ensures var t := StateAfter(c, Start(c.img, input).value, n); InOrder(c, d, t) && Step(c, t) != Fails(Underflow)
  {
    hide Consistent, Step, RunsFor, StateAfter, Disciplined, InOrder;
    StartDisciplined(c, d, input);
    RunDisciplined(c, d, Start(c.img, input).value, n);
    var t := StateAfter(c, Start(c.img, input).value, n);
    NoUnderflow(c, d, t);
    DisciplinedIsInOrder(c, d, t);
  }

  /** As far as it gets within n turns, the run from s calls closures with the right numbers
      of arguments. */
  ghost predicate AritiesFit(c: Context, s: State, n: nat)
    decreases n
  {
    n > 0 ==>
      ArityOk(c, s) &&
      (Step(c, s).Ok? && Step(c, s).value.Continue? ==> AritiesFit(c, Step(c, s).value.state, n - 1))
  }

  /** However a run ends, it does not end with an underflow; while it goes on, it is in order. */
  lemma {:induction false} RunInOrder(c: Context, d: Depths, s: State, n: nat)
    requires Consistent(c, d) && Disciplined(c, d, s) && AritiesFit(c, s, n)
    ensures Run(c, s, n) != Fails(Underflow)
    ensures Run(c, s, n).Ok? && Run(c, s, n).value.Continue? ==> InOrder(c, d, Run(c, s, n).value.state)
    decreases n
  {
    hide Consistent, Disciplined, Step, ArityOk, InOrder;
    DisciplinedIsInOrder(c, d, s);
    if n > 0 {
      NoUnderflow(c, d, s);
      if Step(c, s).Ok? && Step(c, s).value.Continue? {
        StepDisciplined(c, d, s);
        RunInOrder(c, d, Step(c, s).value.state, n - 1);
      }
    }
  }

  // A call and its return

  /** From s to t, the first k frames stayed. */
  ghost predicate Below(s: State, t: State, k: nat) {
    k <= |s.frames| && k <= |t.frames| && s.frames[..k] == t.frames[..k]
  }

  lemma StepKeepsBelow(c: Context, d: Depths, s: State, k: nat)
    requires Consistent(c, d) && Disciplined(c, d, s) && ArityOk(c, s)
    requires Step(c, s).Ok? && Step(c, s).value.Continue?
    requires k < |s.frames| && k <= |Step(c, s).value.state.frames|
    ensures Below(s, Step(c, s).value.state, k)
    ensures |Step(c, s).value.state.frames| == k ==> |s.frames| == k + 1 && OpAt(c.img, s.ip).Ret?
  {
    hide Consistent, Disciplined, Step, OpOf, ArityOk, Exec, ExecBegin, ExecClosure;
    InBounds(c, d, s);
    var op := OpAt(c.img, s.ip);
    var u := s.(ip := s.ip + 1);
    if op.Ret? { RetStep(c, d, s); }
    else if op.Call? || op.Callc? { CallStep(c, d, s); }
    else if op.Stop? { StopHalts(c, s); }
    else {
      R.StepBegins(c, s);
      R.StepExecutes(c, s);
      ExecIs(c, u, op);
      if Enters(op) { BeginMoves(c, u, op.Cbegin?); }
      else if op.MakeClosure? { ClosureMoves(c, u); }
      else { PlainMoves(c, u, op); }
    }
  }

  lemma ExecIs(c: Context, s: State, op: Op)
    ensures Enters(op) ==> Exec(c, s, op) == ExecBegin(c, s, op.Cbegin?)
    ensures op.MakeClosure? ==> Exec(c, s, op) == ExecClosure(c, s)
  {}

  /** All states before the n-th turn have more than k frames. */
  ghost predicate StaysAbove(c: Context, s: State, n: nat, k: nat)
    requires RunsFor(c, s, n)
    decreases n
  {
    n > 0 ==> |s.frames| > k && StaysAbove(c, Step(c, s).value.state, n - 1, k)
  }

  /** A run that comes down to k frames does so by a return to the k-th of them. */
  lemma {:induction false} RunReturns(c: Context, d: Depths, s: State, n: nat, k: nat)
    requires Consistent(c, d) && Disciplined(c, d, s) && RunsFor(c, s, n) && StaysAbove(c, s, n, k)
    requires 0 < k < |s.frames| && |StateAfter(c, s, n).frames| == k
    ensures var t := StateAfter(c, s, n); var f := s.frames[k - 1];
      && t.frames == s.frames[..k] && t.ip == f.ret && f.ret in d && t.sp == Top(f) + d[f.ret]
    decreases n
  {
    hide Consistent, Disciplined, Step, ArityOk, OpOf;
    var next := Step(c, s).value.state;
    StepDisciplined(c, d, s);
    StepKeepsBelow(c, d, s, k);
    if n == 1 {
      RetStep(c, d, s);
      InDepths(c, d, next);
    } else {
      RunReturns(c, d, next, n - 1, k);
      assert next.frames[..k][k - 1] == s.frames[..k][k - 1];
    }
  }

  lemma InDepths(c: Context, d: Depths, s: State)
    requires Disciplined(c, d, s)
    ensures s.ip in d
  {}

  /** The state s with its last frame about to continue at ip. */
  ghost function Calling(frames: seq<Frame>, ip: nat): seq<Frame>
    requires frames != []
  {
    frames[|frames| - 1 := frames[|frames| - 1].(ret := ip)]
  }

  lemma EntryMakesFrame(c: Context, d: Depths, s: State, t: State)
    requires Consistent(c, d) && Disciplined(c, d, s) && Entering(c, s) && Step(c, s) == Ok(Continue(t))
    ensures Disciplined(c, d, t) && |t.frames| == |s.frames| + 1 && t.frames[..|s.frames|] == s.frames
  {
    hide Consistent, Disciplined, Step, OpOf, ExecBegin, Exec, First;
    InBounds(c, d, s);
    BeginStep(c, d, s);
    R.StepBegins(c, s);
    R.StepExecutes(c, s);
    var u := s.(ip := s.ip + 1);
    ExecIs(c, u, OpAt(c.img, s.ip));
    BeginMoves(c, u, OpAt(c.img, s.ip).Cbegin?);
  }

  lemma AtCall(c: Context, d: Depths, s: State)
    requires Consistent(c, d) && Disciplined(c, d, s) && s.ip < |c.img.code|
    requires OpAt(c.img, s.ip).Call? || OpAt(c.img, s.ip).Callc?
    ensures Whole(c.img, s.ip) && s.frames != [] && var next := s.ip + Length(c.img, s.ip);
      && next in d && s.sp == Top(s.frames[|s.frames| - 1]) + d[s.ip]
      && d[next] == d[s.ip] + Delta(OpAt(c.img, s.ip), First(c, s.ip + 1), First(c, s.ip + 5))
  {
    hide Consistent, OpOf, First, Length;
    ConsistentHere(c, d, s.ip);
  }

  /** Whatever the callee does, when it has returned the caller goes on behind the call, with
      its own frame, its callers' frames, and one result where closure and arguments were. */
  lemma CallReturns(c: Context, d: Depths, s: State, called: State, entered: State, n: nat)
    requires Consistent(c, d) && Disciplined(c, d, s) && ArityOk(c, s) && s.ip < |c.img.code|
    requires OpAt(c.img, s.ip).Call? || OpAt(c.img, s.ip).Callc?
    requires Step(c, s) == Ok(Continue(called)) && Step(c, called) == Ok(Continue(entered))
    requires RunsFor(c, entered, n) && StaysAbove(c, entered, n, |s.frames|)
    requires |StateAfter(c, entered, n).frames| == |s.frames|
    ensures Whole(c.img, s.ip) && s.frames != []
    ensures var t := StateAfter(c, entered, n);
      && t.ip == s.ip + Length(c.img, s.ip)
      && t.sp == s.sp + Delta(OpAt(c.img, s.ip), First(c, s.ip + 1), First(c, s.ip + 5))
      && t.frames == Calling(s.frames, t.ip)
  {
    hide Consistent, Disciplined, Step, ArityOk, OpOf, Exec, First, Length, RunsFor, StaysAbove, StateAfter;
    AtCall(c, d, s);
    CallStep(c, d, s);
    EntryMakesFrame(c, d, called, entered);
    RunReturns(c, d, entered, n, |s.frames|);
    assert entered.frames[|s.frames| - 1] == called.frames[|s.frames| - 1];
  }
}
