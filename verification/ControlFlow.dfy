/** The idiom analyser's edges against the interpreter that runs the same bytecode: where a
    visit says control can go, and where the interpreter goes. */
module ControlFlow {
  import opened Bytecode
  import opened InstructionGraph
  import opened IdiomProcessors
  import opened IdiomSweep
  import I = Interpreter
  import E = Erasure
  import F = Effects
  import D = Discipline
  import R = Refinement
  import W = Words

  /** A file with this code; the rest does not matter for lengths. */
  function FileOf(code: seq<Byte>): Image { Image(code, [], 0) }

  ghost function OpAt(code: seq<Byte>, p: nat): Op
    requires p < |code|
  {
    OpOf(code[p])
  }

  lemma {:induction false} CapturesLengthIs(code: seq<Byte>, p: nat, n: nat)
    requires CapturesLength(code, p, n).Ok?
    ensures CapturesLength(code, p, n).value == 5 * n
    decreases n
  {
    if n > 0 { CapturesLengthIs(code, p + 5, n - 1); }
  }

  /** The disassembler's length is the distance to the next instruction. */
  lemma DisassembleIsLength(code: seq<Byte>, p: nat)
    requires p < |code| && Disassemble(code, p).Ok? && !IsStop(code[p]) && E.Whole(FileOf(code), p)
    ensures Disassemble(code, p) == Ok(E.Length(FileOf(code), p))
  {
    hide Int32At, OpOf;
    if OpAt(code, p).MakeClosure? {
      var n := Int32At(code, p + 5);
      CapturesLengthIs(code, p + 9, if n < 0 then 0 else n);
    }
  }

  lemma StopIsF0(code: seq<Byte>, p: nat)
    requires p < |code|
    ensures OpAt(code, p).Stop? ==> IsStop(code[p])
    ensures IsStop(code[p]) ==> OpAt(code, p).Stop? || OpAt(code, p).Unknown?
  {}

  lemma KindsOfOps(b: Byte)
    ensures IsJump(b) <==> OpOf(b).Jmp? || OpOf(b).Cjmp?
    ensures IsCall(b) <==> OpOf(b).Call? || OpOf(b).Callc?
    ensures IsTerminal(b) <==> OpOf(b).Jmp? || OpOf(b).Ret? || OpOf(b).Fail? || OpOf(b).Stop?
  {}

  /** What a successful visit knows of the instruction. */
  lemma VisitReads(code: seq<Byte>, p: nat)
    requires p < |code| < 0x8000_0000 && Visit(code, p).Ok? && !IsStop(code[p])
    ensures E.Whole(FileOf(code), p) && p + E.Length(FileOf(code), p) < |code| && Disassemble(code, p).Ok?
    ensures IsJump(code[p]) || IsCall(code[p]) ==> p + 5 < |code| && 0 <= Int32At(code, p + 1) < |code|
  {
    hide OpOf, Int32At;
    LengthBounded(code, p);
    var length := Disassemble(code, p).value;
    assert p + length < |code|;
    OperandsInside(code, p);
    DisassembleIsLength(code, p);
    if IsJump(code[p]) || IsCall(code[p]) { SmallTarget(code, p); }
  }

  lemma OperandsInside(code: seq<Byte>, p: nat)
    requires p < |code| && Disassemble(code, p).Ok? && !IsStop(code[p]) && p + Disassemble(code, p).value < |code|
    ensures E.Whole(FileOf(code), p)
  {
    hide OpOf, Int32At;
  }

  lemma SmallTarget(code: seq<Byte>, p: nat)
    requires p + 5 < |code| < 0x8000_0000 && U32(Int32At(code, p + 1)) < |code|
    ensures 0 <= Int32At(code, p + 1) < |code|
  {}

  /** Where control can go from p, by the kind of the instruction: a jump to its target alone,
      a conditional jump to both, and a call to its operand and behind itself. */
  ghost function Reachables(code: seq<Byte>, p: nat): set<int>
    requires p < |code| && E.Whole(FileOf(code), p)
    requires IsJump(code[p]) || IsCall(code[p]) ==> p + 5 < |code|
  {
    KindsOfOps(code[p]);
    var next := p + E.Length(FileOf(code), p);
    match OpAt(code, p)
    case Jmp => {Int32At(code, p + 1)}
    case Cjmp(_) => {Int32At(code, p + 1), next}
    case Call => {Int32At(code, p + 1), next}
    case Callc => {Int32At(code, p + 1), next}
    case Ret => {}
    case Fail => {}
    case _ => {next}
  }

  lemma SuccessorsAre(code: seq<Byte>, p: nat)
    requires p < |code| < 0x8000_0000 && Visit(code, p).Ok? && !IsStop(code[p])
    ensures E.Whole(FileOf(code), p) && (IsJump(code[p]) || IsCall(code[p]) ==> p + 5 < |code|)
    ensures forall q: int :: q in Reachables(code, p) <==> 0 <= q && q in Successors(code, p)
  {
    hide OpOf, Int32At, Disassemble;
    VisitReads(code, p);
    DisassembleIsLength(code, p);
    KindsOfOps(code[p]);
    StopIsF0(code, p);
    var e := Visit(code, p).value;
    assert forall q: nat :: q in Successors(code, p) <==> q in e.target || q in e.next;
  }

  // The interpreter goes where the visit says

  /** A jump continues at its target, a conditional jump there or behind itself, and everything
      else behind itself; a call goes to its target and will come back behind itself. */
  lemma StepsToSuccessor(c: I.Context, s: I.State)
    requires c.checked && s.ip < |c.img.code| < 0x8000_0000 && Visit(c.img.code, s.ip).Ok?
    requires I.Step(c, s).Ok? && I.Step(c, s).value.Continue? && !OpAt(c.img.code, s.ip).Ret?
    ensures var t := I.Step(c, s).value.state; var op := OpAt(c.img.code, s.ip);
      && (!op.Callc? ==> t.ip in Successors(c.img.code, s.ip))
      && (op.Call? || op.Callc? ==> t.frames != [] && t.frames[|t.frames| - 1].ret in Successors(c.img.code, s.ip))
  {
    hide OpOf, I.Exec, I.Step, Visit, Successors, I.ExecBegin, I.ExecClosure, I.ExecCall, I.ExecCallc, U32, Int32At;
    var code, p := c.img.code, s.ip;
    StopIsF0(code, p);
    NotStopped(c, s);
    SuccessorsAre(code, p);
    VisitReads(code, p);
    R.StepBegins(c, s);
    R.StepExecutes(c, s);
    var u, op := s.(ip := s.ip + 1), OpAt(code, p);
    ExecsAre(c, u, op);
    KindsOfOps(code[p]);
    if op.Call? { F.CallMoves(c, u); SmallOperand(code, p); }
    else if op.Callc? { F.CallcMoves(c, u); }
    else if op.MakeClosure? { F.ClosureMoves(c, u); }
    else if Enters(op) { F.BeginMoves(c, u, op.Cbegin?); }
    else {
      F.PlainMoves(c, u, op);
      R.OnlyOthersGoOn(c, u, op);
      if IsJump(code[p]) { SmallOperand(code, p); }
    }
  }

  lemma NotStopped(c: I.Context, s: I.State)
    requires s.ip < |c.img.code| < 0x8000_0000 && I.Step(c, s).Ok? && I.Step(c, s).value.Continue?
    ensures !IsStop(c.img.code[s.ip])
  {
    hide OpOf, I.Step, I.Exec;
    StopIsF0(c.img.code, s.ip);
    if OpAt(c.img.code, s.ip).Unknown? {
      R.StepBegins(c, s);
      R.StepExecutes(c, s);
      R.OnlyFails(c, s.(ip := s.ip + 1), Unknown);
    }
    if OpAt(c.img.code, s.ip).Stop? { D.StopHalts(c, s); }
  }

  lemma ExecsAre(c: I.Context, s: I.State, op: Op)
    requires !op.Ret? && !op.Stop?
    ensures Enters(op) ==> I.Exec(c, s, op) == I.ExecBegin(c, s, op.Cbegin?)
    ensures op.MakeClosure? ==> I.Exec(c, s, op) == I.ExecClosure(c, s)
    ensures op.Call? ==> I.Exec(c, s, op) == I.ExecCall(c, s)
    ensures op.Callc? ==> I.Exec(c, s, op) == I.ExecCallc(c, s)
  {}

  lemma SmallOperand(code: seq<Byte>, p: nat)
    requires p + 5 < |code| < 0x8000_0000 && 0 <= Int32At(code, p + 1) < |code|
    ensures U32(Int32At(code, p + 1)) == Int32At(code, p + 1)
  {}

  // And each successor is where some state continues

  const BIG: int := 0x8000_0000

  /** A runtime that takes every tag. */
  ghost function AnyLibrary(): I.Library {
    I.Library((h, v) => [], s => true, s => 0)
  }

  ghost function AnyContext(code: seq<Byte>): I.Context {
    I.Context(true, Image(code, seq(BIG, i => 'a'), BIG), AnyLibrary())
  }

  /** A state with every variable there could be, one object of each kind, and these operands. */
  ghost function Willing(p: nat, operands: seq<I.Value>): I.State {
    var closure := I.Closure(0, seq(BIG, i => I.Int(0)));
    var heap := [closure, I.Array([I.Int(0)])];
    I.State(p, [I.Frame(BIG + 1, BIG, BIG, true, 0)],
            [I.Obj(0)] + operands + seq(4 * BIG, i => I.Int(0)), 1 + |operands|, false, heap, [], [])
  }

  ghost function Units(n: nat): seq<I.Value> {
    seq(n, i => I.Int(1))
  }

  /** The stack that each instruction is content with. */
  ghost function OperandsFor(op: Op): seq<I.Value> {
    match op
    case Sti => [I.Int(1), I.Slot(0)]
    case Sta => [I.Obj(1), I.Int(0), I.Int(1)]
    case Elem => [I.Obj(1), I.Int(0)]
    case Llength => [I.Obj(1)]
    case _ => Units(40)
  }

  ghost predicate CapturesOk(code: seq<Byte>, p: nat, n: nat)
    decreases n
  {
    n == 0 || (p + 5 < |code| && code[p] < 4 && Int32At(code, p + 1) >= 0 && CapturesOk(code, p + 5, n - 1))
  }

  /** Operands with which the checked interpreter can go on at all: no negative indices and
      numbers, no more elements than extra roots, and room for the locals. */
  ghost predicate OperandsOk(code: seq<Byte>, p: nat)
    requires p < |code| && E.Whole(FileOf(code), p)
  {
    var op := OpAt(code, p);
    var x := if Operands(op) > 0 then Int32At(code, p + 1) else 0;
    var y := if Operands(op) > 1 then Int32At(code, p + 5) else 0;
    match op
    case Ld(_) => x >= 0 case Lda(_) => x >= 0 case St(_) => x >= 0
    case Str => x >= 0
    case Tag => x >= 0 && y >= 0
    case MakeSexp => x >= 0 && 0 <= y <= 32
    case ArrayPatt => x >= 0
    case Barray => 0 <= x <= 32
    case Begin => x >= 0 && 0 <= y <= I.MAX_STACK_SIZE
    case Cbegin => x >= 0 && 0 <= y <= I.MAX_STACK_SIZE
    case MakeClosure => 0 <= x < |code| && 0 <= y < 32 && CapturesOk(code, p + 9, y)
    case _ => true
  }

  ghost predicate ContinuesAt(code: seq<Byte>, p: nat, q: nat) {
    exists c: I.Context, s: I.State :: Continues(c, s, code, p, q)
  }

  ghost predicate Continues(c: I.Context, s: I.State, code: seq<Byte>, p: nat, q: nat) {
    && c.checked && c.img.code == code && s.ip == p
    && I.Step(c, s).Ok? && I.Step(c, s).value.Continue? && I.Step(c, s).value.state.ip == q
  }

  lemma BinopWilling(code: seq<Byte>, p: nat, k: Byte)
    requires p < |code| && OpAt(code, p) == Binop(k)
    ensures I.ExecBinop(AnyContext(code), Willing(p + 1, Units(40)), k).Ok?
  {
    assert I.Binary(k, 1, 1).Ok?;
    OneIsOne();
  }

  lemma OneIsOne()
    ensures I32(1) == 1 && I32(0) == 0
  {}

  lemma StackWilling(code: seq<Byte>, p: nat)
    requires p < |code| && Operands(OpAt(code, p)) == 0
    requires FallsThrough(OpAt(code, p)) && !MakesObject(OpAt(code, p)) && !LooksAtObject(OpAt(code, p))
    ensures var op := OpAt(code, p); I.Exec(AnyContext(code), Willing(p + 1, OperandsFor(op)), op).Ok?
  {
    hide OpOf, I.ExecBinop;
    OneIsOne();
    if OpAt(code, p).Binop? { BinopWilling(code, p, OpAt(code, p).operator); }
  }

  lemma LookWilling(code: seq<Byte>, p: nat)
    requires p < |code| && Operands(OpAt(code, p)) == 0
    requires MakesObject(OpAt(code, p)) || LooksAtObject(OpAt(code, p))
    ensures var op := OpAt(code, p); I.Exec(AnyContext(code), Willing(p + 1, OperandsFor(op)), op).Ok?
  {
    hide OpOf, I.ExecSta, I.ExecElem, I.ExecPattStr;
    if OpAt(code, p).Sta? { StaWilling(code, p); }
    if OpAt(code, p).Elem? { ElemWilling(code, p); }
    if OpAt(code, p).PattStr? { PattStrWilling(code, p); }
  }

  lemma StaWilling(code: seq<Byte>, p: nat)
    ensures I.ExecSta(AnyContext(code), Willing(p + 1, OperandsFor(Sta))).Ok?
  {
    OneIsOne();
  }

  lemma ElemWilling(code: seq<Byte>, p: nat)
    ensures I.ExecElem(AnyContext(code), Willing(p + 1, OperandsFor(Elem))).Ok?
  {
    OneIsOne();
  }

  lemma PattStrWilling(code: seq<Byte>, p: nat)
    ensures I.ExecPattStr(AnyContext(code), Willing(p + 1, OperandsFor(PattStr))).Ok?
  {}

  ghost predicate Generous(s: I.State) {
    && s.frames == [I.Frame(BIG + 1, BIG, BIG, true, 0)] && |s.buf| > 4 * BIG && s.buf[0] == I.Obj(0)
    && |s.heap| >= 1 && s.heap[0].Closure? && |s.heap[0].captures| == BIG && 1 <= s.sp < 1000
  }

  /** Every variable can be found, loaded and stored. */
  lemma VariableWilling(code: seq<Byte>, s: I.State, place: Place, index: int)
    requires 0 <= index < BIG && Generous(s)
    ensures var a := I.Locate(AnyContext(code), s, place, index);
      && a.Ok? && I.Load(s, a.value).Ok?
      && (a.value.Slot? ==> a.value.pos < |s.buf|)
      && (a.value.CaptureSlot? ==> a.value.closure == 0 && a.value.index < BIG)
      && (a.value.Slot? || a.value.CaptureSlot?)
  {
    hide I32;
  }

  lemma LoadWilling(code: seq<Byte>, p: nat, place: Place)
    requires p + 5 < |code| < 0x8000_0000 && Int32At(code, p + 1) >= 0
    ensures I.ExecLd(AnyContext(code), Willing(p + 1, Units(40)), place).Ok?
    ensures I.ExecLda(AnyContext(code), Willing(p + 1, Units(40)), place).Ok?
  {
    hide Int32At, Willing, I.Locate, I.Load, I32, U32, I.FetchIntIf;
    Int32Small(code, p + 1);
    WillingIs(p + 1, Units(40));
    F.Fetched(AnyContext(code), Willing(p + 1, Units(40)));
    WillingIs(p + 5, Units(40));
    VariableWilling(code, Willing(p + 5, Units(40)), place, Int32At(code, p + 1));
  }

  lemma Int32Small(code: seq<Byte>, p: nat)
    requires p + 4 <= |code|
    ensures -BIG <= Int32At(code, p) < BIG
  {}

  lemma WillingIs(p: nat, operands: seq<I.Value>)
    ensures var s := Willing(p, operands);
      && s.ip == p && s.sp == 1 + |operands| && |s.buf| == 1 + |operands| + 4 * BIG && s.frames != [] && |s.frames| == 1
      && |s.heap| == 2 && s.heap[0].Closure? && |s.heap[0].captures| == BIG
      && s.buf[1..1 + |operands|] == operands && (|operands| < 900 ==> Generous(s))
    ensures forall q :: Willing(p, operands).(ip := q) == Willing(q, operands)
  {}

  lemma StoreWilling(code: seq<Byte>, p: nat, place: Place)
    requires p + 5 < |code| < 0x8000_0000 && Int32At(code, p + 1) >= 0
    ensures I.ExecSt(AnyContext(code), Willing(p + 1, Units(40)), place).Ok?
  {
    hide Int32At, Willing, I.Locate, I.Load, I32, U32, I.FetchIntIf;
    Int32Small(code, p + 1);
    var s := Willing(p + 1, Units(40));
    WillingIs(p + 1, Units(40));
    WillingIs(p + 5, Units(40));
    var u := s.(sp := 40);
    F.Fetched(AnyContext(code), u);
    VariableWilling(code, Willing(p + 5, Units(40)), place, Int32At(code, p + 1));
    LocateIgnoresTop(AnyContext(code), Willing(p + 5, Units(40)), 40, place, Int32At(code, p + 1));
  }

  lemma LocateIgnoresTop(c: I.Context, s: I.State, sp: nat, place: Place, index: int)
    ensures I.Locate(c, s.(sp := sp), place, index) == I.Locate(c, s, place, index)
  {}

  lemma OneOperandWilling(code: seq<Byte>, p: nat)
    requires p + 5 < |code| < 0x8000_0000 && Operands(OpAt(code, p)) == 1 && E.Whole(FileOf(code), p)
    requires var op := OpAt(code, p); op.Const? || op.Line? || op.Str? || op.ArrayPatt? || op.Barray?
    requires OperandsOk(code, p)
    ensures var op := OpAt(code, p); I.Exec(AnyContext(code), Willing(p + 1, OperandsFor(op)), op).Ok?
  {
    hide Int32At, Willing, I32, U32, I.FetchIntIf, OpOf, W.CString;
    Int32Small(code, p + 1);
    var s := Willing(p + 1, Units(40));
    WillingIs(p + 1, Units(40));
    F.Fetched(AnyContext(code), s);
    WillingIs(p + 5, Units(40));
    assert s.buf[40] == s.buf[1..41][39];
  }

  lemma TwoOperandsWilling(code: seq<Byte>, p: nat)
    requires p + 9 < |code| < 0x8000_0000 && E.Whole(FileOf(code), p)
    requires OpAt(code, p).MakeSexp? || OpAt(code, p).Tag?
    requires OperandsOk(code, p)
    ensures var op := OpAt(code, p); I.Exec(AnyContext(code), Willing(p + 1, OperandsFor(op)), op).Ok?
  {
    hide Int32At, Willing, I32, U32, I.FetchIntIf, OpOf, W.CString;
    Int32Small(code, p + 1);
    Int32Small(code, p + 5);
    var s := Willing(p + 1, Units(40));
    WillingIs(p + 1, Units(40));
    F.Fetched(AnyContext(code), s);
    F.Fetched(AnyContext(code), s.(ip := p + 5));
    WillingIs(p + 9, Units(40));
    assert s.buf[40] == s.buf[1..41][39];
  }

  /** An entry needs all the room there may be. */
  lemma EntryWilling(code: seq<Byte>, p: nat, cbegin: bool)
    requires p + 9 < |code| < 0x8000_0000 && Int32At(code, p + 1) >= 0
    requires 0 <= Int32At(code, p + 5) <= I.MAX_STACK_SIZE
    ensures I.ExecBegin(AnyContext(code), Willing(p + 1, []).(sp := 0), cbegin).Ok?
  {
    hide Int32At, Willing, I32, U32, I.FetchIntIf;
    var s := Willing(p + 1, []).(sp := 0);
    WillingIs(p + 1, []);
    F.Fetched(AnyContext(code), s);
    F.Fetched(AnyContext(code), s.(ip := p + 5));
  }

  lemma CaptureWilling(code: seq<Byte>, s: I.State)
    requires s.ip + 5 < |code| < 0x8000_0000 && code[s.ip] < 4 && Int32At(code, s.ip + 1) >= 0 && Generous(s)
    ensures var r := I.ExecCapture(AnyContext(code), s);
      && r.Ok? && r.value.ip == s.ip + 5 && r.value.sp == s.sp + 1 && (s.sp < 999 ==> Generous(r.value))
  {
    hide Int32At, I.Locate, I.Load, I32, I.FetchIntIf;
    Int32Small(code, s.ip + 1);
    var u := s.(ip := s.ip + 1);
    F.Fetched(AnyContext(code), u);
    VariableWilling(code, s.(ip := s.ip + 5), PlaceOf(code[s.ip]), Int32At(code, s.ip + 1));
  }

  lemma {:induction false} CapturesWilling(code: seq<Byte>, s: I.State, n: nat)
    requires |code| < 0x8000_0000 && CapturesOk(code, s.ip, n) && Generous(s) && s.sp + n < 999
    ensures var r := I.ExecCaptures(AnyContext(code), s, n); r.Ok? && r.value.sp == s.sp + n && Generous(r.value)
    decreases n
  {
    hide Int32At, I.ExecCapture, Generous;
    if n > 0 {
      CaptureWilling(code, s);
      CapturesWilling(code, I.ExecCapture(AnyContext(code), s).value, n - 1);
    }
  }

  lemma WrapWilling(code: seq<Byte>, s: I.State, target: int, n: nat)
    requires n < 32 && n < s.sp && Generous(s)
    ensures I.WrapCaptures(AnyContext(code), s, target, n).Ok?
  {}

  lemma PushWilling(code: seq<Byte>, s: I.State, v: I.Value)
    requires Generous(s) && s.sp < 999
    ensures var r := I.Push(AnyContext(code), s, v);
      && r.Ok? && Generous(r.value) && r.value.sp == s.sp + 1 && r.value.ip == s.ip
  {}

  lemma ClosureWilling(code: seq<Byte>, p: nat)
    requires p + 9 < |code| < 0x8000_0000 && E.Whole(FileOf(code), p) && OpAt(code, p).MakeClosure?
    requires OperandsOk(code, p)
    ensures I.ExecClosure(AnyContext(code), Willing(p + 1, Units(40))).Ok?
  {
    hide Int32At, Willing, I32, U32, I.FetchIntIf, OpOf, Generous, I.Push, I.WrapCaptures, I.ExecCaptures;
    var c := AnyContext(code);
    var s := Willing(p + 1, Units(40));
    WillingIs(p + 1, Units(40));
    WillingIs(p + 9, Units(40));
    F.Fetched(c, s);
    F.Fetched(c, s.(ip := p + 5));
    var u := Willing(p + 9, Units(40));
    var target, n := Int32At(code, p + 1), Int32At(code, p + 5);
    PushWilling(code, u, I.Int(target));
    var v := I.Push(c, u, I.Int(target)).value;
    GenerousHasFrame(v);
    CapturesWilling(code, v, n);
    WrapWilling(code, I.ExecCaptures(c, v, n).value, target, n);
  }

  lemma GenerousHasFrame(s: I.State)
    requires Generous(s)
    ensures I.TopFrame(s).Ok?
  {}

  // Both together

  lemma ExecWilling(code: seq<Byte>, p: nat) returns (s: I.State)
    requires p < |code| < 0x8000_0000 && Visit(code, p).Ok? && !IsStop(code[p])
    requires E.Whole(FileOf(code), p) && p + E.Length(FileOf(code), p) < |code| && OperandsOk(code, p)
    requires var op := OpAt(code, p); !op.Call? && !op.Callc? && FallsThrough(op) && !op.Cjmp?
    ensures s.ip == p + 1 && I.Exec(AnyContext(code), s, OpAt(code, p)).Ok?
  {
    hide OpOf, I.Exec, Int32At, Willing, Visit, OperandsFor;
    var op := OpAt(code, p);
    s := Willing(p + 1, OperandsFor(op));
    WillingIs(p + 1, OperandsFor(op));
    ExecsAre(AnyContext(code), s, op);
    OperandsAre(code, p);
    if Operands(op) == 0 {
      if MakesObject(op) || LooksAtObject(op) { LookWilling(code, p); } else { StackWilling(code, p); }
    } else if Enters(op) {
      s := Willing(p + 1, []).(sp := 0);
      WillingIs(p + 1, []);
      EntryWilling(code, p, op.Cbegin?);
      ExecsAre(AnyContext(code), s, op);
    } else if op.MakeClosure? {
      ClosureWilling(code, p);
    } else if op.MakeSexp? || op.Tag? {
      TwoOperandsWilling(code, p);
    } else if op.Ld? || op.Lda? || op.St? {
      LoadWilling(code, p, op.place);
      StoreWilling(code, p, op.place);
      VariableExecs(AnyContext(code), s, op);
    } else {
      OneOperandWilling(code, p);
    }
  }

  lemma OperandsAre(code: seq<Byte>, p: nat)
    requires p < |code|
    ensures var op := OpAt(code, p); op.MakeClosure? || op.Ld? || op.Lda? || op.St? ==> OperandsFor(op) == Units(40)
  {}

  lemma VariableExecs(c: I.Context, s: I.State, op: Op)
    requires op.Ld? || op.Lda? || op.St?
    ensures op.Ld? ==> I.Exec(c, s, op) == I.ExecLd(c, s, op.place)
    ensures op.Lda? ==> I.Exec(c, s, op) == I.ExecLda(c, s, op.place)
    ensures op.St? ==> I.Exec(c, s, op) == I.ExecSt(c, s, op.place)
  {}

  /** On top of the stack, a value for which a conditional jump goes the way it is told. */
  lemma JumpsWilling(code: seq<Byte>, p: nat, jumps: bool) returns (s: I.State)
    requires p < |code| < 0x8000_0000 && p + 5 < |code| && 0 <= Int32At(code, p + 1) < |code|
    requires OpAt(code, p).Jmp? || OpAt(code, p).Cjmp?
    ensures s.ip == p + 1
    ensures var r := I.Exec(AnyContext(code), s, OpAt(code, p));
      && r.Ok? && r.value.ip == if jumps || OpAt(code, p).Jmp? then Int32At(code, p + 1) else p + 5
  {
    hide OpOf, Int32At, Willing, I.FetchIntIf;
    var op := OpAt(code, p);
    var top := if jumps == (op.Cjmp? && op.nz) then 1 else 0;
    s := Willing(p + 1, [I.Int(top)]);
    WillingIs(p + 1, [I.Int(top)]);
    F.Fetched(AnyContext(code), s);
    SmallOperand(code, p);
    OneIsOne();
    assert s.buf[1] == s.buf[1..2][0];
  }

  /** Executing from s is a step from the byte before. */
  lemma ExecIsStep(c: I.Context, p: nat, s: I.State, q: nat)
    requires c.checked && p + 1 < |c.img.code| < 0x8000_0000 && s.ip == p + 1
    requires !OpAt(c.img.code, p).Ret? && !OpAt(c.img.code, p).Stop?
    requires I.Exec(c, s, OpAt(c.img.code, p)).Ok? && I.Exec(c, s, OpAt(c.img.code, p)).value.ip == q
    ensures ContinuesAt(c.img.code, p, q)
  {
    hide OpOf, I.Exec, I.Step;
    var u := s.(ip := p);
    R.StepExecutes(c, u);
    assert u.(ip := p + 1) == s;
    assert Continues(c, u, c.img.code, p, q);
  }

  ghost predicate GoesOn(op: Op) {
    !op.Call? && !op.Callc? && !op.Ret?
  }

  lemma SuccessorIsReal(code: seq<Byte>, p: nat, q: nat)
    requires p < |code| < 0x8000_0000 && Visit(code, p).Ok? && !IsStop(code[p]) && GoesOn(OpAt(code, p))
    requires E.Whole(FileOf(code), p) && OperandsOk(code, p) && q in Successors(code, p)
    ensures ContinuesAt(code, p, q)
  {
    hide OpOf, I.Exec, Int32At, Willing, Visit, Successors, OperandsOk, ContinuesAt, AnyContext;
    SuccessorsAre(code, p);
    VisitReads(code, p);
    KindsOfOps(code[p]);
    StopIsF0(code, p);
    AnyContextIs(code);
    var op, c := OpAt(code, p), AnyContext(code);
    if op.Jmp? || op.Cjmp? {
      var s := JumpsWilling(code, p, q == Int32At(code, p + 1));
      ExecIsStep(c, p, s, q);
    } else {
      UnknownHasNoVisit(code, p);
      var s := ExecWilling(code, p);
      var t := I.Exec(c, s, op).value;
      R.StepExecutes(c, s.(ip := p));
      assert s.(ip := p).(ip := p + 1) == s;
      StepsToSuccessor(c, s.(ip := p));
      ExecIsStep(c, p, s, q);
    }
  }

  lemma AnyContextIs(code: seq<Byte>)
    ensures AnyContext(code).checked && AnyContext(code).img.code == code
  {}

  lemma UnknownHasNoVisit(code: seq<Byte>, p: nat)
    requires p < |code| && Visit(code, p).Ok? && !IsStop(code[p])
    ensures !OpAt(code, p).Unknown?
  {
    hide OpOf;
  }

  // What the operands must be

  lemma FetchGives(c: I.Context, s: I.State)
    requires c.checked && I.FetchInt(c, s).Ok? && |c.img.code| < 0x8000_0000 && s.ip < |c.img.code|
    ensures s.ip + 4 < |c.img.code| && I.FetchInt(c, s) == Ok((s.(ip := s.ip + 4), Int32At(c.img.code, s.ip)))
  {
    hide Int32At;
  }

  lemma VariableNeeds(c: I.Context, s: I.State, op: Op)
    requires c.checked && |c.img.code| < 0x8000_0000 && s.ip + 4 < |c.img.code|
    requires (op.Ld? || op.Lda? || op.St?) && I.Exec(c, s, op).Ok?
    ensures Int32At(c.img.code, s.ip) >= 0
  {
    hide Int32At, I.FetchIntIf, U32, I.Load, I.Store;
    F.Fetched(c, s);
    if op.St? { F.Fetched(c, I.Pop(c, s).value.0); }
  }

  lemma OneOperandNeeds(c: I.Context, s: I.State, op: Op)
    requires c.checked && |c.img.code| < 0x8000_0000 && s.ip + 4 < |c.img.code|
    requires !op.Ret? && !op.Stop? && I.Exec(c, s, op).Ok?
    ensures op.Str? || op.ArrayPatt? ==> Int32At(c.img.code, s.ip) >= 0
    ensures op.Barray? ==> 0 <= Int32At(c.img.code, s.ip) <= 32
  {
    hide Int32At, I.FetchIntIf, W.CString;
    F.Fetched(c, s);
  }

  lemma TagNeeds(c: I.Context, s: I.State)
    requires c.checked && |c.img.code| < 0x8000_0000 && s.ip + 8 < |c.img.code| && I.ExecTag(c, s).Ok?
    ensures Int32At(c.img.code, s.ip) >= 0 && Int32At(c.img.code, s.ip + 4) >= 0
  {
    hide Int32At, I.FetchIntIf, W.CString, I.Is, I.Push;
    F.Fetched(c, s);
    F.Fetched(c, s.(ip := s.ip + 4));
  }

  lemma SexpNeeds(c: I.Context, s: I.State)
    requires c.checked && |c.img.code| < 0x8000_0000 && s.ip + 8 < |c.img.code| && I.ExecSexp(c, s).Ok?
    ensures Int32At(c.img.code, s.ip) >= 0 && 0 <= Int32At(c.img.code, s.ip + 4) <= 32
  {
    hide Int32At, I.FetchIntIf, W.CString, I.Push;
    F.Fetched(c, s);
    F.Fetched(c, s.(ip := s.ip + 4));
  }

  lemma EntryNeeds(c: I.Context, s: I.State, cbegin: bool)
    requires c.checked && |c.img.code| < 0x8000_0000 && s.ip + 8 < |c.img.code| && I.ExecBegin(c, s, cbegin).Ok?
    ensures Int32At(c.img.code, s.ip) >= 0 && 0 <= Int32At(c.img.code, s.ip + 4) <= I.MAX_STACK_SIZE
  {
    hide Int32At, I.FetchIntIf;
    F.Fetched(c, s);
    F.Fetched(c, s.(ip := s.ip + 4));
  }

  lemma CaptureNeeds(c: I.Context, s: I.State)
    requires c.checked && |c.img.code| < 0x8000_0000 && s.ip < |c.img.code| && I.ExecCapture(c, s).Ok?
    ensures s.ip + 5 < |c.img.code| && c.img.code[s.ip] < 4 && Int32At(c.img.code, s.ip + 1) >= 0
    ensures I.ExecCapture(c, s).value.ip == s.ip + 5
  {
    hide Int32At, I.FetchIntIf, U32, I.Load;
    ByteGives(c, s);
    FetchGives(c, s.(ip := s.ip + 1));
  }

  lemma ByteGives(c: I.Context, s: I.State)
    requires c.checked && |c.img.code| < 0x8000_0000 && s.ip < |c.img.code| && I.FetchByte(c, s).Ok?
    ensures s.ip + 1 < |c.img.code| && I.FetchByte(c, s) == Ok((s.(ip := s.ip + 1), c.img.code[s.ip]))
  {}

  lemma {:induction false} CapturesNeed(c: I.Context, s: I.State, n: nat)
    requires c.checked && |c.img.code| < 0x8000_0000 && s.ip < |c.img.code| && I.ExecCaptures(c, s, n).Ok?
    ensures CapturesOk(c.img.code, s.ip, n)
    decreases n
  {
    hide Int32At, I.ExecCapture;
    if n > 0 {
      CaptureNeeds(c, s);
      CapturesNeed(c, I.ExecCapture(c, s).value, n - 1);
    }
  }

  lemma ClosureNeeds(c: I.Context, s: I.State)
    requires c.checked && |c.img.code| < 0x8000_0000 && s.ip + 8 < |c.img.code| && I.ExecClosure(c, s).Ok?
    ensures var x, y := Int32At(c.img.code, s.ip), Int32At(c.img.code, s.ip + 4);
      0 <= x < |c.img.code| && 0 <= y < 32 && CapturesOk(c.img.code, s.ip + 8, y)
  {
    hide Int32At, I.FetchIntIf, I.ExecCaptures, CapturesOk;
    F.Fetched(c, s);
    F.Fetched(c, s.(ip := s.ip + 4));
    var u := I.Push(c, s.(ip := s.ip + 8), I.Int(Int32At(c.img.code, s.ip))).value;
    CapturesNeed(c, u, Int32At(c.img.code, s.ip + 4));
  }

  lemma TwoOperandExecs(c: I.Context, s: I.State, op: Op)
    requires op.Tag? || op.MakeSexp? || op.MakeClosure? || Enters(op) || op.Fail? || op.Call?
    ensures op.Tag? ==> I.Exec(c, s, op) == I.ExecTag(c, s)
    ensures op.MakeSexp? ==> I.Exec(c, s, op) == I.ExecSexp(c, s)
  {}

  lemma ContinuingNeeds(c: I.Context, s: I.State)
    requires c.checked && s.ip < |c.img.code| < 0x8000_0000 && Visit(c.img.code, s.ip).Ok?
    requires I.Step(c, s).Ok? && I.Step(c, s).value.Continue? && GoesOn(OpAt(c.img.code, s.ip))
    ensures E.Whole(FileOf(c.img.code), s.ip) && OperandsOk(c.img.code, s.ip)
  {
    hide OpOf, I.Exec, I.Step, Visit, I.ExecClosure, Int32At, CapturesOk;
    var code, p := c.img.code, s.ip;
    NotStopped(c, s);
    StopIsF0(code, p);
    VisitReads(code, p);
    R.StepBegins(c, s);
    R.StepExecutes(c, s);
    var u, op := s.(ip := s.ip + 1), OpAt(code, p);
    if Operands(op) == 1 {
      OneOperandNeeds(c, u, op);
      if op.Ld? || op.Lda? || op.St? { VariableNeeds(c, u, op); }
    } else if Operands(op) == 2 {
      ExecsAre(c, u, op);
      TwoOperandExecs(c, u, op);
      if op.MakeClosure? { ClosureNeeds(c, u); }
      else if op.Tag? { TagNeeds(c, u); }
      else if op.MakeSexp? { SexpNeeds(c, u); }
      else if Enters(op) { EntryNeeds(c, u, op.Cbegin?); }
    }
  }

  /** From p the checked interpreter can go on to q, from some state with some file of this
      code, if and only if q is a successor and the operands are not hopeless. */
  lemma ContinuesIff(code: seq<Byte>, p: nat, q: nat)
    requires p < |code| < 0x8000_0000 && Visit(code, p).Ok? && !IsStop(code[p]) && GoesOn(OpAt(code, p))
    ensures E.Whole(FileOf(code), p)
    ensures ContinuesAt(code, p, q) <==> q in Successors(code, p) && OperandsOk(code, p)
  {
    hide OpOf, I.Step, Visit, Successors, OperandsOk;
    VisitReads(code, p);
    if ContinuesAt(code, p, q) {
      var c: I.Context, s: I.State :| Continues(c, s, code, p, q);
      StepsToSuccessor(c, s);
      ContinuingNeeds(c, s);
    }
    if q in Successors(code, p) && OperandsOk(code, p) { SuccessorIsReal(code, p, q); }
  }

  /** What falls through moves by the length that the disassembler reports; jumps go to their
      operand, conditional ones there or on. */
  lemma MovesByDisassemble(c: I.Context, s: I.State)
    requires c.checked && s.ip < |c.img.code| < 0x8000_0000 && Visit(c.img.code, s.ip).Ok?
    requires I.Step(c, s).Ok? && I.Step(c, s).value.Continue? && GoesOn(OpAt(c.img.code, s.ip))
    ensures var op, t := OpAt(c.img.code, s.ip), I.Step(c, s).value.state;
      var next := s.ip + Disassemble(c.img.code, s.ip).value;
      && (!op.Jmp? && !op.Cjmp? ==> t.ip == next)
      && (op.Cjmp? ==> s.ip + 5 < |c.img.code| && (t.ip == next || t.ip == Int32At(c.img.code, s.ip + 1)))
      && (op.Jmp? ==> s.ip + 5 < |c.img.code| && t.ip == Int32At(c.img.code, s.ip + 1))
  {
    hide OpOf, I.Exec, I.Step, Visit, Successors, Int32At, Disassemble, E.Length, E.Whole;
    var code, p := c.img.code, s.ip;
    NotStopped(c, s);
    SuccessorsAre(code, p);
    VisitReads(code, p);
    DisassembleIsLength(code, p);
    KindsOfOps(code[p]);
    StepsToSuccessor(c, s);
  }

  /** A call goes to its operand, and will come back behind itself. */
  lemma CallsByDisassemble(c: I.Context, s: I.State)
    requires c.checked && s.ip < |c.img.code| < 0x8000_0000 && Visit(c.img.code, s.ip).Ok?
    requires I.Step(c, s).Ok? && I.Step(c, s).value.Continue?
    requires OpAt(c.img.code, s.ip).Call? || OpAt(c.img.code, s.ip).Callc?
    ensures var op, t := OpAt(c.img.code, s.ip), I.Step(c, s).value.state;
      && (op.Call? ==> s.ip + 5 < |c.img.code| && t.ip == Int32At(c.img.code, s.ip + 1))
      && t.frames != [] && t.frames[|t.frames| - 1].ret == s.ip + Disassemble(c.img.code, s.ip).value
  {
    hide OpOf, I.Exec, I.Step, Visit, Int32At, I.ExecCall, I.ExecCallc, U32, Disassemble;
    var code, p := c.img.code, s.ip;
    NotStopped(c, s);
    VisitReads(code, p);
    DisassembleIsLength(code, p);
    KindsOfOps(code[p]);
    R.StepBegins(c, s);
    R.StepExecutes(c, s);
    var u, op := s.(ip := s.ip + 1), OpAt(code, p);
    ExecsAre(c, u, op);
    if op.Call? { F.CallMoves(c, u); SmallOperand(code, p); } else { F.CallcMoves(c, u); }
  }

  // Jump targets and pairs, by the operations

  /** q is the operand of a jump or call at p, or behind the call at p. */
  ghost predicate TargetedFrom(code: seq<Byte>, p: nat, q: int)
    requires p < |code| && E.Whole(FileOf(code), p)
  {
    var op := OpAt(code, p);
    || ((op.Jmp? || op.Cjmp? || op.Call? || op.Callc?) && q == Int32At(code, p + 1))
    || ((op.Call? || op.Callc?) && q == p + E.Length(FileOf(code), p))
  }

  lemma MarksAre(code: seq<Byte>, p: nat, q: nat)
    requires p < |code| < 0x8000_0000 && Visit(code, p).Ok? && !IsStop(code[p])
    ensures E.Whole(FileOf(code), p) && (Marks(code, p, q) <==> TargetedFrom(code, p, q))
  {
    hide OpOf, Int32At, Disassemble;
    VisitReads(code, p);
    DisassembleIsLength(code, p);
    KindsOfOps(code[p]);
    if IsJump(code[p]) || IsCall(code[p]) { SmallOperand(code, p); }
  }

  /** The jump targets are the entries, the operands of reachable jumps and calls, and what
      follows reachable calls. */
  lemma JumpTargetsAre(code: seq<Byte>, entries: set<nat>, q: nat)
    requires AllGood(code, entries) && |code| < 0x8000_0000
    requires Sweepable(code, ReachableFrom(code, entries))
    ensures forall p :: p in ReachableFrom(code, entries) ==> p < |code| && E.Whole(FileOf(code), p)
    ensures IsJumpTarget(code, entries, q) <==>
      q in entries || exists p :: p in ReachableFrom(code, entries) && TargetedFrom(code, p, q)
  {
    hide Visit, Marks, TargetedFrom, Explored, E.Whole, ReachableFrom;
    forall p | p in ReachableFrom(code, entries)
      ensures p < |code| && E.Whole(FileOf(code), p) && (Marks(code, p, q) <==> TargetedFrom(code, p, q))
    {
      MarksAre(code, p, q);
    }
  }

  /** Control goes on behind the instruction, and not from a call back to it. */
  ghost predicate MayBeginPair(op: Op) {
    !op.Call? && !op.Callc? && !op.Jmp? && !op.Ret? && !op.Fail? && !op.Stop?
  }

  /** An instruction that is reachable, or two in a row: the first neither a call nor the end
      of a block, the second no jump target. */
  ghost predicate Collectable(code: seq<Byte>, reached: set<nat>, targets: set<nat>, i: Idiom)
    requires forall p :: p in reached ==> p < |code| && E.Whole(FileOf(code), p)
  {
    i.pos in reached &&
    (i.size == 1 ||
     (i.size == 2 && MayBeginPair(OpAt(code, i.pos)) && i.pos + E.Length(FileOf(code), i.pos) !in targets))
  }

  lemma WantedIsCollectable(code: seq<Byte>, reached: set<nat>, targets: set<nat>, i: Idiom)
    requires Sweepable(code, reached) && i.pos in reached
    ensures i.pos < |code| && E.Whole(FileOf(code), i.pos)
    ensures IsPair(code, targets, i.pos) <==>
      MayBeginPair(OpAt(code, i.pos)) && i.pos + E.Length(FileOf(code), i.pos) !in targets
  {
    hide OpOf, Disassemble, Int32At, TargetOf;
    assert Explored(code, reached, i.pos);
    VisitReads(code, i.pos);
    LengthInside(code, reached, i.pos);
    DisassembleIsLength(code, i.pos);
    KindsOfOps(code[i.pos]);
  }

  lemma SweepableIsWhole(code: seq<Byte>, reached: set<nat>)
    requires Sweepable(code, reached)
    ensures forall p :: p in reached ==> p < |code| && E.Whole(FileOf(code), p)
  {
    hide Visit, E.Whole, IsPair, OpAt, E.Length;
    forall p | p in reached ensures p < |code| && E.Whole(FileOf(code), p) {
      WantedIsCollectable(code, reached, {}, Idiom(p, 1));
    }
  }

  /** Without overlaps, the sweep collects each of these exactly once and nothing else. */
  lemma SweepCollectsExactly(code: seq<Byte>, reached: set<nat>, targets: set<nat>, i: Idiom)
    requires Sweepable(code, reached) && Apart(code, reached)
    ensures forall p :: p in reached ==> p < |code| && E.Whole(FileOf(code), p)
    ensures multiset(Sweep(code, reached, targets, 0))[i] == if Collectable(code, reached, targets, i) then 1 else 0
  {
    hide E.Whole, IsPair, OpAt, E.Length, Sweepable, Apart, Sweep;
    SweepableIsWhole(code, reached);
    SweepIsExact(code, reached, targets);
    if i.pos in reached { WantedIsCollectable(code, reached, targets, i); }
  }
}
