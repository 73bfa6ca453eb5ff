/** What an instruction that is no call, return or entry does to the machine's shape. */
module Effects {
  import opened Bytecode
  import opened Interpreter
  import W = Words
  import opened Erasure

  /** The net effect on the operand stack: get_stack_delta, with +1 for CLOSURE. */
  function Delta(op: Op, x: int, y: int): int {
    match op
    case Binop(_) => -1 case Eq => -1 case Sti => -1 case Drop => -1 case Elem => -1
    case Cjmp(_) => -1 case Fail => -1 case PattStr => -1
    case Const => 1 case Str => 1 case Dup => 1 case Ld(_) => 1 case Lda(_) => 1 case Lread => 1
    case MakeSexp => 1 - y
    case Call => 1 - y
    case MakeClosure => 1
    case Callc => -x
    case Barray => 1 - x
    case _ => 0
  }

  /** How many operands the instruction takes from the stack. */
  function Needs(op: Op, x: int, y: int): int {
    match op
    case Binop(_) => 2 case Eq => 2 case Sti => 2 case Elem => 2 case PattStr => 2 case Swap => 2
    case Drop => 1 case Dup => 1 case St(_) => 1 case Cjmp(_) => 1 case Fail => 1 case Ret => 1
    case Tag => 1 case ArrayPatt => 1 case Patt(_) => 1 case Lwrite => 1 case Llength => 1 case Lstring => 1
    case MakeSexp => y
    case Call => y
    case Callc => x + 1
    case Barray => x
    case _ => 0
  }

  function First(c: Context, p: nat): int {
    if p + 4 <= |c.img.code| then Int32At(c.img.code, p) else 0
  }

  ghost predicate NoNewClosures(s: State, t: State) {
    forall i :: 0 <= i < |t.heap| && t.heap[i].Closure? ==>
      i < |s.heap| && s.heap[i].Closure? && s.heap[i].code == t.heap[i].code
  }

  /** From s to t nothing but the instruction pointer, the stack, the heap and the channels changed. */
  ghost predicate SameShape(s: State, t: State) {
    t.frames == s.frames && t.tmp == s.tmp && |t.buf| == |s.buf| && NoNewClosures(s, t)
  }

  ghost predicate Moves(c: Context, s: State, t: State, op: Op) {
    && SameShape(s, t)
    && (if op.Sta? then t.sp == s.sp - 1 || t.sp == s.sp - 2
        else t.sp == s.sp + Delta(op, First(c, s.ip), First(c, s.ip + 4)))
    && (t.sp > s.sp ==> t.sp <= |s.buf|)
    && (t.ip == s.ip + 4 * Operands(op) || ((op.Jmp? || op.Cjmp?) && t.ip == U32(First(c, s.ip))))
    && (op.Jmp? ==> t.ip == U32(First(c, s.ip)))
  }

  lemma FetchMoves(validate: bool, c: Context, s: State)
    requires |c.img.code| < NO_ADDRESS
    ensures var r := FetchIntIf(validate, c, s); r.Ok? ==> r.value == (s.(ip := s.ip + 4), First(c, s.ip))
    ensures FetchIntIf(validate, c, s) != Fails(Underflow)
  {
    hide Int32At;
    if s.ip + 4 <= |c.img.code| { SmallU32(s.ip + 4); }
  }

  lemma Fetched(c: Context, s: State)
    requires c.checked && s.ip + 4 < |c.img.code| < 0x8000_0000
    ensures FetchInt(c, s) == Ok((s.(ip := s.ip + 4), Int32At(c.img.code, s.ip)))
  {
    hide Int32At;
  }

  lemma StackMoves(c: Context)
    ensures forall s, v :: Push(c, s, v).Ok? ==>
      var t := Push(c, s, v).value; t == s.(sp := s.sp + 1, buf := t.buf) && |t.buf| == |s.buf| > s.sp
    ensures forall s :: Pop(c, s).Ok? ==>
      var (t, v) := Pop(c, s).value; s.sp > 0 && t == s.(sp := s.sp - 1)
  {}

  lemma BinopMoves(c: Context, s: State, k: Byte)
    requires ExecBinop(c, s, k).Ok?
    ensures Moves(c, s, ExecBinop(c, s, k).value, Binop(k))
  {
    hide I32, U32, First, Push, Pop, Binary;
    StackMoves(c);
  }

  lemma EqMoves(c: Context, s: State)
    requires ExecEq(c, s).Ok?
    ensures Moves(c, s, ExecEq(c, s).value, Eq)
  {
    hide I32, U32, First, Push, Pop;
    StackMoves(c);
  }

  lemma StiMoves(c: Context, s: State)
    requires ExecSti(c, s).Ok?
    ensures Moves(c, s, ExecSti(c, s).value, Sti)
  {
    hide I32, U32, First;
  }

  lemma SwapMoves(c: Context, s: State)
    requires ExecSwap(c, s).Ok?
    ensures Moves(c, s, ExecSwap(c, s).value, Swap)
  {
    hide I32, U32, First;
  }

  lemma OtherOnStackMoves(c: Context, s: State, op: Op)
    requires op.Drop? || op.Dup? || op.Lread?
    requires Exec(c, s, op).Ok?
    ensures Moves(c, s, Exec(c, s, op).value, op)
  {
    hide I32, U32, First, Push, Pop;
    StackMoves(c);
  }

  lemma OnStackMoves(c: Context, s: State, op: Op)
    requires OnStackOnly(op) && Exec(c, s, op).Ok?
    ensures Moves(c, s, Exec(c, s, op).value, op)
  {
    hide Moves, ExecBinop, ExecEq, ExecSti, ExecSwap, ExecDrop, ExecDup, ExecLread;
    match op
    case Binop(k) => BinopMoves(c, s, k);
    case Eq => EqMoves(c, s);
    case Sti => StiMoves(c, s);
    case Swap => SwapMoves(c, s);
    case _ => OtherOnStackMoves(c, s, op);
  }

  /** A store leaves the frames and the size of the stack alone, and no closure gets new code. */
  lemma StoreKeeps(s: State, address: Value, v: Value)
    requires Store(s, address, v).Ok?
    ensures var t := Store(s, address, v).value; SameShape(s, t) && t.sp == s.sp && t.ip == s.ip
  {}

  lemma SetElementKeeps(s: State, id: nat, i: nat, v: Value)
    requires id < |s.heap| && !s.heap[id].Closure? && i < Size(s.heap[id]) && SetElement(s, id, i, v).Ok?
    ensures var t := SetElement(s, id, i, v).value; SameShape(s, t) && t.sp == s.sp && t.ip == s.ip
  {}

  lemma StaMoves(c: Context, s: State)
    requires ExecSta(c, s).Ok?
    ensures Moves(c, s, ExecSta(c, s).value, Sta)
  {
    hide I32, Aggregate, Size, U32, First, Store, SetElement, Push, Pop;
    StackMoves(c);
    var (a, v) := Pop(c, s).value;
    var (b, selector) := Pop(c, a).value;
    if !selector.Int? {
      StoreKeeps(b, selector, v);
    } else {
      var (d, target) := Pop(c, b).value;
      SetElementKeeps(d, target.id, I32(selector.n), v);
    }
  }

  lemma OnHeapMoves(c: Context, s: State, op: Op)
    requires Plain(op) && Operands(op) == 0 && !OnStackOnly(op) && !op.Sta? && Exec(c, s, op).Ok?
    ensures Moves(c, s, Exec(c, s, op).value, op)
  {
    hide I32, Is, Element, Size, W.CString, U32, First, Push, Pop;
    StackMoves(c);
  }

  lemma OnVariableMoves(c: Context, s: State, op: Op)
    requires OnVariable(op) && Exec(c, s, op).Ok? && |c.img.code| < NO_ADDRESS
    ensures Moves(c, s, Exec(c, s, op).value, op)
  {
    hide I32, U32, First, FetchIntIf, Locate, Load, Push, Pop;
    StackMoves(c);
    var u := if op.St? then Pop(c, s).value.0 else s;
    FetchMoves(c.checked || op.place.Captured?, c, u);
  }

  lemma ExecOf(c: Context, s: State, op: Op)
    requires !op.Ret? && !op.Stop?
    ensures op.Sta? ==> Exec(c, s, op) == ExecSta(c, s)
  {}

  lemma CjmpMoves(c: Context, s: State, nz: bool)
    requires ExecCjmp(c, s, nz).Ok? && |c.img.code| < NO_ADDRESS
    ensures Moves(c, s, ExecCjmp(c, s, nz).value, Cjmp(nz))
  {
    hide I32, U32, First, FetchIntIf;
    FetchMoves(c.checked, c, s);
  }

  lemma BarrayMoves(c: Context, s: State)
    requires ExecBarray(c, s).Ok? && |c.img.code| < NO_ADDRESS
    ensures Moves(c, s, ExecBarray(c, s).value, Barray)
  {
    hide I32, U32, First, FetchIntIf;
    FetchMoves(c.checked, c, s);
  }

  lemma StringMoves(c: Context, s: State)
    requires ExecString(c, s).Ok? && |c.img.code| < NO_ADDRESS
    ensures Moves(c, s, ExecString(c, s).value, Str)
  {
    hide I32, U32, First, FetchIntIf, Push, Pop, W.CString;
    StackMoves(c);
    FetchMoves(c.checked, c, s);
  }

  lemma ArrayPattMoves(c: Context, s: State)
    requires ExecArrayPatt(c, s).Ok? && |c.img.code| < NO_ADDRESS
    ensures Moves(c, s, ExecArrayPatt(c, s).value, ArrayPatt)
  {
    hide I32, U32, First, FetchIntIf, Push, Pop, Header;
    StackMoves(c);
    FetchMoves(c.checked, c, s);
  }

  lemma JmpMoves(c: Context, s: State)
    requires ExecJmp(c, s).Ok? && |c.img.code| < NO_ADDRESS
    ensures Moves(c, s, ExecJmp(c, s).value, Jmp)
  {
    hide I32, U32, First, FetchIntIf, Push, Pop;
    StackMoves(c);
    FetchMoves(c.checked, c, s);
  }

  lemma OtherOneOperandMoves(c: Context, s: State, op: Op)
    requires op.Const? || op.Line?
    requires Exec(c, s, op).Ok? && |c.img.code| < NO_ADDRESS
    ensures Moves(c, s, Exec(c, s, op).value, op)
  {
    hide I32, U32, First, FetchIntIf, Push, Pop;
    StackMoves(c);
    FetchMoves(c.checked, c, s);
  }

  lemma OneOperandMoves(c: Context, s: State, op: Op)
    requires Plain(op) && !OnVariable(op) && Operands(op) == 1 && Exec(c, s, op).Ok? && |c.img.code| < NO_ADDRESS
    ensures Moves(c, s, Exec(c, s, op).value, op)
  {
    hide Moves, ExecCjmp, ExecBarray, ExecString, ExecArrayPatt, ExecJmp, ExecConst, ExecLine;
    match op
    case Cjmp(nz) => CjmpMoves(c, s, nz);
    case Barray => BarrayMoves(c, s);
    case Str => StringMoves(c, s);
    case ArrayPatt => ArrayPattMoves(c, s);
    case Jmp => JmpMoves(c, s);
    case _ => OtherOneOperandMoves(c, s, op);
  }

  lemma SexpMoves(c: Context, s: State)
    requires ExecSexp(c, s).Ok? && |c.img.code| < NO_ADDRESS
    ensures Moves(c, s, ExecSexp(c, s).value, MakeSexp)
  {
    hide I32, U32, First, FetchIntIf, Push, Pop, W.CString;
    StackMoves(c);
    FetchMoves(c.checked, c, s);
    FetchMoves(c.checked, c, s.(ip := s.ip + 4));
  }

  lemma TagMoves(c: Context, s: State)
    requires ExecTag(c, s).Ok? && |c.img.code| < NO_ADDRESS
    ensures Moves(c, s, ExecTag(c, s).value, Tag)
  {
    hide I32, U32, First, FetchIntIf, Push, Pop, W.CString, Header, Is;
    StackMoves(c);
    FetchMoves(c.checked, c, s);
    FetchMoves(c.checked, c, s.(ip := s.ip + 4));
  }

  lemma TwoOperandsMove(c: Context, s: State, op: Op)
    requires Plain(op) && Operands(op) == 2 && Exec(c, s, op).Ok? && |c.img.code| < NO_ADDRESS
    ensures Moves(c, s, Exec(c, s, op).value, op)
  {
    hide Moves, ExecSexp, ExecTag, ExecFail;
    match op
    case MakeSexp => SexpMoves(c, s);
    case Tag => TagMoves(c, s);
    case Fail => FailFails(c, s);
  }

  lemma FailFails(c: Context, s: State)
    ensures !ExecFail(c, s).Ok?
  {}

  lemma PlainMoves(c: Context, s: State, op: Op)
    requires Plain(op) && Exec(c, s, op).Ok? && |c.img.code| < NO_ADDRESS
    ensures Moves(c, s, Exec(c, s, op).value, op)
  {
    hide Exec, Moves;
    ExecOf(c, s, op);
    if op.Sta? { StaMoves(c, s); } else
    if OnVariable(op) { OnVariableMoves(c, s, op); }
    else if Operands(op) == 1 { OneOperandMoves(c, s, op); }
    else if Operands(op) == 2 { TwoOperandsMove(c, s, op); }
    else if OnStackOnly(op) { OnStackMoves(c, s, op); }
    else { OnHeapMoves(c, s, op); }
  }

  // Only a stack with too few operands underflows

  lemma StackUnderflows(c: Context)
    ensures forall s, v :: Push(c, s, v) != Fails(Underflow)
    ensures forall s :: if Pop(c, s).Ok?
        then s.sp > 0 && Pop(c, s).value.0.sp == s.sp - 1
        else Pop(c, s) == Fails(Underflow) ==> s.sp == 0
  {}

  lemma NothingElseUnderflows(c: Context)
    ensures forall s, v, kind :: Is(s, v, kind) != Fails(Underflow)
    ensures forall s, v :: Aggregate(s, v) != Fails(Underflow)
    ensures forall s, place, index :: Locate(c, s, place, index) != Fails(Underflow)
    ensures forall k, x, y :: Binary(k, x, y) != Fails(Underflow)
    ensures forall s, address, v :: Store(s, address, v).Ok? ==> Store(s, address, v).value.sp == s.sp
    ensures forall s, address, v :: Store(s, address, v) != Fails(Underflow)
  {}

  lemma FetchNeverUnderflows(c: Context)
    ensures forall s, validate :: FetchIntIf(validate, c, s) != Fails(Underflow)
    ensures forall s, validate :: FetchIntIf(validate, c, s).Ok? ==> FetchIntIf(validate, c, s).value.0.sp == s.sp
  {
    hide Int32At, U32;
  }

  lemma OnStackUnderflow(c: Context, s: State, op: Op)
    requires OnStackOnly(op) && Exec(c, s, op) == Fails(Underflow)
    ensures s.sp < Needs(op, 0, 0)
  {
    hide I32, Push, Pop, Binary, Store;
    StackUnderflows(c);
    NothingElseUnderflows(c);
  }

  lemma OnHeapUnderflow(c: Context, s: State, op: Op)
    requires Plain(op) && Operands(op) == 0 && !OnStackOnly(op) && !op.Sta? && Exec(c, s, op) == Fails(Underflow)
    ensures s.sp < Needs(op, 0, 0)
  {
    hide I32, Push, Pop, Is, Aggregate, Element, Size, W.CString;
    StackUnderflows(c);
    NothingElseUnderflows(c);
  }

  lemma OnVariableUnderflow(c: Context, s: State, op: Op)
    requires OnVariable(op) && Exec(c, s, op) == Fails(Underflow)
    ensures s.sp < Needs(op, 0, 0)
  {
    hide I32, U32, Push, Pop, FetchIntIf, Locate, Store;
    StackUnderflows(c);
    FetchNeverUnderflows(c);
    NothingElseUnderflows(c);
  }

  lemma CjmpUnderflow(c: Context, s: State, nz: bool)
    requires ExecCjmp(c, s, nz) == Fails(Underflow)
    ensures s.sp < 1
  {
    hide I32, U32, FetchIntIf;
    FetchNeverUnderflows(c);
  }

  lemma BarrayUnderflow(c: Context, s: State)
    ensures ExecBarray(c, s) != Fails(Underflow)
  {
    hide U32, FetchIntIf;
    FetchNeverUnderflows(c);
  }

  lemma OneOperandUnderflow(c: Context, s: State, op: Op)
    requires Plain(op) && !OnVariable(op) && Operands(op) == 1 && |c.img.code| < NO_ADDRESS
    requires Exec(c, s, op) == Fails(Underflow)
    ensures s.sp < Needs(op, First(c, s.ip), First(c, s.ip + 4))
  {
    hide I32, U32, Push, Pop, FetchIntIf, First, ExecCjmp, ExecBarray, W.CString;
    if op.Cjmp? { CjmpUnderflow(c, s, op.nz); }
    else if op.Barray? { BarrayUnderflow(c, s); }
    else {
      StackUnderflows(c);
      FetchNeverUnderflows(c);
    }
  }

  lemma TwoOperandsUnderflow(c: Context, s: State, op: Op)
    requires Plain(op) && Operands(op) == 2 && |c.img.code| < NO_ADDRESS
    requires Exec(c, s, op) == Fails(Underflow)
    ensures s.sp < Needs(op, First(c, s.ip), First(c, s.ip + 4))
  {
    hide I32, U32, Push, Pop, FetchIntIf, First, Is, W.CString;
    StackUnderflows(c);
    NothingElseUnderflows(c);
    FetchMoves(c.checked, c, s);
    FetchMoves(c.checked, c, s.(ip := s.ip + 4));
  }

  lemma PlainUnderflow(c: Context, s: State, op: Op)
    requires Plain(op) && !op.Sta? && |c.img.code| < NO_ADDRESS
    requires Exec(c, s, op) == Fails(Underflow)
    ensures s.sp < Needs(op, First(c, s.ip), First(c, s.ip + 4))
  {
    hide Exec;
    if OnVariable(op) { OnVariableUnderflow(c, s, op); }
    else if Operands(op) == 1 { OneOperandUnderflow(c, s, op); }
    else if Operands(op) == 2 { TwoOperandsUnderflow(c, s, op); }
    else if OnStackOnly(op) { OnStackUnderflow(c, s, op); }
    else { OnHeapUnderflow(c, s, op); }
  }

  // Closures, calls and entries

  lemma {:induction false} CapturesMove(c: Context, s: State, n: nat)
    requires ExecCaptures(c, s, n).Ok? && |c.img.code| < NO_ADDRESS
    ensures var t := ExecCaptures(c, s, n).value;
      t == s.(ip := s.ip + 5 * n, sp := s.sp + n, buf := t.buf) && |t.buf| == |s.buf|
    decreases n
  {
    hide U32, I32, FetchIntIf, Locate, Load, First;
    if n > 0 {
      SmallU32(s.ip + 1);
      var (t, byte) := FetchByte(c, s).value;
      FetchMoves(c.checked, c, t);
      var (u, index) := FetchInt(c, t).value;
      var v := Load(u, Locate(c, u, PlaceOf(byte), index).value).value;
      CapturesMove(c, Push(c, u, v).value, n - 1);
    }
  }

  lemma ClosureMoves(c: Context, s: State)
    requires ExecClosure(c, s).Ok? && |c.img.code| < NO_ADDRESS
    ensures var t := ExecClosure(c, s).value;
      && 0 <= First(c, s.ip + 4) && t.ip == s.ip + 8 + 5 * First(c, s.ip + 4) && t.sp == s.sp + 1
      && t.frames == s.frames && t.tmp == s.tmp && s.sp < |t.buf| == |s.buf|
      && |t.heap| == |s.heap| + 1 && t.heap[..|s.heap|] == s.heap
      && t.heap[|s.heap|].Closure? && t.heap[|s.heap|].code == First(c, s.ip)
  {
    hide U32, I32, First, FetchIntIf, ExecCaptures;
    var s2 := s.(ip := s.ip + 8);
    FetchMoves(c.checked, c, s);
    FetchMoves(c.checked, c, s.(ip := s.ip + 4));
    CapturesMove(c, Push(c, s2, Int(First(c, s.ip))).value, First(c, s.ip + 4));
  }

  lemma HalvesAreSmall(x: int)
    ensures LowHalf(x) <= 0xFFFF && HighHalf(x) <= 0xFFFF
    ensures 0 <= x <= MAX_STACK_SIZE ==> U32(x) == x
  {}

  /** Entry: a frame above the arguments, and the locals. */
  lemma BeginMoves(c: Context, s: State, cbegin: bool)
    requires ExecBegin(c, s, cbegin).Ok? && |c.img.code| < NO_ADDRESS
    ensures var t := ExecBegin(c, s, cbegin).value;
      && t.ip == s.ip + 8 && t.heap == s.heap && t.buf == s.buf
      && |t.frames| == |s.frames| + 1 && t.frames[..|s.frames|] == s.frames
      && var f := t.frames[|s.frames|];
         && f.base == U32(s.sp) && f.args == U32(First(c, s.ip))
          && f.closure == (cbegin || s.tmp) && f.ret == NO_ADDRESS
         && f.locals == (if c.checked then U32(First(c, s.ip + 4)) else LowHalf(First(c, s.ip + 4)))
         && t.sp == s.sp + f.locals <= MAX_STACK_SIZE + 0xFFFF && t.tmp == (cbegin && s.tmp)
  {
    hide U32, I32, First, FetchIntIf, LowHalf, HighHalf;
    FetchMoves(c.checked, c, s);
    FetchMoves(c.checked, c, s.(ip := s.ip + 4));
    HalvesAreSmall(First(c, s.ip + 4));
  }

  /** s with its last frame about to call, so that it returns to ip. */
  ghost predicate Calls(s: State, t: State, ip: nat) {
    && s.frames != [] && t.heap == s.heap && t.buf == s.buf && t.sp == s.sp
    && var last := |s.frames| - 1; t.frames == s.frames[last := s.frames[last].(ret := ip)]
  }

  lemma CallMoves(c: Context, s: State)
    requires ExecCall(c, s).Ok? && |c.img.code| < NO_ADDRESS
    ensures var t := ExecCall(c, s).value;
      && Calls(s, t, s.ip + 8) && t.ip == U32(First(c, s.ip)) && !t.tmp
      && t.ip < |c.img.code| && OpAt(c.img, t.ip).Begin?
  {
    hide U32, I32, First, FetchIntIf, OpOf;
    FetchMoves(c.checked, c, s);
    FetchMoves(c.checked, c, s.(ip := s.ip + 4));
  }

  lemma CallcMoves(c: Context, s: State)
    requires ExecCallc(c, s).Ok? && |c.img.code| < NO_ADDRESS
    ensures var t := ExecCallc(c, s).value;
      && Calls(s, t, s.ip + 4) && t.tmp && t.ip < |c.img.code| && Enters(OpAt(c.img, t.ip))
      && 0 <= s.sp - U32(First(c, s.ip)) - 1 < |s.buf|
      && var v := s.buf[s.sp - U32(First(c, s.ip)) - 1];
         v.Obj? && v.id < |s.heap| && s.heap[v.id].Closure? && t.ip == U32(s.heap[v.id].code)
  {
    hide U32, I32, First, FetchIntIf, OpOf;
    FetchMoves(c.checked, c, s);
  }

  /** A return drops the frame with its arguments and closure, and leaves the result there. */
  lemma RetMoves(c: Context, s: State)
    requires ExecRet(c, s).Ok?
    ensures s.frames != [] && var last := |s.frames| - 1;
      var f, r := s.frames[last], ExecRet(c, s).value;
      var bottom := U32(f.base - f.args) - if f.closure then 1 else 0;
      && s.sp > 0 && (r.Halt? <==> last == 0)
      && (r.Continue? ==>
           && r.state.frames == s.frames[..last] && r.state.ip == s.frames[last - 1].ret
           && r.state.sp == bottom + 1 && bottom < |s.buf| == |r.state.buf|
           && r.state.heap == s.heap && r.state.buf[bottom] == s.buf[s.sp - 1])
  {
    hide U32;
  }

  lemma RetUnderflows(c: Context, s: State)
    requires ExecRet(c, s) == Fails(Underflow)
    ensures s.sp == 0 || s.frames == []
  {
    hide U32, Push, Pop;
    StackUnderflows(c);
    PopKeepsFrames(c);
  }

  lemma PopKeepsFrames(c: Context)
    ensures forall s :: Pop(c, s).Ok? ==> Pop(c, s).value.0.frames == s.frames
  {}

  lemma {:induction false} CapturesUnderflow(c: Context, s: State, n: nat)
    ensures ExecCaptures(c, s, n) != Fails(Underflow)
    decreases n
  {
    hide U32, I32, FetchIntIf, Locate, Push;
    FetchNeverUnderflows(c);
    NothingElseUnderflows(c);
    StackUnderflows(c);
    if n > 0 && FetchByte(c, s).Ok? {
      var (t, byte) := FetchByte(c, s).value;
      if FetchInt(c, t).Ok? && byte < 4 {
        var (u, index) := FetchInt(c, t).value;
        var address := Locate(c, u, PlaceOf(byte), index);
        if address.Ok? && Load(u, address.value).Ok? {
          var v := Load(u, address.value).value;
          if Push(c, u, v).Ok? { CapturesUnderflow(c, Push(c, u, v).value, n - 1); }
        }
      }
    }
  }

  lemma OthersNeverUnderflow(c: Context, s: State, op: Op)
    requires Enters(op) || op.Call? || op.Callc?
    ensures Exec(c, s, op) != Fails(Underflow)
  {
    hide U32, I32, FetchIntIf, Is, OpOf, LowHalf, HighHalf;
    FetchNeverUnderflows(c);
    NothingElseUnderflows(c);
  }

  lemma ClosureUnderflow(c: Context, s: State)
    requires |c.img.code| < NO_ADDRESS
    ensures ExecClosure(c, s) != Fails(Underflow)
  {
    hide U32, I32, FetchIntIf, ExecCaptures;
    FetchMoves(c.checked, c, s);
    FetchNeverUnderflows(c);
    if FetchInt(c, s).Ok? {
      var (s1, target) := FetchInt(c, s).value;
      FetchMoves(c.checked, c, s1);
      if FetchInt(c, s1).Ok? {
        var (s2, n) := FetchInt(c, s1).value;
        if Push(c, s2, Int(target)).Ok? {
          var s3 := Push(c, s2, Int(target)).value;
          var m := if n < 0 then 0 else n;
          CapturesUnderflow(c, s3, m);
          if ExecCaptures(c, s3, m).Ok? { CapturesMove(c, s3, m); }
        }
      }
    }
  }
}
