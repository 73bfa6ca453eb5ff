/** Instruction by instruction, the unchecked interpreter does what the checked one did. */
module Erasure {
  import opened Bytecode
  import opened Interpreter
  import W = Words

  ghost predicate SameBytes(a: Image, b: Image, from: nat, to: nat) {
    to <= |a.code| && to <= |b.code| && forall q :: from <= q < to ==> a.code[q] == b.code[q]
  }

  ghost function OpAt(img: Image, p: nat): Op
    requires p < |img.code|
  {
    OpOf(img.code[p])
  }

  /** The instruction at p has all its operands inside the code. */
  ghost predicate Whole(img: Image, p: nat) {
    p < |img.code| && p + 1 + 4 * Operands(OpAt(img, p)) <= |img.code|
  }

  ghost function Length(img: Image, p: nat): nat
    requires Whole(img, p)
  {
    1 + 4 * Operands(OpAt(img, p)) +
    if OpAt(img, p).MakeClosure? then
      var n := Int32At(img.code, p + 5);
      if n < 0 then 0 else 5 * n
    else 0
  }

  /** b is a up to the high half of the second operand of BEGIN and CBEGIN. */
  ghost predicate AgreeAt(a: Image, b: Image, p: nat) {
    && Whole(a, p) && p + Length(a, p) <= |a.code| == |b.code|
    && if Enters(OpAt(a, p)) then
         && SameBytes(a, b, p, p + 5)
         && 0 <= Int32At(a.code, p + 5) < 0x1_0000
         && LowHalf(Int32At(b.code, p + 5)) == Int32At(a.code, p + 5)
       else
         SameBytes(a, b, p, p + Length(a, p))
  }

  /** The instruction at p leads to instructions only, however it goes on. */
  ghost predicate ClosedAt(img: Image, starts: set<int>, p: nat) {
    Whole(img, p) &&
    var op := OpAt(img, p);
    && (FallsThrough(op) ==> p + Length(img, p) in starts)
    && (op.Jmp? || op.Cjmp? || op.Call? || op.MakeClosure? ==> Int32At(img.code, p + 1) in starts)
  }

  ghost predicate Agree(a: Image, b: Image, starts: set<int>) {
    && |a.code| == |b.code| < NO_ADDRESS && a.strings == b.strings && a.globals == b.globals
    && 0 in starts
    && forall p :: p in starts ==> InstructionOk(a, b, starts, p)
  }

  ghost predicate InstructionOk(a: Image, b: Image, starts: set<int>, p: int) {
    0 <= p && AgreeAt(a, b, p) && ClosedAt(a, starts, p)
  }

  ghost predicate HeapOk(s: State, starts: set<int>) {
    forall i :: 0 <= i < |s.heap| && s.heap[i].Closure? ==> s.heap[i].code in starts
  }

  lemma FetchSame(a: Image, b: Image, lib: Library, s: State, validate: bool)
    requires SameBytes(a, b, s.ip, s.ip + 4) && |a.code| == |b.code|
    ensures FetchIntIf(true, Context(true, a, lib), s).Ok? ==>
      FetchIntIf(validate, Context(false, b, lib), s) == FetchIntIf(true, Context(true, a, lib), s)
  {
    hide U32, I32;
  }

  lemma SmallU32(x: int)
    requires 0 <= x < 0x1_0000_0000
    ensures U32(x) == x
  {}

  ghost predicate Plain(op: Op) {
    !Enters(op) && !op.Ret? && !op.Stop? && !op.MakeClosure? && !op.Call? && !op.Callc?
  }

  ghost predicate OnStackOnly(op: Op) {
    op.Binop? || op.Eq? || op.Sti? || op.Drop? || op.Dup? || op.Swap? || op.Lread? || op.Unknown?
  }

  lemma BinopSame(a: Image, b: Image, lib: Library, s: State, operator: Byte)
    requires ExecBinop(Context(true, a, lib), s, operator).Ok?
    ensures ExecBinop(Context(false, b, lib), s, operator) == ExecBinop(Context(true, a, lib), s, operator)
  {
    hide I32, Binary;
  }

  lemma StiSame(a: Image, b: Image, lib: Library, s: State)
    requires ExecSti(Context(true, a, lib), s).Ok?
    ensures ExecSti(Context(false, b, lib), s) == ExecSti(Context(true, a, lib), s)
  {
    hide Store;
  }

  lemma EqSame(a: Image, b: Image, lib: Library, s: State)
    requires ExecEq(Context(true, a, lib), s).Ok?
    ensures ExecEq(Context(false, b, lib), s) == ExecEq(Context(true, a, lib), s)
  {
    hide I32;
  }

  lemma SwapSame(a: Image, b: Image, lib: Library, s: State)
    requires ExecSwap(Context(true, a, lib), s).Ok?
    ensures ExecSwap(Context(false, b, lib), s) == ExecSwap(Context(true, a, lib), s)
  {}

  lemma OnStackSame(a: Image, b: Image, lib: Library, s: State, op: Op)
    requires OnStackOnly(op) && Exec(Context(true, a, lib), s, op).Ok?
    ensures Exec(Context(false, b, lib), s, op) == Exec(Context(true, a, lib), s, op)
  {
    hide I32, ExecBinop, ExecEq, ExecSti, ExecSwap;
    if op.Binop? { BinopSame(a, b, lib, s, op.operator); }
    else if op.Eq? { EqSame(a, b, lib, s); }
    else if op.Sti? { StiSame(a, b, lib, s); }
    else if op.Swap? { SwapSame(a, b, lib, s); }
  }

  lemma StaSame(a: Image, b: Image, lib: Library, s: State)
    requires ExecSta(Context(true, a, lib), s).Ok?
    ensures ExecSta(Context(false, b, lib), s) == ExecSta(Context(true, a, lib), s)
  {
    hide I32, Aggregate, SetElement, Store, Size;
  }

  lemma OnHeapSame(a: Image, b: Image, lib: Library, s: State, op: Op)
    requires Plain(op) && Operands(op) == 0 && !OnStackOnly(op) && Exec(Context(true, a, lib), s, op).Ok?
    ensures Exec(Context(false, b, lib), s, op) == Exec(Context(true, a, lib), s, op)
  {
    hide I32, Is, Aggregate, Element, Alloc, Size, W.CString, Header, ExecSta;
    if op.Sta? { StaSame(a, b, lib, s); }
  }

  ghost predicate OnVariable(op: Op) {
    op.Ld? || op.Lda? || op.St?
  }

  lemma LocateSame(a: Image, b: Image, lib: Library, s: State, place: Place, index: int)
    requires a.globals == b.globals && Locate(Context(true, a, lib), s, place, index).Ok?
    ensures Locate(Context(false, b, lib), s, place, index) == Locate(Context(true, a, lib), s, place, index)
  {
    hide U32, FrameClosure;
  }

  lemma OnVariableSame(a: Image, b: Image, lib: Library, s: State, op: Op)
    requires OnVariable(op) && SameBytes(a, b, s.ip, s.ip + 4)
    requires |a.code| == |b.code| && a.globals == b.globals && Exec(Context(true, a, lib), s, op).Ok?
    ensures Exec(Context(false, b, lib), s, op) == Exec(Context(true, a, lib), s, op)
  {
    hide U32, I32, Locate, FetchIntIf, Store, Load;
    var u := if op.St? then Pop(Context(true, a, lib), s).value.0 else s;
    FetchSame(a, b, lib, u, op.place.Captured?);
    var (t, index) := FetchIntIf(true, Context(true, a, lib), u).value;
    LocateSame(a, b, lib, t, op.place, index);
  }

  lemma CjmpSame(a: Image, b: Image, lib: Library, s: State, nz: bool)
    requires SameBytes(a, b, s.ip, s.ip + 4) && |a.code| == |b.code|
    requires ExecCjmp(Context(true, a, lib), s, nz).Ok?
    ensures ExecCjmp(Context(false, b, lib), s, nz) == ExecCjmp(Context(true, a, lib), s, nz)
  {
    hide U32, I32, FetchIntIf;
    FetchSame(a, b, lib, s, false);
  }

  lemma BarraySame(a: Image, b: Image, lib: Library, s: State)
    requires SameBytes(a, b, s.ip, s.ip + 4) && |a.code| == |b.code|
    requires ExecBarray(Context(true, a, lib), s).Ok?
    ensures ExecBarray(Context(false, b, lib), s) == ExecBarray(Context(true, a, lib), s)
  {
    hide FetchIntIf, Alloc;
    FetchSame(a, b, lib, s, false);
  }

  lemma OneOperandSame(a: Image, b: Image, lib: Library, s: State, op: Op)
    requires Plain(op) && !OnVariable(op) && Operands(op) == 1 && SameBytes(a, b, s.ip, s.ip + 4)
    requires |a.code| == |b.code| && a.strings == b.strings && Exec(Context(true, a, lib), s, op).Ok?
    ensures Exec(Context(false, b, lib), s, op) == Exec(Context(true, a, lib), s, op)
  {
    hide U32, I32, W.CString, Header, ExecCjmp, ExecBarray;
    if op.Cjmp? { CjmpSame(a, b, lib, s, op.nz); }
    else if op.Barray? { BarraySame(a, b, lib, s); }
  }

  lemma FetchIs(validate: bool, c: Context, s: State)
    requires s.ip + 4 <= |c.img.code| < NO_ADDRESS
    ensures var r := FetchIntIf(validate, c, s);
      if validate && s.ip + 4 == |c.img.code| then r == Fails(EndOfCode)
      else r == Ok((s.(ip := s.ip + 4), Int32At(c.img.code, s.ip)))
  {
    hide Int32At;
    SmallU32(s.ip + 4);
  }

  lemma SexpSame(a: Image, b: Image, lib: Library, s: State)
    requires SameBytes(a, b, s.ip, s.ip + 8) && |a.code| == |b.code| < NO_ADDRESS && a.strings == b.strings
    requires ExecSexp(Context(true, a, lib), s).Ok?
    ensures ExecSexp(Context(false, b, lib), s) == ExecSexp(Context(true, a, lib), s)
  {
    hide U32, I32, Int32At, Alloc, W.CString, FetchIntIf;
    var c := Context(true, a, lib);
    FetchIs(true, c, s);
    FetchIs(true, c, s.(ip := s.ip + 4));
    FetchSame(a, b, lib, s, false);
    FetchSame(a, b, lib, s.(ip := s.ip + 4), false);
  }

  lemma TagSame(a: Image, b: Image, lib: Library, s: State)
    requires SameBytes(a, b, s.ip, s.ip + 8) && |a.code| == |b.code| < NO_ADDRESS && a.strings == b.strings
    requires ExecTag(Context(true, a, lib), s).Ok?
    ensures ExecTag(Context(false, b, lib), s) == ExecTag(Context(true, a, lib), s)
  {
    hide U32, I32, Int32At, W.CString, Header, Is, FetchIntIf;
    var c := Context(true, a, lib);
    FetchIs(true, c, s);
    FetchIs(true, c, s.(ip := s.ip + 4));
    FetchSame(a, b, lib, s, false);
    FetchSame(a, b, lib, s.(ip := s.ip + 4), false);
  }

  lemma TwoOperandsSame(a: Image, b: Image, lib: Library, s: State, op: Op)
    requires Plain(op) && Operands(op) == 2 && SameBytes(a, b, s.ip, s.ip + 8)
    requires |a.code| == |b.code| < NO_ADDRESS && a.strings == b.strings
    requires Exec(Context(true, a, lib), s, op).Ok?
    ensures Exec(Context(false, b, lib), s, op) == Exec(Context(true, a, lib), s, op)
  {
    hide U32, I32, ExecSexp, ExecTag, FetchIntIf, Pop;
    if op.MakeSexp? { SexpSame(a, b, lib, s); }
    else if op.Tag? { TagSame(a, b, lib, s); }
  }

  lemma PlainSame(a: Image, b: Image, lib: Library, s: State, op: Op)
    requires Plain(op) && SameBytes(a, b, s.ip, s.ip + 4 * Operands(op))
    requires |a.code| == |b.code| < NO_ADDRESS && a.strings == b.strings && a.globals == b.globals
    requires Exec(Context(true, a, lib), s, op).Ok?
    ensures Exec(Context(false, b, lib), s, op) == Exec(Context(true, a, lib), s, op)
  {
    hide Exec;
    if OnVariable(op) { OnVariableSame(a, b, lib, s, op); }
    else if Operands(op) == 1 { OneOperandSame(a, b, lib, s, op); }
    else if Operands(op) == 2 { TwoOperandsSame(a, b, lib, s, op); }
    else if OnStackOnly(op) { OnStackSame(a, b, lib, s, op); }
    else { OnHeapSame(a, b, lib, s, op); }
  }

  // Frames and calls

  lemma BeginSame(a: Image, b: Image, lib: Library, s: State, cbegin: bool)
    requires SameBytes(a, b, s.ip, s.ip + 4) && s.ip + 8 <= |a.code| == |b.code| < NO_ADDRESS
    requires 0 <= Int32At(a.code, s.ip + 4) < 0x1_0000
    requires LowHalf(Int32At(b.code, s.ip + 4)) == Int32At(a.code, s.ip + 4)
    requires ExecBegin(Context(true, a, lib), s, cbegin).Ok?
    ensures var r := ExecBegin(Context(false, b, lib), s, cbegin);
      r == ExecBegin(Context(true, a, lib), s, cbegin) || r == Fails(Overflow)
  {
    hide U32, I32, Int32At, LowHalf, HighHalf, FetchIntIf;
    FetchSame(a, b, lib, s, false);
    FetchIs(true, Context(true, a, lib), s);
    FetchIs(true, Context(true, a, lib), s.(ip := s.ip + 4));
    FetchIs(false, Context(false, b, lib), s.(ip := s.ip + 4));
    SmallU32(Int32At(a.code, s.ip + 4));
  }

  lemma {:induction false} CapturesSame(a: Image, b: Image, lib: Library, s: State, n: nat)
    requires SameBytes(a, b, s.ip, s.ip + 5 * n) && |a.code| == |b.code| < NO_ADDRESS && a.globals == b.globals
    requires ExecCaptures(Context(true, a, lib), s, n).Ok?
    ensures ExecCaptures(Context(false, b, lib), s, n) == ExecCaptures(Context(true, a, lib), s, n)
    decreases n
  {
    hide U32, I32, FetchIntIf, Locate, Load, Int32At;
    if n > 0 {
      var c := Context(true, a, lib);
      SmallU32(s.ip + 1);
      var (t, byte) := FetchByte(c, s).value;
      FetchIs(true, c, t);
      FetchSame(a, b, lib, t, false);
      var (u, index) := FetchInt(c, t).value;
      LocateSame(a, b, lib, u, PlaceOf(byte), index);
      var address := Locate(c, u, PlaceOf(byte), index).value;
      CapturesSame(a, b, lib, Push(c, u, Load(u, address).value).value, n - 1);
    }
  }

  lemma ClosureSame(a: Image, b: Image, lib: Library, s: State)
    requires s.ip + 8 <= |a.code| == |b.code| < NO_ADDRESS && a.globals == b.globals
    requires var n := Int32At(a.code, s.ip + 4); SameBytes(a, b, s.ip, s.ip + 8 + if n < 0 then 0 else 5 * n)
    requires ExecClosure(Context(true, a, lib), s).Ok?
    ensures ExecClosure(Context(false, b, lib), s) == ExecClosure(Context(true, a, lib), s)
  {
    hide U32, I32, Int32At, FetchIntIf, ExecCaptures;
    var c := Context(true, a, lib);
    var s1 := s.(ip := s.ip + 4);
    var s2 := s.(ip := s.ip + 8);
    FetchIs(true, c, s);
    FetchIs(true, c, s1);
    FetchSame(a, b, lib, s, false);
    FetchSame(a, b, lib, s1, false);
    var n := Int32At(a.code, s.ip + 4);
    var s3 := Push(c, s2, Int(Int32At(a.code, s.ip))).value;
    CapturesSame(a, b, lib, s3, n);
  }

  lemma CallSame(a: Image, b: Image, lib: Library, s: State)
    requires SameBytes(a, b, s.ip, s.ip + 8) && |a.code| == |b.code| < NO_ADDRESS
    requires var target := Int32At(a.code, s.ip); 0 <= target < |a.code| ==> a.code[target] == b.code[target]
    requires ExecCall(Context(true, a, lib), s).Ok?
    ensures ExecCall(Context(false, b, lib), s) == ExecCall(Context(true, a, lib), s)
  {
    hide I32, U32, Int32At, FetchIntIf, OpOf;
    var c := Context(true, a, lib);
    FetchIs(true, c, s);
    FetchIs(true, c, s.(ip := s.ip + 4));
    FetchSame(a, b, lib, s, false);
    FetchSame(a, b, lib, s.(ip := s.ip + 4), false);
    SmallU32(Int32At(a.code, s.ip));
  }

  lemma CallcSame(a: Image, b: Image, lib: Library, s: State)
    requires SameBytes(a, b, s.ip, s.ip + 4) && |a.code| == |b.code| < NO_ADDRESS
    requires forall i :: 0 <= i < |s.heap| && s.heap[i].Closure? ==>
      0 <= s.heap[i].code < |a.code| && a.code[s.heap[i].code] == b.code[s.heap[i].code]
    requires ExecCallc(Context(true, a, lib), s).Ok?
    ensures ExecCallc(Context(false, b, lib), s) == ExecCallc(Context(true, a, lib), s)
  {
    hide I32, Int32At, FetchIntIf, OpOf;
    FetchIs(true, Context(true, a, lib), s);
    FetchSame(a, b, lib, s, false);
  }
}
