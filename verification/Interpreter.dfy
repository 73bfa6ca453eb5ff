/** One instruction of the two interpreters: Assignment02/src/interpreter.cpp (`checked`) and
    Assignment04/src/interpreter.cpp, which leaves most validation to a verifier. */
module Interpreter {
  import opened Bytecode
  import W = Words

  const MAX_STACK_SIZE: nat := 0xFFFFF
  const MAX_FRAMES_SIZE: nat := 0xFFFF
  /** The return address of a frame that has not called anything. */
  const NO_ADDRESS: nat := 0xFFFF_FFFF

  /** Immediates, objects, the addresses that LDA makes, and the zero word. */
  datatype Value = Int(n: int) | Obj(id: nat) | Slot(pos: nat) | CaptureSlot(closure: nat, index: nat) | Null

  datatype Object =
    | Text(chars: string)
    | Array(items: seq<Value>)
    | Sexp(tag: int, items: seq<Value>)
    | Closure(code: int, captures: seq<Value>)

  datatype Frame = Frame(base: nat, locals: nat, args: nat, closure: bool, ret: nat)

  /** `buf` is the whole stack buffer, `sp` the size of the window that is the stack. */
  datatype State = State(
    ip: nat, frames: seq<Frame>, buf: seq<Value>, sp: nat, tmp: bool,
    heap: seq<Object>, input: seq<int>, output: seq<int>)

  datatype Next = Continue(state: State) | Halt(state: State)

  /** The runtime functions that only look at values: printing, and the hash of a tag, which
      fails on characters outside its alphabet. */
  datatype Library = Library(text: (seq<Object>, Value) -> string, hashable: string -> bool, tagHash: string -> int)

  /** What both interpreters share: which one it is, the file, the runtime. */
  datatype Context = Context(checked: bool, img: Image, lib: Library)

  /** `input` are the numbers that READ will find. */
  function Start(img: Image, input: seq<int>): Result<State> {
    if img.globals + 2 < MAX_STACK_SIZE
    then Ok(State(0, [], seq(MAX_STACK_SIZE, i => Null), img.globals + 2, false, [], input, []))
    else Fails(Overflow)
  }

  // Code

  function FetchByte(c: Context, s: State): Result<(State, Byte)> {
    var t := s.(ip := U32(s.ip + 1));
    var _ :- Validate(c.checked ==> t.ip < |c.img.code|, EndOfCode);
    if s.ip < |c.img.code| then Ok((t, c.img.code[s.ip])) else Stuck
  }

  function FetchIntIf(validate: bool, c: Context, s: State): Result<(State, int)> {
    var t := s.(ip := U32(s.ip + 4));
    var _ :- Validate(validate ==> t.ip < |c.img.code|, EndOfCode);
    if s.ip + 4 <= |c.img.code| then Ok((t, Int32At(c.img.code, s.ip))) else Stuck
  }

  function FetchInt(c: Context, s: State): Result<(State, int)> {
    FetchIntIf(c.checked, c, s)
  }

  function PeekOp(c: Context, p: int): Result<Op> {
    if 0 <= p < |c.img.code| then Ok(OpOf(c.img.code[p])) else Stuck
  }

  function StringAt(c: Context, pos: int): Result<string> {
    if 0 <= pos < |c.img.strings| then Ok(W.CString(c.img.strings[pos..], '\0')) else Stuck
  }

  // The stack

  function Read(s: State, pos: int): Result<Value> {
    if 0 <= pos < |s.buf| then Ok(s.buf[pos]) else Stuck
  }

  function Write(s: State, pos: int, v: Value): Result<State> {
    if 0 <= pos < |s.buf| then Ok(s.(buf := s.buf[pos := v])) else Stuck
  }

  function Push(c: Context, s: State, v: Value): Result<State> {
    var _ :- Validate(c.checked ==> s.sp + 1 <= MAX_STACK_SIZE, Overflow);
    Write(s.(sp := s.sp + 1), s.sp, v)
  }

  function Pop(c: Context, s: State): Result<(State, Value)> {
    var _ :- Validate(c.checked ==> s.sp > 0, Underflow);
    var v :- Read(s, s.sp - 1);
    Ok((s.(sp := s.sp - 1), v))
  }

  function PopMany(c: Context, s: State, n: nat): Result<State> {
    var _ :- Validate(c.checked ==> s.sp >= n, Underflow);
    if s.sp >= n then Ok(s.(sp := s.sp - n)) else Stuck
  }

  function TopFrame(s: State): Result<Frame> {
    if s.frames != [] then Ok(s.frames[|s.frames| - 1]) else Stuck
  }

  function SetReturn(s: State): Result<State> {
    var f :- TopFrame(s);
    Ok(s.(frames := s.frames[|s.frames| - 1 := f.(ret := s.ip)]))
  }

  // The heap; a new object's elements are registered as extra roots one by one while it is made

  function Alloc(s: State, o: Object): (State, Value) {
    (s.(heap := s.heap + [o]), Obj(|s.heap|))
  }

  /** The object whose header a value leads to, if it is a reference. */
  function Header(s: State, v: Value): Result<Object> {
    if v.Obj? && v.id < |s.heap| then Ok(s.heap[v.id]) else Stuck
  }

  function Is(s: State, v: Value, kind: Kind): Result<bool> {
    if kind.Boxed? then Ok(!v.Int?)
    else if v.Int? then Ok(kind.Unboxed?)
    else if kind.Unboxed? then Ok(false)
    else
      var o :- Header(s, v);
      Ok((kind.AString? && o.Text?) || (kind.AnArray? && o.Array?) || (kind.ASexp? && o.Sexp?)
          || (kind.AClosure? && o.Closure?))
  }

  function Aggregate(s: State, v: Value): Result<Object> {
    var closure :- Is(s, v, AClosure);
    var _ :- Validate(!v.Int? && !closure, Invalid);
    Header(s, v)
  }

  function Size(o: Object): nat {
    match o
    case Text(chars) => |chars|
    case Array(items) => |items|
    case Sexp(_, items) => |items|
    case Closure(_, captures) => |captures| + 1
  }

  function Element(o: Object, i: nat): Value
    requires !o.Closure? && i < Size(o)
  {
    if o.Text? then Int(W.SignedChar(o.chars[i] as int % 0x100)) else o.items[i]
  }

  function SetElement(s: State, id: nat, i: nat, v: Value): Result<State>
    requires id < |s.heap| && !s.heap[id].Closure? && i < Size(s.heap[id])
  {
    var o := s.heap[id];
    if o.Text? then
      if v.Int? then Ok(s.(heap := s.heap[id := Text(o.chars[i := (v.n % 0x100) as char])])) else Stuck
    else Ok(s.(heap := s.heap[id := o.(items := o.items[i := v])]))
  }

  /** A store through an address that LDA made; any other reference is not an address of a variable. */
  function Store(s: State, address: Value, v: Value): Result<State> {
    match address
    case Slot(pos) => Write(s, pos, v)
    case CaptureSlot(id, index) => SetCapture(s, id, index, v)
    case _ => Stuck
  }

  function SetCapture(s: State, id: nat, index: nat, v: Value): Result<State> {
    if id < |s.heap| && s.heap[id].Closure? && index < |s.heap[id].captures|
    then Ok(s.(heap := s.heap[id := s.heap[id].(captures := s.heap[id].captures[index := v])]))
    else Stuck
  }

  // Variables

  /** The closure under the arguments of the current frame. */
  function FrameClosure(s: State, f: Frame): Result<nat> {
    var v :- Read(s, U32(f.base - f.args - 1));
    var _ :- Validate(!v.Int?, Invalid);
    var o :- Header(s, v);
    if o.Closure? then Ok(v.id) else Stuck
  }

  /** Where a variable lives; the unchecked interpreter looks at the bounds of captures only. */
  function Locate(c: Context, s: State, place: Place, index: int): Result<Value> {
    match place
    case Global =>
      var _ :- Validate(c.checked ==> 0 <= index < c.img.globals, Invalid);
      Ok(Slot(U32(index)))
    case Local =>
      var f :- TopFrame(s);
      var _ :- Validate(c.checked ==> 0 <= index < f.locals, Invalid);
      Ok(Slot(U32(f.base + index)))
    case Argument =>
      var f :- TopFrame(s);
      var _ :- Validate(c.checked ==> 0 <= index < f.args, Invalid);
      Ok(Slot(U32(f.base - f.args + index)))
    case Captured =>
      var f :- TopFrame(s);
      var id :- FrameClosure(s, f);
      var _ :- Validate(id < |s.heap| && s.heap[id].Closure? && 0 <= index < |s.heap[id].captures|, Invalid);
      Ok(CaptureSlot(id, index))
  }

  function Load(s: State, address: Value): Result<Value> {
    match address
    case Slot(pos) => Read(s, pos)
    case CaptureSlot(id, index) =>
      if id < |s.heap| && s.heap[id].Closure? && index < |s.heap[id].captures|
      then Ok(s.heap[id].captures[index])
      else Stuck
    case _ => Stuck
  }

  /** The operand of a variable access; that of a capture is checked for the end of the code always. */
  function FetchIndex(c: Context, s: State, place: Place): Result<(State, int)> {
    FetchIntIf(c.checked || place.Captured?, c, s)
  }

  // Instructions

  function Quotient(x: int, y: int): int
    requires y != 0
  {
    var q := (if x < 0 then -x else x) / (if y < 0 then -y else y);
    if (x < 0) == (y < 0) then q else -q
  }

  function Binary(operator: Byte, x: int, y: int): Result<int> {
    match operator
    case 0x01 => Ok(I32(x + y))
    case 0x02 => Ok(I32(x - y))
    case 0x03 => Ok(I32(x * y))
    case 0x04 => if y == 0 then Fails(Invalid) else Ok(I32(Quotient(x, y)))
    case 0x05 => if y == 0 then Fails(Invalid) else Ok(I32(x - y * Quotient(x, y)))
    case 0x06 => Ok(if x < y then 1 else 0)
    case 0x07 => Ok(if x <= y then 1 else 0)
    case 0x08 => Ok(if x > y then 1 else 0)
    case 0x09 => Ok(if x >= y then 1 else 0)
    case 0x0B => Ok(if x != y then 1 else 0)
    case 0x0C => Ok(if x != 0 && y != 0 then 1 else 0)
    case 0x0D => Ok(if x != 0 || y != 0 then 1 else 0)
    case _ => Fails(Invalid)
  }

  function ExecBinop(c: Context, s: State, operator: Byte): Result<State> {
    var (s, y) :- Pop(c, s);
    var (s, x) :- Pop(c, s);
    var _ :- Validate(x.Int?, Invalid);
    var _ :- Validate(y.Int?, Invalid);
    var r :- Binary(operator, I32(x.n), I32(y.n));
    Push(c, s, Int(r))
  }

  function ExecEq(c: Context, s: State): Result<State> {
    var (s, y) :- Pop(c, s);
    var (s, x) :- Pop(c, s);
    var _ :- Validate(x.Int? || y.Int?, Invalid);
    Push(c, s, Int(if x.Int? && y.Int? && I32(x.n) == I32(y.n) then 1 else 0))
  }

  function ExecConst(c: Context, s: State): Result<State> {
    var (s, n) :- FetchInt(c, s);
    Push(c, s, Int(n))
  }

  function ExecString(c: Context, s: State): Result<State> {
    var (s, pos) :- FetchInt(c, s);
    var _ :- Validate(c.checked ==> 0 <= pos < |c.img.strings|, Invalid);
    var chars :- StringAt(c, pos);
    var (s, v) := Alloc(s, Text(chars));
    Push(c, s, v)
  }

  /** The hash of the tag is put into the buffer above the elements, and stays there. */
  function MakeSexp(c: Context, s: State, h: int, n: int): Result<State> {
    var s :- Write(s, s.sp, Int(h));
    var _ :- Validate(n <= W.MAX_EXTRA_ROOTS_NUMBER, RuntimeLimit);
    if 0 <= n <= s.sp <= |s.buf| then
      var (s, v) := Alloc(s, Sexp(h, s.buf[s.sp - n..s.sp]));
      var s :- PopMany(c, s, n);
      Push(c, s, v)
    else Stuck
  }

  function ExecSexp(c: Context, s: State): Result<State> {
    var (s, pos) :- FetchInt(c, s);
    var (s, n) :- FetchInt(c, s);
    var _ :- Validate(c.checked ==> n >= 0, Invalid);
    var _ :- Validate(c.checked ==> 0 <= pos < |c.img.strings|, Invalid);
    var tag :- StringAt(c, pos);
    var _ :- Validate(c.lib.hashable(tag), Invalid);
    MakeSexp(c, s, c.lib.tagHash(tag), n)
  }

  function ExecSti(c: Context, s: State): Result<State> {
    var (s, address) :- Pop(c, s);
    var _ :- Validate(!address.Int?, Invalid);
    var (s, v) :- Pop(c, s);
    var s :- Store(s, address, v);
    Push(c, s, v)
  }

  function ExecSta(c: Context, s: State): Result<State> {
    var (s, v) :- Pop(c, s);
    var (s, selector) :- Pop(c, s);
    if !selector.Int? then
      var s :- Store(s, selector, v);
      Push(c, s, v)
    else
      var i := I32(selector.n);
      var (s, target) :- Pop(c, s);
      var o :- Aggregate(s, target);
      var _ :- Validate(0 <= i < Size(o), Invalid);
      if target.Obj? && target.id < |s.heap| && !s.heap[target.id].Closure? && 0 <= i < Size(s.heap[target.id]) then
        var s :- SetElement(s, target.id, i, v);
        Push(c, s, v)
      else Stuck
  }

  function ExecJmp(c: Context, s: State): Result<State> {
    var (s, target) :- FetchInt(c, s);
    var _ :- Validate(c.checked ==> 0 <= target < |c.img.code|, Invalid);
    Ok(s.(ip := U32(target)))
  }

  function ExecRet(c: Context, s: State): Result<Next> {
    var (s, v) :- Pop(c, s);
    var _ :- Validate(s.frames != [], Underflow);
    var f :- TopFrame(s);
    var frames := s.frames[..|s.frames| - 1];
    var bottom := U32(f.base - f.args) - if f.closure then 1 else 0;
    if bottom < 0 then Stuck
    else
      var s := s.(frames := frames, sp := bottom);
      if frames == [] then Ok(Halt(s))
      else
        var t :- Push(c, s.(ip := frames[|frames| - 1].ret), v);
        Ok(Continue(t))
  }

  function ExecDrop(c: Context, s: State): Result<State> {
    var (s, _) :- Pop(c, s);
    Ok(s)
  }

  function ExecDup(c: Context, s: State): Result<State> {
    var v :- Read(s, s.sp - 1);
    Push(c, s, v)
  }

  /** Both values are pushed back in the order in which they lay. */
  function ExecSwap(c: Context, s: State): Result<State> {
    var (s, a) :- Pop(c, s);
    var (s, b) :- Pop(c, s);
    var s :- Push(c, s, b);
    Push(c, s, a)
  }

  function ExecElem(c: Context, s: State): Result<State> {
    var (s, index) :- Pop(c, s);
    var _ :- Validate(index.Int?, Invalid);
    var i := I32(index.n);
    var (s, target) :- Pop(c, s);
    var o :- Aggregate(s, target);
    var _ :- Validate(0 <= i < Size(o), Invalid);
    if o.Closure? || i < 0 then Stuck else Push(c, s, Element(o, i))
  }

  function ExecLd(c: Context, s: State, place: Place): Result<State> {
    var (s, index) :- FetchIndex(c, s, place);
    var address :- Locate(c, s, place, index);
    var v :- Load(s, address);
    Push(c, s, v)
  }

  function ExecLda(c: Context, s: State, place: Place): Result<State> {
    var (s, index) :- FetchIndex(c, s, place);
    var address :- Locate(c, s, place, index);
    Push(c, s, address)
  }

  function ExecSt(c: Context, s: State, place: Place): Result<State> {
    var (s, v) :- Pop(c, s);
    var (s, index) :- FetchIndex(c, s, place);
    var address :- Locate(c, s, place, index);
    var s :- Store(s, address, v);
    Push(c, s, v)
  }

  /** CJMPNZ compares with 1, not with 0. */
  function ExecCjmp(c: Context, s: State, nz: bool): Result<State> {
    var (s, target) :- FetchInt(c, s);
    var _ :- Validate(c.checked ==> 0 <= target < |c.img.code|, Invalid);
    var (s, cond) :- Pop(c, s);
    var _ :- Validate(cond.Int?, Invalid);
    Ok(if I32(cond.n) == (if nz then 1 else 0) then s.(ip := U32(target)) else s)
  }

  /** BEGIN and CBEGIN: without checks, the high half of the second operand is the size to check for. */
  function ExecBegin(c: Context, s: State, cbegin: bool): Result<State> {
    var (s, args) :- FetchInt(c, s);
    var (s, operand) :- FetchInt(c, s);
    var _ :- Validate(c.checked ==> args >= 0, Invalid);
    var _ :- Validate(c.checked ==> operand >= 0, Invalid);
    var locals := if c.checked then U32(operand) else LowHalf(operand);
    var room := if c.checked then operand else HighHalf(operand);
    var f := Frame(U32(s.sp), locals, U32(args), cbegin || s.tmp, NO_ADDRESS);
    var _ :- Validate(s.sp + room <= MAX_STACK_SIZE, Overflow);
    var _ :- Validate(|s.frames| + 1 <= MAX_FRAMES_SIZE, Overflow);
    Ok(s.(sp := s.sp + locals, tmp := cbegin && s.tmp, frames := s.frames + [f]))
  }

  function ExecCapture(c: Context, s: State): Result<State> {
    var (s, b) :- FetchByte(c, s);
    var (s, index) :- FetchInt(c, s);
    if b >= 4 then Fails(Invalid)
    else
      var address :- Locate(c, s, PlaceOf(b), index);
      var v :- Load(s, address);
      Push(c, s, v)
  }

  function ExecCaptures(c: Context, s: State, n: nat): Result<State>
    decreases n
  {
    if n == 0 then Ok(s)
    else
      var s :- ExecCapture(c, s);
      ExecCaptures(c, s, n - 1)
  }

  /** The closure gets one value more than was captured: what lies above the stack. */
  function WrapCaptures(c: Context, s: State, target: int, n: int): Result<State> {
    var _ :- Validate(n + 1 <= W.MAX_EXTRA_ROOTS_NUMBER, RuntimeLimit);
    if 0 <= n < s.sp < |s.buf| then
      var (s, v) := Alloc(s, Closure(target, s.buf[s.sp - n..s.sp + 1]));
      var s :- PopMany(c, s, n + 1);
      Push(c, s, v)
    else Stuck
  }

  function ExecClosure(c: Context, s: State): Result<State> {
    var (s, target) :- FetchInt(c, s);
    var (s, n) :- FetchInt(c, s);
    var _ :- Validate(c.checked ==> 0 <= target < |c.img.code|, Invalid);
    var _ :- Validate(c.checked ==> n >= 0, Invalid);
    var s :- Push(c, s, Int(target));
    var _ :- TopFrame(s);
    var s :- ExecCaptures(c, s, if n < 0 then 0 else n);
    WrapCaptures(c, s, target, n)
  }

  function ExecCallc(c: Context, s: State): Result<State> {
    var (s, n) :- FetchInt(c, s);
    var _ :- Validate(c.checked ==> n >= 0, Invalid);
    var s :- SetReturn(s);
    var target :- Read(s, s.sp - U32(n) - 1);
    var isClosure :- Is(s, target, AClosure);
    var _ :- Validate(isClosure, Invalid);
    var o :- Header(s, target);
    if !o.Closure? then Stuck
    else
      var _ :- Validate(U32(o.code) < |c.img.code|, Invalid);
      var op :- PeekOp(c, U32(o.code));
      var _ :- Validate(Enters(op), Invalid);
      Ok(s.(ip := U32(o.code), tmp := true))
  }

  function ExecCall(c: Context, s: State): Result<State> {
    var (s, target) :- FetchInt(c, s);
    var (s, n) :- FetchInt(c, s);
    var _ :- Validate(c.checked ==> 0 <= target < |c.img.code|, Invalid);
    var _ :- Validate(c.checked ==> n >= 0, Invalid);
    var s :- SetReturn(s);
    var op :- PeekOp(c, U32(target));
    var _ :- Validate(op.Begin?, Invalid);
    Ok(s.(ip := U32(target), tmp := false))
  }

  function ExecTag(c: Context, s: State): Result<State> {
    var (s, pos) :- FetchInt(c, s);
    var (s, n) :- FetchInt(c, s);
    var _ :- Validate(c.checked ==> 0 <= pos < |c.img.strings|, Invalid);
    var _ :- Validate(c.checked ==> n >= 0, Invalid);
    var (s, v) :- Pop(c, s);
    var isSexp :- Is(s, v, ASexp);
    if !isSexp then Push(c, s, Int(0))
    else
      var tag :- StringAt(c, pos);
      var _ :- Validate(c.lib.hashable(tag), Invalid);
      var h := c.lib.tagHash(tag);
      var o :- Header(s, v);
      Push(c, s, Int(if o.Sexp? && o.tag == h && |o.items| == n then 1 else 0))
  }

  function ExecArrayPatt(c: Context, s: State): Result<State> {
    var (s, n) :- FetchInt(c, s);
    var _ :- Validate(c.checked ==> n >= 0, Invalid);
    var (s, v) :- Pop(c, s);
    if v.Int? then Push(c, s, Int(0))
    else
      var o :- Header(s, v);
      Push(c, s, Int(if o.Array? && |o.items| == n then 1 else 0))
  }

  function ExecFail(c: Context, s: State): Result<State> {
    var (s, _) :- FetchInt(c, s);
    var (s, _) :- FetchInt(c, s);
    var (s, _) :- Pop(c, s);
    Fails(MatchFailure)
  }

  function ExecLine(c: Context, s: State): Result<State> {
    var (s, _) :- FetchInt(c, s);
    Ok(s)
  }

  function ExecPattStr(c: Context, s: State): Result<State> {
    var (s, y) :- Pop(c, s);
    var (s, x) :- Pop(c, s);
    var fine :- if y.Int? then Ok(true) else Is(s, y, AString);
    var _ :- Validate(fine, Invalid);
    var isText :- Is(s, x, AString);
    if !isText then Push(c, s, Int(0))
    else
      var p :- Header(s, y);
      var o :- Header(s, x);
      Push(c, s, Int(if o.Text? && p.Text? && W.CString(o.chars, '\0') == W.CString(p.chars, '\0') then 1 else 0))
  }

  function ExecPatt(c: Context, s: State, kind: Kind): Result<State> {
    var (s, v) :- Pop(c, s);
    var yes :- Is(s, v, kind);
    Push(c, s, Int(if yes then 1 else 0))
  }

  /** Input that is not there leaves the boxed zero, which is boxed again. */
  function ExecLread(c: Context, s: State): Result<State> {
    if s.input == [] then Push(c, s, Int(1)) else Push(c, s.(input := s.input[1..]), Int(s.input[0]))
  }

  function ExecLwrite(c: Context, s: State): Result<State> {
    var (s, v) :- Pop(c, s);
    var _ :- Validate(v.Int?, Invalid);
    Push(c, s.(output := s.output + [v.n]), Null)
  }

  function ExecLlength(c: Context, s: State): Result<State> {
    var (s, v) :- Pop(c, s);
    var o :- Aggregate(s, v);
    Push(c, s, Int(I32(Size(o))))
  }

  function ExecLstring(c: Context, s: State): Result<State> {
    var (s, v) :- Pop(c, s);
    var (s, w) := Alloc(s, Text(c.lib.text(s.heap, v)));
    Push(c, s, w)
  }

  function ExecBarray(c: Context, s: State): Result<State> {
    var (s, n) :- FetchInt(c, s);
    var _ :- Validate(c.checked ==> n >= 0, Invalid);
    var _ :- Validate(n <= W.MAX_EXTRA_ROOTS_NUMBER, RuntimeLimit);
    if 0 <= n <= s.sp <= |s.buf| then
      var (s, v) := Alloc(s, Array(s.buf[s.sp - n..s.sp]));
      var s :- PopMany(c, s, n);
      Push(c, s, v)
    else Stuck
  }

  function Exec(c: Context, s: State, op: Op): Result<State>
    requires !op.Ret? && !op.Stop?
  {
    match op
    case Binop(k) => ExecBinop(c, s, k)
    case Eq => ExecEq(c, s)
    case Const => ExecConst(c, s)
    case Str => ExecString(c, s)
    case MakeSexp => ExecSexp(c, s)
    case Sti => ExecSti(c, s)
    case Sta => ExecSta(c, s)
    case Jmp => ExecJmp(c, s)
    case Drop => ExecDrop(c, s)
    case Dup => ExecDup(c, s)
    case Swap => ExecSwap(c, s)
    case Elem => ExecElem(c, s)
    case Ld(place) => ExecLd(c, s, place)
    case Lda(place) => ExecLda(c, s, place)
    case St(place) => ExecSt(c, s, place)
    case Cjmp(nz) => ExecCjmp(c, s, nz)
    case Begin => ExecBegin(c, s, false)
    case Cbegin => ExecBegin(c, s, true)
    case MakeClosure => ExecClosure(c, s)
    case Callc => ExecCallc(c, s)
    case Call => ExecCall(c, s)
    case Tag => ExecTag(c, s)
    case ArrayPatt => ExecArrayPatt(c, s)
    case Fail => ExecFail(c, s)
    case Line => ExecLine(c, s)
    case PattStr => ExecPattStr(c, s)
    case Patt(kind) => ExecPatt(c, s, kind)
    case Lread => ExecLread(c, s)
    case Lwrite => ExecLwrite(c, s)
    case Llength => ExecLlength(c, s)
    case Lstring => ExecLstring(c, s)
    case Barray => ExecBarray(c, s)
    case Unknown => Fails(Invalid)
  }

  /** One turn of the main loop. */
  function Step(c: Context, s: State): Result<Next> {
    var (s, b) :- FetchByte(c, s);
    var op := OpOf(b);
    if op.Ret? then ExecRet(c, s)
    else if op.Stop? then Ok(Halt(s))
    else
      var t :- Exec(c, s, op);
      Ok(Continue(t))
  }

  /** The main loop after n turns, or when it ended before that. */
  function Run(c: Context, s: State, n: nat): Result<Next>
    decreases n
  {
    if n == 0 then Ok(Continue(s))
    else
      var next :- Step(c, s);
      if next.Halt? then Ok(next) else Run(c, next.state, n - 1)
  }
}
