/** Lama bytecode: Assignment02/src/bytefile.h, with Assignment04's packed operands. */
module Bytecode {

  type Byte = b: int | 0 <= b < 0x100

  /** A loaded file; strings are zero-terminated inside the string table. */
  datatype Image = Image(code: seq<Byte>, strings: string, globals: nat)

  // 32-bit integers

  function U32(x: int): nat { x % 0x1_0000_0000 }

  function I32(x: int): int {
    var u := U32(x);
    if u < 0x8000_0000 then u else u - 0x1_0000_0000
  }

  function Int32At(code: seq<Byte>, p: nat): int
    requires p + 4 <= |code|
  {
    I32(code[p] as int + 0x100 * code[p + 1] as int + 0x1_0000 * code[p + 2] as int + 0x100_0000 * code[p + 3] as int)
  }

  function LowHalf(x: int): nat { x % 0x1_0000 }

  function HighHalf(x: int): nat { x / 0x1_0000 % 0x1_0000 }

  // Instructions

  datatype Place = Global | Local | Argument | Captured

  datatype Kind = AString | AnArray | ASexp | Boxed | Unboxed | AClosure

  datatype Op =
    | Binop(operator: Byte) | Eq
    | Const | Str | MakeSexp | Sti | Sta | Jmp | Ret | Drop | Dup | Swap | Elem
    | Ld(place: Place) | Lda(place: Place) | St(place: Place)
    | Cjmp(nz: bool) | Begin | Cbegin | MakeClosure | Callc | Call | Tag | ArrayPatt | Fail | Line
    | PattStr | Patt(kind: Kind)
    | Lread | Lwrite | Llength | Lstring | Barray | Stop | Unknown

  function PlaceOf(b: int): Place
    requires 0 <= b < 4
  {
    if b == 0 then Global else if b == 1 then Local else if b == 2 then Argument else Captured
  }

  function OpOf(b: Byte): Op {
    match b
    case 0x01 => Binop(b) case 0x02 => Binop(b) case 0x03 => Binop(b) case 0x04 => Binop(b)
    case 0x05 => Binop(b) case 0x06 => Binop(b) case 0x07 => Binop(b) case 0x08 => Binop(b)
    case 0x09 => Binop(b) case 0x0A => Eq case 0x0B => Binop(b) case 0x0C => Binop(b) case 0x0D => Binop(b)
    case 0x10 => Const case 0x11 => Str case 0x12 => MakeSexp case 0x13 => Sti case 0x14 => Sta
    case 0x15 => Jmp case 0x16 => Ret case 0x17 => Ret case 0x18 => Drop case 0x19 => Dup
    case 0x1A => Swap case 0x1B => Elem
    case 0x20 => Ld(Global) case 0x21 => Ld(Local) case 0x22 => Ld(Argument) case 0x23 => Ld(Captured)
    case 0x30 => Lda(Global) case 0x31 => Lda(Local) case 0x32 => Lda(Argument) case 0x33 => Lda(Captured)
    case 0x40 => St(Global) case 0x41 => St(Local) case 0x42 => St(Argument) case 0x43 => St(Captured)
    case 0x50 => Cjmp(false) case 0x51 => Cjmp(true) case 0x52 => Begin case 0x53 => Cbegin
    case 0x54 => MakeClosure case 0x55 => Callc case 0x56 => Call case 0x57 => Tag case 0x58 => ArrayPatt
    case 0x59 => Fail case 0x5A => Line
    case 0x60 => PattStr case 0x61 => Patt(AString) case 0x62 => Patt(AnArray) case 0x63 => Patt(ASexp)
    case 0x64 => Patt(Boxed) case 0x65 => Patt(Unboxed) case 0x66 => Patt(AClosure)
    case 0x70 => Lread case 0x71 => Lwrite case 0x72 => Llength case 0x73 => Lstring case 0x74 => Barray
    case 0xF0 => Stop
    case _ => Unknown
  }

  /** The number of operand words; CLOSURE has captures behind its two. */
  function Operands(op: Op): nat {
    match op
    case Const => 1 case Str => 1 case Jmp => 1 case Cjmp(_) => 1 case Callc => 1
    case ArrayPatt => 1 case Line => 1 case Barray => 1
    case Ld(_) => 1 case Lda(_) => 1 case St(_) => 1
    case MakeSexp => 2 case Begin => 2 case Cbegin => 2 case MakeClosure => 2 case Call => 2
    case Tag => 2 case Fail => 2
    case _ => 0
  }

  predicate MakesObject(op: Op) {
    op.Str? || op.MakeSexp? || op.MakeClosure? || op.Barray? || op.Lstring?
  }

  predicate LooksAtObject(op: Op) {
    op.Sta? || op.Elem? || op.Llength? || op.Tag? || op.ArrayPatt? || op.PattStr? || op.Patt?
  }

  predicate Enters(op: Op) { op.Begin? || op.Cbegin? }

  predicate FallsThrough(op: Op) {
    !(op.Jmp? || op.Ret? || op.Fail? || op.Stop? || op.Unknown?)
  }

  // Results

  datatype Failure = Underflow | Overflow | EndOfCode | Invalid | RuntimeLimit | MatchFailure

  /** Fail: a check reported and the process ended.  Stuck: memory outside the arrays, or an
      object header where there is none, would be read; C++ promises nothing. */
  datatype Result<+T> = Ok(value: T) | Fails(reason: Failure) | Stuck
  {
    predicate IsFailure() { !Ok? }
    function PropagateFailure<U>(): Result<U>
      requires IsFailure()
    {
      if Fails? then Fails(reason) else Stuck
    }
    function Extract(): T
      requires Ok?
    {
      value
    }
  }

  function Validate(condition: bool, reason: Failure): Result<bool> {
    if condition then Ok(true) else Fails(reason)
  }
}
