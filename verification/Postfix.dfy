/** The bytecode of an expression: operands first, jumps to absolute positions, functions at
    the positions of a layout. */
module Postfix {
  import opened Bytecode
  import opened Language
  import R = Refinement

  type Layout = seq<nat>

  function Code1(b: Byte, x: int): seq<Byte> { [b] + R.Bytes32(x) }

  function Code2(b: Byte, x: int, y: int): seq<Byte> { [b] + R.Bytes32(x) + R.Bytes32(y) }

  function OperatorCode(op: Operator): Byte {
    match op
    case Plus => 0x01 case Minus => 0x02 case Times => 0x03 case Over => 0x04 case Rest => 0x05
    case Less => 0x06 case AtMost => 0x07 case More => 0x08 case AtLeast => 0x09
    case Differs => 0x0B case Both => 0x0C case Either => 0x0D
  }

  function PlaceCode(place: Place): Byte {
    match place
    case Global => 0 case Local => 1 case Argument => 2 case Captured => 3
  }

  function KindCode(kind: Kind): Byte {
    match kind
    case AString => 0x61 case AnArray => 0x62 case ASexp => 0x63
    case Boxed => 0x64 case Unboxed => 0x65 case AClosure => 0x66
  }

  function Load(x: Variable): seq<Byte> { Code1(0x20 + PlaceCode(x.place), x.index) }

  function LoadAddress(x: Variable): seq<Byte> { Code1(0x30 + PlaceCode(x.place), x.index) }

  function StoreCode(x: Variable): seq<Byte> { Code1(0x40 + PlaceCode(x.place), x.index) }

  function CapturedCode(xs: seq<Variable>): seq<Byte>
    decreases |xs|
  {
    if xs == [] then [] else Code1(PlaceCode(xs[0].place), xs[0].index) + CapturedCode(xs[1..])
  }

  function Position(layout: Layout, callee: nat): nat {
    if callee < |layout| then layout[callee] else 0
  }

  function UnaryCode(u: Unary): seq<Byte> {
    match u
    case Assign(x) => StoreCode(x)
    case AssignThrough(x) => LoadAddress(x) + [0x13]
    case Twice(operator) => [0x19] + [OperatorCode(operator)]
    case Length => [0x72]
    case Is(kind) => [KindCode(kind)]
    case IsArray(size) => Code1(0x58, size)
    case IsSexp(tag, size) => Code2(0x57, tag, size)
    case Output => [0x71]
    case Show => [0x73]
    case Abort(line, column) => Code2(0x59, line, column)
  }

  function DyadicCode(d: Dyadic): seq<Byte> {
    match d
    case Apply(operator) => [OperatorCode(operator)]
    case Reordered(operator) => [0x1A] + [OperatorCode(operator)]
    case Equal => [0x0A]
    case At => [0x1B]
    case SameText => [0x60]
  }

  function LeafCode(layout: Layout, e: Expr): seq<Byte>
    requires e.Number? || e.Literal? || e.Value? || e.Input? || e.Lambda?
  {
    match e
    case Number(n) => Code1(0x10, n)
    case Literal(pos) => Code1(0x11, pos)
    case Value(x) => Load(x)
    case Input => [0x70]
    case Lambda(callee, captured) =>
      Code2(0x54, Position(layout, callee), |captured|) + CapturedCode(captured)
  }

  /** The code of an expression at a position. */
  function Compile(layout: Layout, e: Expr, at: nat): seq<Byte>
    decreases e, 1
  {
    match e
    case One(unary, arg) => Compile(layout, arg, at) + UnaryCode(unary)
    case Two(dyadic, left, right) =>
      var a := Compile(layout, left, at);
      a + Compile(layout, right, at + |a|) + DyadicCode(dyadic)
    case Then(first, second) =>
      var a := Compile(layout, first, at) + [0x18];
      a + Compile(layout, second, at + |a|)
    case If(_, _, _) => CompileIf(layout, e, at)
    case While(_, _) => CompileWhile(layout, e, at)
    case Repeat(body, cond) =>
      var a := Compile(layout, body, at) + [0x18];
      a + Compile(layout, cond, at + |a|) + Code1(0x51, at) + Code1(0x10, 0)
    case AssignInto(x, arg) => LoadAddress(x) + Compile(layout, arg, at + 5) + [0x14]
    case Put(_, _, _) => CompilePut(layout, e, at)
    case OnLine(line, arg) => Code1(0x5A, line) + Compile(layout, arg, at + 5)
    case List(items) => CompileAll(layout, items, at) + Code1(0x74, Count(items))
    case Construct(tag, items) => CompileAll(layout, items, at) + Code2(0x12, tag, Count(items))
    case Call(callee, args) => CompileAll(layout, args, at) + Code2(0x56, Position(layout, callee), Count(args))
    case CallValue(closure, args) =>
      var a := Compile(layout, closure, at);
      a + CompileAll(layout, args, at + |a|) + Code1(0x55, Count(args))
    case _ => LeafCode(layout, e)
  }

  /** CJMPZ over the first branch, JMP over the second. */
  function CompileIf(layout: Layout, e: Expr, at: nat): seq<Byte>
    requires e.If?
    decreases e, 0
  {
    var cond := Compile(layout, e.cond, at);
    var yes := Compile(layout, e.yes, at + |cond| + 5);
    var other := at + |cond| + 5 + |yes| + 5;
    var no := Compile(layout, e.no, other);
    cond + Code1(0x50, other) + yes + Code1(0x15, other + |no|) + no
  }

  /** CJMPZ behind the loop, JMP back to the condition; the value of the loop is 0. */
  function CompileWhile(layout: Layout, e: Expr, at: nat): seq<Byte>
    requires e.While?
    decreases e, 0
  {
    var cond := Compile(layout, e.cond, at);
    var body := Compile(layout, e.body, at + |cond| + 5) + [0x18];
    cond + Code1(0x50, at + |cond| + 5 + |body| + 5) + body + Code1(0x15, at) + Code1(0x10, 0)
  }

  /** STA finds the object, the index and the value. */
  function CompilePut(layout: Layout, e: Expr, at: nat): seq<Byte>
    requires e.Put?
    decreases e, 0
  {
    var target := Compile(layout, e.target, at);
    var index := Compile(layout, e.index, at + |target|);
    target + index + Compile(layout, e.arg, at + |target| + |index|) + [0x14]
  }

  lemma JumpsCompile(layout: Layout, e: Expr, at: nat)
    ensures e.If? ==> Compile(layout, e, at) == CompileIf(layout, e, at)
    ensures e.While? ==> Compile(layout, e, at) == CompileWhile(layout, e, at)
  {
    hide CompileIf, CompileWhile;
  }

  lemma PutCompiles(layout: Layout, e: Expr, at: nat)
    requires e.Put?
    ensures Compile(layout, e, at) == CompilePut(layout, e, at)
  {
    hide CompilePut;
  }

  function CompileAll(layout: Layout, es: Exprs, at: nat): seq<Byte>
    decreases es, 1
  {
    if es.End? then []
    else
      var a := Compile(layout, es.head, at);
      a + CompileAll(layout, es.tail, at + |a|)
  }

  function FunCode(layout: Layout, f: Fun, at: nat): seq<Byte> {
    Code2(if f.closure then 0x53 else 0x52, f.args, f.locals) + Compile(layout, f.body, at + 9) +
    [if f.closure then 0x17 else 0x16]
  }

  // Code in a file

  /** These bytes are at this position, and are not the last ones. */
  ghost predicate HasCode(code: seq<Byte>, at: nat, bytes: seq<Byte>) {
    at + |bytes| < |code| && code[at..at + |bytes|] == bytes
  }

  lemma HasBoth(code: seq<Byte>, at: nat, a: seq<Byte>, b: seq<Byte>)
    requires HasCode(code, at, a + b)
    ensures HasCode(code, at, a) && HasCode(code, at + |a|, b)
  {
    var all := code[at..at + |a + b|];
    assert code[at..at + |a|] == all[..|a|] == (a + b)[..|a|] == a;
    assert code[at + |a|..at + |a| + |b|] == all[|a|..] == (a + b)[|a|..] == b;
  }

  lemma HasThree(code: seq<Byte>, at: nat, a: seq<Byte>, b: seq<Byte>, c: seq<Byte>)
    requires HasCode(code, at, a + b + c)
    ensures HasCode(code, at, a) && HasCode(code, at + |a|, b) && HasCode(code, at + |a| + |b|, c)
  {
    hide HasCode;
    HasBoth(code, at, a + b, c);
    HasBoth(code, at, a, b);
  }

  lemma HasByte(code: seq<Byte>, at: nat, b: Byte)
    requires HasCode(code, at, [b])
    ensures at + 1 < |code| && code[at] == b
  {
    assert code[at..at + 1][0] == b;
  }

  lemma HasWord(code: seq<Byte>, at: nat, x: Int32)
    requires HasCode(code, at, R.Bytes32(x))
    ensures at + 4 < |code| && Int32At(code, at) == x
  {
    hide I32, R.Bytes32;
    R.BytesRead(x);
    var w := code[at..at + 4];
    assert w[0] == code[at] && w[1] == code[at + 1] && w[2] == code[at + 2] && w[3] == code[at + 3];
    IsI32(x);
  }

  lemma IsI32(x: Int32)
    ensures I32(x) == x
  {}

  lemma HasCode1(code: seq<Byte>, at: nat, b: Byte, x: Int32)
    requires HasCode(code, at, Code1(b, x))
    ensures at + 5 < |code| && code[at] == b && Int32At(code, at + 1) == x
  {
    hide HasCode, Int32At, R.Bytes32;
    HasBoth(code, at, [b], R.Bytes32(x));
    HasByte(code, at, b);
    HasWord(code, at + 1, x);
  }

  lemma HasCode2(code: seq<Byte>, at: nat, b: Byte, x: Int32, y: Int32)
    requires HasCode(code, at, Code2(b, x, y))
    ensures at + 9 < |code| && code[at] == b && Int32At(code, at + 1) == x && Int32At(code, at + 5) == y
  {
    hide HasCode, Int32At, R.Bytes32;
    HasThree(code, at, [b], R.Bytes32(x), R.Bytes32(y));
    HasByte(code, at, b);
    HasWord(code, at + 1, x);
    HasWord(code, at + 5, y);
  }

  lemma {:induction false} EveryValueIsCoded(layout: Layout, es: Exprs, at: nat)
    ensures Count(es) <= |CompileAll(layout, es, at)|
    decreases es
  {
    hide Compile;
    if !es.End? {
      var a := Compile(layout, es.head, at);
      SomeCode(layout, es.head, at);
      EveryValueIsCoded(layout, es.tail, at + |a|);
    }
  }

  lemma SomeCode(layout: Layout, e: Expr, at: nat)
    ensures |Compile(layout, e, at)| > 0
  {
    hide CompileAll;
  }
}
