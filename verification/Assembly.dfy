/** Every program has a file: its functions one behind the other, and a STOP at the end. */
module Assembly {
  import opened Bytecode
  import opened Language
  import opened Postfix
  import opened Correspondence
  import I = Interpreter
  import R = Refinement

  // The size of code depends neither on where it is nor on where functions are

  function Size(e: Expr): nat
    decreases e
  {
    match e
    case One(unary, arg) => Size(arg) + |UnaryCode(unary)|
    case Two(dyadic, left, right) => Size(left) + Size(right) + |DyadicCode(dyadic)|
    case Then(first, second) => Size(first) + 1 + Size(second)
    case If(cond, yes, no) => Size(cond) + 5 + Size(yes) + 5 + Size(no)
    case While(cond, body) => Size(cond) + 5 + Size(body) + 1 + 5 + 5
    case Repeat(body, cond) => Size(body) + 1 + Size(cond) + 5 + 5
    case AssignInto(_, arg) => 5 + Size(arg) + 1
    case Put(target, index, arg) => Size(target) + Size(index) + Size(arg) + 1
    case OnLine(_, arg) => 5 + Size(arg)
    case List(items) => SizeOfItems(items) + 5
    case Construct(_, items) => SizeOfItems(items) + 9
    case Call(_, args) => SizeOfItems(args) + 9
    case CallValue(closure, args) => Size(closure) + SizeOfItems(args) + 5
    case Lambda(_, captured) => 9 + |CapturedCode(captured)|
    case Input => 1
    case _ => 5
  }

  function SizeOfItems(es: Exprs): nat
    decreases es
  {
    if es.End? then 0 else Size(es.head) + SizeOfItems(es.tail)
  }

  lemma {:induction false} SizeIs(e: Expr, layout: Layout, at: nat)
    ensures |Compile(layout, e, at)| == Size(e)
    decreases e, 2
  {
    hide Compile, Size;
    match e
    case One(_, _) => ChainSizeIs(e, layout, at);
    case Two(_, _, _) => ChainSizeIs(e, layout, at);
    case Then(_, _) => ChainSizeIs(e, layout, at);
    case If(_, _, _) =>
      JumpsCompile(layout, e, at);
      IfSizeIs(e, layout, at);
    case While(_, _) =>
      JumpsCompile(layout, e, at);
      WhileSizeIs(e, layout, at);
    case Repeat(_, _) => RepeatSizeIs(e, layout, at);
    case AssignInto(_, _) => FramedSizeIs(e, layout, at);
    case Put(_, _, _) =>
      PutCompiles(layout, e, at);
      PutSizeIs(e, layout, at);
    case OnLine(_, _) => FramedSizeIs(e, layout, at);
    case List(_) => CollectSizeIs(e, layout, at);
    case Construct(_, _) => CollectSizeIs(e, layout, at);
    case Call(_, _) => CollectSizeIs(e, layout, at);
    case CallValue(_, _) => CallSizeIs(e, layout, at);
    case _ => LeafSizeIs(e, layout, at);
  }

  lemma {:induction false} ChainSizeIs(e: Expr, layout: Layout, at: nat)
    requires e.One? || e.Two? || e.Then?
    ensures |Compile(layout, e, at)| == Size(e)
    decreases e, 1
  {
    hide R.Bytes32, CompileIf, CompileWhile, LeafCode, CompileAll, UnaryCode, DyadicCode, Position, CapturedCode;
    match e
    case One(_, arg) => SizeIs(arg, layout, at);
    case Two(_, left, right) =>
      SizeIs(left, layout, at);
      SizeIs(right, layout, at + Size(left));
    case Then(first, second) =>
      SizeIs(first, layout, at);
      SizeIs(second, layout, at + (Size(first) + 1));
  }

  lemma {:induction false} RepeatSizeIs(e: Expr, layout: Layout, at: nat)
    requires e.Repeat?
    ensures |Compile(layout, e, at)| == Size(e)
    decreases e, 1
  {
    hide R.Bytes32, CompileIf, CompileWhile, LeafCode, CompileAll, UnaryCode, DyadicCode, Position, CapturedCode;
    SizeIs(e.body, layout, at);
    SizeIs(e.cond, layout, at + (Size(e.body) + 1));
  }

  lemma {:induction false} FramedSizeIs(e: Expr, layout: Layout, at: nat)
    requires e.AssignInto? || e.OnLine?
    ensures |Compile(layout, e, at)| == Size(e)
    decreases e, 1
  {
    hide R.Bytes32, CompileIf, CompileWhile, LeafCode, CompileAll, UnaryCode, DyadicCode, Position, CapturedCode;
    SizeIs(e.arg, layout, at + 5);
  }

  lemma {:induction false} PutSizeIs(e: Expr, layout: Layout, at: nat)
    requires e.Put?
    ensures |CompilePut(layout, e, at)| == Size(e)
    decreases e, 1
  {
    hide Compile;
    SizeIs(e.target, layout, at);
    SizeIs(e.index, layout, at + Size(e.target));
    SizeIs(e.arg, layout, at + Size(e.target) + Size(e.index));
  }

  lemma {:induction false} CollectSizeIs(e: Expr, layout: Layout, at: nat)
    requires e.List? || e.Construct? || e.Call?
    ensures |Compile(layout, e, at)| == Size(e)
    decreases e, 1
  {
    hide R.Bytes32, CompileIf, CompileWhile, LeafCode, CompileAll, UnaryCode, DyadicCode, Position, CapturedCode;
    ItemsSizeIs(if e.Call? then e.args else e.items, layout, at);
  }

  lemma {:induction false} CallSizeIs(e: Expr, layout: Layout, at: nat)
    requires e.CallValue?
    ensures |Compile(layout, e, at)| == Size(e)
    decreases e, 1
  {
    hide R.Bytes32, CompileIf, CompileWhile, LeafCode, CompileAll, UnaryCode, DyadicCode, Position, CapturedCode;
    SizeIs(e.closure, layout, at);
    ItemsSizeIs(e.args, layout, at + Size(e.closure));
  }

  lemma LeafSizeIs(e: Expr, layout: Layout, at: nat)
    requires e.Number? || e.Literal? || e.Value? || e.Input? || e.Lambda?
    ensures |Compile(layout, e, at)| == Size(e)
  {
    hide R.Bytes32, CapturedCode, Position;
  }

  lemma {:induction false} IfSizeIs(e: Expr, layout: Layout, at: nat)
    requires e.If?
    ensures |CompileIf(layout, e, at)| == Size(e)
    decreases e, 1
  {
    hide R.Bytes32, Compile;
    SizeIs(e.cond, layout, at);
    SizeIs(e.yes, layout, at + Size(e.cond) + 5);
    SizeIs(e.no, layout, at + Size(e.cond) + 5 + Size(e.yes) + 5);
  }

  lemma {:induction false} WhileSizeIs(e: Expr, layout: Layout, at: nat)
    requires e.While?
    ensures |CompileWhile(layout, e, at)| == Size(e)
    decreases e, 1
  {
    hide R.Bytes32, Compile;
    SizeIs(e.cond, layout, at);
    SizeIs(e.body, layout, at + Size(e.cond) + 5);
  }

  lemma {:induction false} ItemsSizeIs(es: Exprs, layout: Layout, at: nat)
    ensures |CompileAll(layout, es, at)| == SizeOfItems(es)
    decreases es, 2
  {
    hide Compile;
    if !es.End? {
      SizeIs(es.head, layout, at);
      ItemsSizeIs(es.tail, layout, at + Size(es.head));
    }
  }

  function SizeOf(f: Fun): nat { 9 + Size(f.body) + 1 }

  lemma FunSize(layout: Layout, f: Fun, at: nat)
    ensures |FunCode(layout, f, at)| == SizeOf(f)
  {
    hide Compile, R.Bytes32;
    SizeIs(f.body, layout, at + 9);
  }

  // One function behind the other

  function SizeOfAll(funs: seq<Fun>): nat
    decreases |funs|
  {
    if funs == [] then 0 else SizeOfAll(funs[..|funs| - 1]) + SizeOf(funs[|funs| - 1])
  }

  function LayoutOf(funs: seq<Fun>): Layout {
    seq(|funs|, f requires 0 <= f < |funs| => SizeOfAll(funs[..f]))
  }

  /** The first n functions. */
  function CodeOf(funs: seq<Fun>, n: nat): seq<Byte>
    requires n <= |funs|
    decreases n
  {
    if n == 0 then []
    else CodeOf(funs, n - 1) + FunCode(LayoutOf(funs), funs[n - 1], LayoutOf(funs)[n - 1])
  }

  lemma {:induction false} CodeSize(funs: seq<Fun>, n: nat)
    requires n <= |funs|
    ensures |CodeOf(funs, n)| == SizeOfAll(funs[..n])
    decreases n
  {
    hide FunCode, SizeOf;
    if n > 0 {
      CodeSize(funs, n - 1);
      FunSize(LayoutOf(funs), funs[n - 1], LayoutOf(funs)[n - 1]);
      assert funs[..n][..n - 1] == funs[..n - 1];
    }
  }

  lemma {:induction false} FunIsThere(funs: seq<Fun>, f: nat, n: nat, rest: seq<Byte>)
    requires f < n <= |funs| && rest != []
    ensures HasCode(CodeOf(funs, n) + rest, LayoutOf(funs)[f], FunCode(LayoutOf(funs), funs[f], LayoutOf(funs)[f]))
    decreases n
  {
    hide FunCode, SizeOfAll;
    var last := FunCode(LayoutOf(funs), funs[n - 1], LayoutOf(funs)[n - 1]);
    assert CodeOf(funs, n) + rest == CodeOf(funs, n - 1) + (last + rest);
    if f < n - 1 {
      FunIsThere(funs, f, n - 1, last + rest);
    } else {
      CodeSize(funs, f);
      var code, at := CodeOf(funs, n) + rest, LayoutOf(funs)[f];
      assert code[at..at + |last|] == last;
    }
  }

  function FileOf(p: Program, globals: nat): Loaded {
    Loaded(I.Context(true, Image(CodeOf(p.funs, |p.funs|) + [0xF0], p.strings, globals), p.lib), p, LayoutOf(p.funs))
  }

  /** The file of any program that is not too big is loaded, with function 0 at its beginning. */
  lemma EveryProgramLoads(p: Program, globals: nat)
    requires SizeOfAll(p.funs) < 0x7FFF_FFFF
    requires forall f :: 0 <= f < |p.funs| ==> p.funs[f].args < 0x8000_0000 && p.funs[f].locals < 0x8000_0000
    ensures IsLoaded(FileOf(p, globals)) && (p.funs != [] ==> FileOf(p, globals).layout[0] == 0)
  {
    hide FunCode, CodeOf, HasCode;
    var m := FileOf(p, globals);
    CodeSize(p.funs, |p.funs|);
    assert p.funs[..|p.funs|] == p.funs;
    forall f | 0 <= f < |p.funs| ensures FunIsLoaded(m, f) { FunIsThere(p.funs, f, |p.funs|, [0xF0]); }
    if p.funs != [] { assert p.funs[..0] == []; }
  }
}
