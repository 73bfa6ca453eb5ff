/** What Lama's expressions mean, without code, addresses or a stack.  The bytecode of
    Postfix.dfy is proved against this evaluator, and with it every instruction. */
module Language {
  import opened Bytecode
  import opened Options
  import I = Interpreter
  import W = Words

  type Int32 = x: int | -0x8000_0000 <= x < 0x8000_0000

  datatype Operator =
    | Plus | Minus | Times | Over | Rest | Less | AtMost | More | AtLeast | Differs | Both | Either

  datatype Variable = Variable(place: Place, index: Int32)

  datatype Unary =
    | Assign(x: Variable) | AssignThrough(x: Variable) | Twice(operator: Operator) | Length
    | Is(kind: Kind) | IsArray(size: Int32) | IsSexp(tag: Int32, size: Int32)
    | Output | Show | Abort(line: Int32, column: Int32)

  datatype Dyadic = Apply(operator: Operator) | Reordered(operator: Operator) | Equal | At | SameText

  datatype Expr =
    | Number(n: Int32) | Literal(pos: Int32) | Value(x: Variable) | Input
    | One(unary: Unary, arg: Expr)
    | Two(dyadic: Dyadic, left: Expr, right: Expr)
    | Then(first: Expr, second: Expr)
    | If(cond: Expr, yes: Expr, no: Expr)
    | While(cond: Expr, body: Expr)
    | Repeat(body: Expr, cond: Expr)
    | AssignInto(x: Variable, arg: Expr)
    | Put(target: Expr, index: Expr, arg: Expr)
    | OnLine(line: Int32, arg: Expr)
    | List(items: Exprs)
    | Construct(tag: Int32, items: Exprs)
    | Lambda(callee: nat, captured: seq<Variable>)
    | Call(callee: nat, args: Exprs)
    | CallValue(closure: Expr, args: Exprs)

  datatype Exprs = End | More(head: Expr, tail: Exprs)

  function Count(es: Exprs): nat {
    if es.End? then 0 else 1 + Count(es.tail)
  }

  /** `closure` functions begin with CBEGIN. */
  datatype Fun = Fun(closure: bool, args: nat, locals: nat, body: Expr)

  datatype Program = Program(funs: seq<Fun>, strings: string, lib: I.Library)

  /** The variables in sight, what they lead to, and what was read and written.  A closure in
      this heap holds the number of its function; a new local has no value yet. */
  datatype Env = Env(
    globals: seq<I.Value>, args: seq<I.Value>, locals: seq<Option<I.Value>>, self: Option<nat>, depth: nat,
    heap: seq<I.Object>, input: seq<int>, output: seq<int>)

  /** Evaluation changes what variables hold, not which ones there are. */
  ghost predicate SameShape(a: Env, b: Env) {
    && |a.globals| == |b.globals| && |a.args| == |b.args| && |a.locals| == |b.locals|
    && a.self == b.self && a.depth == b.depth
  }

  // Numbers

  /** The 32-bit number that differs from x by a multiple of 2^32. */
  function Wrap(x: int): (r: Int32)
    ensures (r - x) % 0x1_0000_0000 == 0
  {
    (x + 0x8000_0000) % 0x1_0000_0000 - 0x8000_0000
  }

  /** Division that cuts towards zero. */
  function Divide(x: int, y: int): int
    requires y != 0
  {
    if x >= 0 then x / y else -(-x / y)
  }

  function Truth(b: bool): int {
    if b then 1 else 0
  }

  function Calculate(op: Operator, x: Int32, y: Int32): Result<int> {
    match op
    case Plus => Ok(Wrap(x + y))
    case Minus => Ok(Wrap(x - y))
    case Times => Ok(Wrap(x * y))
    case Over => if y == 0 then Fails(Invalid) else Ok(Wrap(Divide(x, y)))
    case Rest => if y == 0 then Fails(Invalid) else Ok(Wrap(x - y * Divide(x, y)))
    case Less => Ok(Truth(x < y))
    case AtMost => Ok(Truth(x <= y))
    case More => Ok(Truth(x > y))
    case AtLeast => Ok(Truth(x >= y))
    case Differs => Ok(Truth(x != y))
    case Both => Ok(Truth(x != 0 && y != 0))
    case Either => Ok(Truth(x != 0 || y != 0))
  }

  function CalculateValues(op: Operator, x: I.Value, y: I.Value): Result<I.Value> {
    if !x.Int? || !y.Int? then Fails(Invalid)
    else
      var z :- Calculate(op, Wrap(x.n), Wrap(y.n));
      Ok(I.Int(z))
  }

  // Objects

  /** The array, text or S-expression that a value is. */
  function ObjectOf(heap: seq<I.Object>, v: I.Value): Result<I.Object> {
    if v.Int? then Fails(Invalid)
    else if !v.Obj? || v.id >= |heap| then Stuck
    else if heap[v.id].Closure? then Fails(Invalid)
    else Ok(heap[v.id])
  }

  function LengthOf(o: I.Object): nat {
    match o
    case Text(chars) => |chars|
    case Array(items) => |items|
    case Sexp(_, items) => |items|
    case Closure(_, captures) => |captures|
  }

  function ItemAt(heap: seq<I.Object>, v: I.Value, index: I.Value): Result<I.Value> {
    if !index.Int? then Fails(Invalid)
    else
      var o :- ObjectOf(heap, v);
      var i := Wrap(index.n);
      if i < 0 || i >= LengthOf(o) then Fails(Invalid)
      else Ok(if o.Text? then I.Int(W.SignedChar(o.chars[i] as int % 0x100)) else
        if o.Closure? then I.Null else o.items[i])
  }

  function PutAt(heap: seq<I.Object>, v: I.Value, index: I.Value, x: I.Value): Result<seq<I.Object>> {
    if !index.Int? then Stuck
    else
      var o :- ObjectOf(heap, v);
      var i := Wrap(index.n);
      if i < 0 || i >= LengthOf(o) then Fails(Invalid)
      else match o
        case Text(chars) =>
          if x.Int? then Ok(heap[v.id := I.Text(chars[i := (x.n % 0x100) as char])]) else Stuck
        case Array(items) => Ok(heap[v.id := I.Array(items[i := x])])
        case Sexp(tag, items) => Ok(heap[v.id := I.Sexp(tag, items[i := x])])
        case Closure(_, _) => Stuck
  }

  function IsOf(heap: seq<I.Object>, v: I.Value, kind: Kind): Result<bool> {
    match kind
    case Boxed => Ok(!v.Int?)
    case Unboxed => Ok(v.Int?)
    case _ =>
      if v.Int? then Ok(false)
      else if !v.Obj? || v.id >= |heap| then Stuck
      else match heap[v.id]
        case Text(_) => Ok(kind == AString)
        case Array(_) => Ok(kind == AnArray)
        case Sexp(_, _) => Ok(kind == ASexp)
        case Closure(_, _) => Ok(kind == AClosure)
  }

  function IsArrayOf(heap: seq<I.Object>, v: I.Value, size: int): Result<bool> {
    if size < 0 then Fails(Invalid)
    else
      var yes :- IsOf(heap, v, AnArray);
      Ok(yes && LengthOf(heap[v.id]) == size)
  }

  function TextAt(p: Program, pos: int): Result<string> {
    if 0 <= pos < |p.strings| then Ok(W.CString(p.strings[pos..], '\0')) else Fails(Invalid)
  }

  function TagAt(p: Program, pos: int): Result<int> {
    var tag :- TextAt(p, pos);
    if p.lib.hashable(tag) then Ok(p.lib.tagHash(tag)) else Fails(Invalid)
  }

  function IsSexpOf(p: Program, heap: seq<I.Object>, v: I.Value, pos: int, size: int): Result<bool> {
    var _ :- TextAt(p, pos);
    if size < 0 then Fails(Invalid)
    else
      var yes :- IsOf(heap, v, ASexp);
      if !yes then Ok(false)
      else
        var tag :- TagAt(p, pos);
        Ok(heap[v.id].tag == tag && LengthOf(heap[v.id]) == size)
  }

  /** The pattern on the right is a text, or a number, which no text matches. */
  function SameTexts(heap: seq<I.Object>, x: I.Value, y: I.Value): Result<bool> {
    var pattern :- IsOf(heap, y, AString);
    if !pattern && !y.Int? then Fails(Invalid)
    else
      var text :- IsOf(heap, x, AString);
      if !text then Ok(false)
      else if y.Int? then Stuck
      else Ok(W.CString(heap[x.id].chars, '\0') == W.CString(heap[y.id].chars, '\0'))
  }

  ghost predicate NoClosures(heap: seq<I.Object>) {
    forall i :: 0 <= i < |heap| ==> !heap[i].Closure?
  }

  function New(env: Env, o: I.Object): (I.Value, Env) {
    (I.Obj(|env.heap|), env.(heap := env.heap + [o]))
  }

  // Variables

  function Captures(env: Env): Result<seq<I.Value>> {
    if env.self.Some? && env.self.value < |env.heap| && env.heap[env.self.value].Closure?
    then Ok(env.heap[env.self.value].captures)
    else Stuck
  }

  /** Whether there is such a variable.  Of one capture too many nothing is said: closures are
      made with an unused one. */
  function Exists(env: Env, x: Variable): Result<bool> {
    match x.place
    case Global => Validate(0 <= x.index < |env.globals|, Invalid)
    case Local => Validate(0 <= x.index < |env.locals|, Invalid)
    case Argument => Validate(0 <= x.index < |env.args|, Invalid)
    case Captured =>
      var captures :- Captures(env);
      if x.index == |captures| then Stuck else Validate(0 <= x.index < |captures|, Invalid)
  }

  function Lookup(env: Env, x: Variable): Result<I.Value> {
    var _ :- Exists(env, x);
    match x.place
    case Global => Ok(env.globals[x.index])
    case Local => if env.locals[x.index].Some? then Ok(env.locals[x.index].value) else Stuck
    case Argument => Ok(env.args[x.index])
    case Captured => Ok(env.heap[env.self.value].captures[x.index])
  }

  function Update(env: Env, x: Variable, v: I.Value): (r: Result<Env>)
    ensures r.Ok? ==> SameShape(env, r.value) && Lookup(r.value, x) == Ok(v)
  {
    var _ :- Exists(env, x);
    match x.place
    case Global => Ok(env.(globals := env.globals[x.index := v]))
    case Local => Ok(env.(locals := env.locals[x.index := Some(v)]))
    case Argument => Ok(env.(args := env.args[x.index := v]))
    case Captured =>
      var o := env.heap[env.self.value];
      Ok(env.(heap := env.heap[env.self.value := I.Closure(o.code, o.captures[x.index := v])]))
  }

  function LookupAll(env: Env, xs: seq<Variable>, room: nat): (r: Result<seq<I.Value>>)
    ensures r.Ok? ==> |r.value| == |xs| <= room
    decreases |xs|
  {
    if xs == [] then Ok([])
    else
      var v :- Lookup(env, xs[0]);
      var _ :- Validate(room > 0, Overflow);
      var vs :- LookupAll(env, xs[1..], room - 1);
      Ok([v] + vs)
  }

  // Expressions; `room` is the number of values that the stack still takes

  datatype Got = Got(value: I.Value, env: Env)

  function Give(v: I.Value, env: Env, room: nat): Result<Got> {
    if room > 0 then Ok(Got(v, env)) else Fails(Overflow)
  }

  function GiveNew(o: I.Object, env: Env, room: nat): Result<Got> {
    var (v, env) := New(env, o);
    Give(v, env, room)
  }

  function EvalLeaf(p: Program, e: Expr, env: Env, room: nat): (r: Result<Got>)
    requires e.Number? || e.Literal? || e.Value? || e.Input? || e.Lambda?
    ensures r.Ok? ==> room > 0 && SameShape(env, r.value.env)
  {
    match e
    case Number(n) => Give(I.Int(n), env, room)
    case Literal(pos) =>
      var chars :- TextAt(p, pos);
      GiveNew(I.Text(chars), env, room)
    case Value(x) =>
      var v :- Lookup(env, x);
      Give(v, env, room)
    case Input =>
      if env.input == [] then Give(I.Int(1), env, room)
      else Give(I.Int(env.input[0]), env.(input := env.input[1..]), room)
    case Lambda(callee, captured) => Capture(p, callee, captured, env, room)
  }

  /** The captured values; one more cell than they take must be free. */
  function Capture(p: Program, callee: nat, captured: seq<Variable>, env: Env, room: nat): (r: Result<Got>)
    ensures r.Ok? ==> room > 0 && SameShape(env, r.value.env)
  {
    if callee >= |p.funs| then Stuck
    else if room == 0 then Fails(Overflow)
    else
      var vs :- LookupAll(env, captured, room - 1);
      if |vs| + 1 > W.MAX_EXTRA_ROOTS_NUMBER then Fails(RuntimeLimit)
      else if |vs| + 1 == room then Stuck
      else GiveNew(I.Closure(callee, vs), env, room)
  }

  ghost function EvalUnary(p: Program, u: Unary, v: I.Value, env: Env, room: nat): (r: Result<Got>)
    requires room > 0
    ensures r.Ok? ==> SameShape(env, r.value.env)
  {
    match u
    case Assign(x) =>
      var env :- Update(env, x, v);
      Ok(Got(v, env))
    case AssignThrough(x) =>
      var env :- Update(env, x, v);
      if room < 2 then Fails(Overflow) else Ok(Got(v, env))
    case Twice(operator) =>
      if room < 2 then Fails(Overflow)
      else
        var z :- CalculateValues(operator, v, v);
        Ok(Got(z, env))
    case Length =>
      var o :- ObjectOf(env.heap, v);
      Ok(Got(I.Int(Wrap(LengthOf(o))), env))
    case Is(kind) =>
      var b :- IsOf(env.heap, v, kind);
      Ok(Got(I.Int(Truth(b)), env))
    case IsArray(size) =>
      var b :- IsArrayOf(env.heap, v, size);
      Ok(Got(I.Int(Truth(b)), env))
    case IsSexp(tag, size) =>
      var b :- IsSexpOf(p, env.heap, v, tag, size);
      Ok(Got(I.Int(Truth(b)), env))
    case Output => if v.Int? then Ok(Got(I.Null, env.(output := env.output + [v.n]))) else Fails(Invalid)
    case Show => if NoClosures(env.heap) then GiveNew(I.Text(p.lib.text(env.heap, v)), env, room) else Stuck
    case Abort(_, _) => Fails(MatchFailure)
  }

  function EvalDyadic(d: Dyadic, x: I.Value, y: I.Value, heap: seq<I.Object>): Result<I.Value> {
    match d
    case Apply(operator) => CalculateValues(operator, x, y)
    case Reordered(operator) => CalculateValues(operator, x, y)
    case Equal =>
      if x.Int? && y.Int? then Ok(I.Int(Truth(Wrap(x.n) == Wrap(y.n))))
      else if x.Int? || y.Int? then Ok(I.Int(0))
      else Fails(Invalid)
    case At => ItemAt(heap, x, y)
    case SameText =>
      var b :- SameTexts(heap, x, y);
      Ok(I.Int(Truth(b)))
  }

  /** The array or S-expression of these items. */
  function Collect(p: Program, e: Expr, vs: seq<I.Value>, env: Env, room: nat): (r: Result<Got>)
    requires (e.List? || e.Construct?) && |vs| <= room
    ensures r.Ok? ==> room > 0 && SameShape(env, r.value.env)
  {
    if e.List? then
      if |vs| > W.MAX_EXTRA_ROOTS_NUMBER then Fails(RuntimeLimit) else GiveNew(I.Array(vs), env, room)
    else
      var tag :- TagAt(p, e.tag);
      if |vs| == room then Stuck
      else if |vs| > W.MAX_EXTRA_ROOTS_NUMBER then Fails(RuntimeLimit)
      else GiveNew(I.Sexp(tag, vs), env, room)
  }

  /** The environment of a new activation, in which the locals have no values. */
  function Enter(p: Program, callee: int, vs: seq<I.Value>, self: Option<nat>, env: Env, room: nat): (r: Result<Env>)
    ensures r.Ok? ==> 0 <= callee < |p.funs| && p.funs[callee].locals <= room && |vs| == p.funs[callee].args
  {
    if !(0 <= callee < |p.funs|) || |vs| != p.funs[callee].args then Stuck
    else if p.funs[callee].closure && self.None? then Fails(Invalid)
    else if p.funs[callee].locals > room || env.depth + 1 > I.MAX_FRAMES_SIZE then Fails(Overflow)
    else
      Ok(env.(args := vs, locals := seq(p.funs[callee].locals, i => None), self := self, depth := env.depth + 1))
  }

  /** Back from an activation, which has changed nothing but what everyone sees. */
  function Leave(env: Env, callee: Env): Env {
    env.(globals := callee.globals, heap := callee.heap, input := callee.input, output := callee.output)
  }

  /** The function that a value is, if it is a closure. */
  function ClosureOf(heap: seq<I.Object>, v: I.Value): Result<int> {
    if v.Int? then Fails(Invalid)
    else if !v.Obj? || v.id >= |heap| then Stuck
    else if !heap[v.id].Closure? then Fails(Invalid)
    else Ok(heap[v.id].code)
  }

  function IsTrue(v: I.Value): Result<bool> {
    if v.Int? then Ok(Wrap(v.n) != 0) else Fails(Invalid)
  }

  /** Of the ending condition of REPEAT, only 1 goes on. */
  function IsOne(v: I.Value): Result<bool> {
    if v.Int? then Ok(Wrap(v.n) == 1) else Fails(Invalid)
  }

  /** The value of an expression and the environment behind it.  Fails: evaluation ends with
      this failure.  Stuck: nothing is said, as where a local is used that has no value, or the
      fuel of loops and calls is used up. */
  ghost function Eval(p: Program, fuel: nat, e: Expr, env: Env, room: nat): (r: Result<Got>)
    ensures r.Ok? ==> room > 0 && SameShape(env, r.value.env)
    decreases fuel, e, 2
  {
    match e
    case One(unary, arg) =>
      var a :- Eval(p, fuel, arg, env, room);
      EvalUnary(p, unary, a.value, a.env, room)
    case Two(_, _, _) => EvalTwo(p, fuel, e, env, room)
    case Then(first, second) =>
      var a :- Eval(p, fuel, first, env, room);
      Eval(p, fuel, second, a.env, room)
    case If(cond, yes, no) =>
      var a :- Eval(p, fuel, cond, env, room);
      var b :- IsTrue(a.value);
      if b then Eval(p, fuel, yes, a.env, room) else Eval(p, fuel, no, a.env, room)
    case While(_, _) => EvalWhile(p, fuel, e, env, room)
    case Repeat(_, _) => EvalRepeat(p, fuel, e, env, room)
    case AssignInto(x, arg) =>
      var _ :- Exists(env, x);
      if room == 0 then Fails(Overflow)
      else
        var a :- Eval(p, fuel, arg, env, room - 1);
        var u := Update(a.env, x, a.value);
        if u.Ok? then Ok(Got(a.value, u.value)) else Stuck
    case Put(_, _, _) => EvalPut(p, fuel, e, env, room)
    case OnLine(_, arg) => Eval(p, fuel, arg, env, room)
    case List(items) => EvalItems(p, fuel, e, env, room)
    case Construct(_, items) => EvalItems(p, fuel, e, env, room)
    case Call(_, _) => EvalCall(p, fuel, e, env, room)
    case CallValue(_, _) => EvalCallValue(p, fuel, e, env, room)
    case _ => EvalLeaf(p, e, env, room)
  }

  ghost function EvalTwo(p: Program, fuel: nat, e: Expr, env: Env, room: nat): (r: Result<Got>)
    requires e.Two?
    ensures r.Ok? ==> room > 1 && SameShape(env, r.value.env)
    decreases fuel, e, 1
  {
    var a :- Eval(p, fuel, e.left, env, room);
    var b :- Eval(p, fuel, e.right, a.env, room - 1);
    var z :- EvalDyadic(e.dyadic, a.value, b.value, b.env.heap);
    Ok(Got(z, b.env))
  }

  ghost function EvalPut(p: Program, fuel: nat, e: Expr, env: Env, room: nat): (r: Result<Got>)
    requires e.Put?
    ensures r.Ok? ==> room > 2 && SameShape(env, r.value.env)
    decreases fuel, e, 1
  {
    var a :- Eval(p, fuel, e.target, env, room);
    var b :- Eval(p, fuel, e.index, a.env, room - 1);
    var d :- Eval(p, fuel, e.arg, b.env, room - 2);
    var heap :- PutAt(d.env.heap, a.value, b.value, d.value);
    Ok(Got(d.value, d.env.(heap := heap)))
  }

  ghost function EvalWhile(p: Program, fuel: nat, e: Expr, env: Env, room: nat): (r: Result<Got>)
    requires e.While?
    ensures r.Ok? ==> room > 0 && SameShape(env, r.value.env)
    decreases fuel, e, 1
  {
    var a :- Eval(p, fuel, e.cond, env, room);
    var b :- IsTrue(a.value);
    if !b then Ok(Got(I.Int(0), a.env))
    else
      var d :- Eval(p, fuel, e.body, a.env, room);
      if fuel == 0 then Stuck else Eval(p, fuel - 1, e, d.env, room)
  }

  ghost function EvalRepeat(p: Program, fuel: nat, e: Expr, env: Env, room: nat): (r: Result<Got>)
    requires e.Repeat?
    ensures r.Ok? ==> room > 0 && SameShape(env, r.value.env)
    decreases fuel, e, 1
  {
    var a :- Eval(p, fuel, e.body, env, room);
    var d :- Eval(p, fuel, e.cond, a.env, room);
    var b :- IsOne(d.value);
    if !b then Ok(Got(I.Int(0), d.env))
    else if fuel == 0 then Stuck
    else Eval(p, fuel - 1, e, d.env, room)
  }

  datatype GotAll = GotAll(values: seq<I.Value>, env: Env)

  ghost function EvalAll(p: Program, fuel: nat, es: Exprs, env: Env, room: nat): (r: Result<GotAll>)
    ensures r.Ok? ==> |r.value.values| == Count(es) <= room && SameShape(env, r.value.env)
    decreases fuel, es, 2
  {
    if es.End? then Ok(GotAll([], env))
    else
      var a :- Eval(p, fuel, es.head, env, room);
      var b :- EvalAll(p, fuel, es.tail, a.env, room - 1);
      Ok(GotAll([a.value] + b.values, b.env))
  }

  ghost function EvalItems(p: Program, fuel: nat, e: Expr, env: Env, room: nat): (r: Result<Got>)
    requires e.List? || e.Construct?
    ensures r.Ok? ==> room > 0 && SameShape(env, r.value.env)
    decreases fuel, e, 1
  {
    var a :- EvalAll(p, fuel, e.items, env, room);
    Collect(p, e, a.values, a.env, room)
  }

  /** The body of a function, with what its activation leaves to the caller. */
  ghost function EvalBody(
      p: Program, fuel: nat, callee: int, vs: seq<I.Value>, self: Option<nat>, env: Env, room: nat): (r: Result<Got>)
    ensures r.Ok? ==> SameShape(env, r.value.env) && 0 <= callee < |p.funs| && room > p.funs[callee].locals
    decreases fuel
  {
    var inner :- Enter(p, callee, vs, self, env, room);
    var a :- Eval(p, fuel, p.funs[callee].body, inner, room - p.funs[callee].locals);
    Ok(Got(a.value, Leave(env, a.env)))
  }

  ghost function EvalCall(p: Program, fuel: nat, e: Expr, env: Env, room: nat): (r: Result<Got>)
    requires e.Call?
    ensures r.Ok? ==> room > 0 && SameShape(env, r.value.env)
    decreases fuel, e, 1
  {
    var a :- EvalAll(p, fuel, e.args, env, room);
    if fuel == 0 then Stuck else EvalBody(p, fuel - 1, e.callee, a.values, None, a.env, room - Count(e.args))
  }

  ghost function EvalCallValue(p: Program, fuel: nat, e: Expr, env: Env, room: nat): (r: Result<Got>)
    requires e.CallValue?
    ensures r.Ok? ==> room > 0 && SameShape(env, r.value.env)
    decreases fuel, e, 1
  {
    var a :- Eval(p, fuel, e.closure, env, room);
    var b :- EvalAll(p, fuel, e.args, a.env, room - 1);
    var callee :- ClosureOf(b.env.heap, a.value);
    if fuel == 0 then Stuck
    else EvalBody(p, fuel - 1, callee, b.values, Some(a.value.id), b.env, room - 1 - Count(e.args))
  }

  /** A program: function 0, with the two arguments that the interpreter starts with. */
  ghost function EvalProgram(p: Program, fuel: nat, globals: nat, input: seq<int>): Result<Got> {
    if globals + 2 >= I.MAX_STACK_SIZE then Fails(Overflow)
    else
      EvalBody(p, fuel, 0, [I.Null, I.Null], None,
        Env(seq(globals, i => I.Null), [], [], None, 0, [], input, []), I.MAX_STACK_SIZE - globals - 2)
  }

  // What holds of all of this

  /** The quotient cuts towards zero: the rest is smaller than the divisor and has the sign of
      the dividend. */
  lemma DivideCuts(x: int, y: int)
    requires y != 0
    ensures var rest := x - y * Divide(x, y);
      && (if y > 0 then -y < rest < y else y < rest < -y)
      && (x >= 0 ==> rest >= 0) && (x <= 0 ==> rest <= 0)
  {
    if x >= 0 { assert x == y * (x / y) + x % y; } else { assert -x == y * (-x / y) + -x % y; }
  }

  /** A store changes no other variable. */
  lemma OthersStay(env: Env, x: Variable, v: I.Value, y: Variable)
    requires Update(env, x, v).Ok? && (y.place != x.place || y.index != x.index)
    ensures Lookup(Update(env, x, v).value, y) == Lookup(env, y)
  {}

  /** What was put is what is found, as a signed character in a text; every other element of
      every object stays. */
  lemma PutIsFound(heap: seq<I.Object>, v: I.Value, index: I.Value, x: I.Value)
    requires PutAt(heap, v, index, x).Ok?
    ensures var heap2 := PutAt(heap, v, index, x).value;
      && |heap2| == |heap| && v.Obj? && v.id < |heap|
      && ItemAt(heap2, v, index) == Ok(if heap[v.id].Text? then I.Int(W.SignedChar(x.n % 0x100)) else x)
      && (forall w: I.Value, i: I.Value :: w != v || !i.Int? || Wrap(i.n) != Wrap(index.n) ==>
        ItemAt(heap2, w, i) == ItemAt(heap, w, i))
  {
    hide Wrap;
    var heap2 := PutAt(heap, v, index, x).value;
    forall w: I.Value, i: I.Value | w != v || !i.Int? || Wrap(i.n) != Wrap(index.n)
      ensures ItemAt(heap2, w, i) == ItemAt(heap, w, i)
    {}
  }

  /** x := e; x is e, whichever of the three stores is used, wherever x is. */
  lemma LoadAfterStore(p: Program, fuel: nat, x: Variable, e: Expr, store: Expr, env: Env, room: nat)
    requires store == One(Assign(x), e) || store == One(AssignThrough(x), e) || store == AssignInto(x, e)
    requires Eval(p, fuel, store, env, room).Ok?
    ensures Eval(p, fuel, Then(store, Value(x)), env, room) == Eval(p, fuel, store, env, room)
    ensures var r := Eval(p, fuel, e, env, if store.AssignInto? then room - 1 else room);
      r.Ok? && Eval(p, fuel, store, env, room).value.value == r.value.value
  {
    hide Lookup, Exists;
    var got := Eval(p, fuel, store, env, room).value;
    assert Lookup(got.env, x) == Ok(got.value);
    assert Eval(p, fuel, Value(x), got.env, room) == EvalLeaf(p, Value(x), got.env, room);
  }
}
