/** The code of every expression, run from any state that stands for an environment, leaves
    what the evaluator gives: the value on top, the rest of the stack as it was. */
module Correctness {
  import opened Bytecode
  import opened Options
  import opened Language
  import opened Postfix
  import opened Correspondence
  import opened Instructions
  import opened Calling
  import I = Interpreter
  import R = Refinement

  /** The operands that were added are what the stack has grown by. */
  lemma Grows(m: Loaded, k: Below, s: I.State, env: Env, ops: seq<I.Value>, t: I.State, env2: Env, xs: seq<I.Value>)
    requires Stands(m, k, s, env, ops) && Stands(m, k, t, env2, ops + xs) && SameShape(env, env2)
    ensures t.sp == s.sp + |xs| <= I.MAX_STACK_SIZE && s.frames != [] && t.frames != []
  {
    hide PartsStand;
    Height(m, k, s, env, ops);
    Height(m, k, t, env2, ops + xs);
  }

  lemma HasFive(code: seq<Byte>, at: nat,
      a: seq<Byte>, b: seq<Byte>, c: seq<Byte>, d: seq<Byte>, e: seq<Byte>)
    requires HasCode(code, at, a + b + c + d + e)
    ensures HasCode(code, at, a) && HasCode(code, at + |a|, b) && HasCode(code, at + |a| + |b|, c)
    ensures HasCode(code, at + |a| + |b| + |c|, d) && HasCode(code, at + |a| + |b| + |c| + |d|, e)
    ensures at + |a| + |b| + |c| + |d| + |e| < |code|
  {
    hide HasCode;
    HasBoth(code, at, a + b + c + d, e);
    HasBoth(code, at, a + b + c, d);
    HasThree(code, at, a, b, c);
    CodeEnds(code, at, a + b + c + d + e);
  }

  lemma CodeEnds(code: seq<Byte>, at: nat, bytes: seq<Byte>)
    requires HasCode(code, at, bytes)
    ensures at + |bytes| < |code|
  {}

  /** The code of e, from a state at its beginning. */
  ghost predicate Begins(m: Loaded, k: Below, s: I.State, env: Env, ops: seq<I.Value>, e: Expr) {
    IsLoaded(m) && Stands(m, k, s, env, ops) && HasCode(m.c.img.code, s.ip, Compile(m.layout, e, s.ip))
    && s.sp <= I.MAX_STACK_SIZE
  }

  /** Behind the code of e, what the evaluator gives. */
  ghost predicate Yields(m: Loaded, k: Below, s: I.State, t: I.State, env: Env, ops: seq<I.Value>, fuel: nat, e: Expr)
    requires s.sp <= I.MAX_STACK_SIZE
  {
    Delivers(m, k, s, t, s.ip + |Compile(m.layout, e, s.ip)|, ops, Eval(m.p, fuel, e, env, I.MAX_STACK_SIZE - s.sp))
  }

  lemma {:induction false} CorrectOne(
      m: Loaded, k: Below, fuel: nat, e: Expr, s: I.State, env: Env, ops: seq<I.Value>) returns (t: I.State)
    requires Begins(m, k, s, env, ops, e) && e.One?
    ensures Yields(m, k, s, t, env, ops, fuel, e)
    decreases fuel, 1, e, 2
  {
    hide IsLoaded, PartsStand, Leads, Ends, HasCode, EvalUnary, UnaryCode;
    var code := Compile(m.layout, e.arg, s.ip);
    HasBoth(m.c.img.code, s.ip, code, UnaryCode(e.unary));
    t := Correct(m, k, fuel, e.arg, s, env, ops);
    var a := Eval(m.p, fuel, e.arg, env, I.MAX_STACK_SIZE - s.sp);
    if a.Ok? {
      var u, v, env2 := t, a.value.value, a.value.env;
      Grows(m, k, s, env, ops, u, env2, [v]);
      t := UnaryDelivers(m, k, u, env2, ops, v, e.unary);
      DeliversAfter(m, k, s, u, t, s.ip + |code| + |UnaryCode(e.unary)|, ops,
        EvalUnary(m.p, e.unary, v, env2, I.MAX_STACK_SIZE - s.sp));
    }
  }

  lemma TwoIs(p: Program, fuel: nat, e: Expr, env: Env, room: nat)
    requires e.Two?
    ensures var a := Eval(p, fuel, e.left, env, room);
      Eval(p, fuel, e, env, room) == if !a.Ok? then a.PropagateFailure<Got>() else
        SecondOperand(p, fuel, e, a.value.value, a.value.env, room - 1)
  {
    hide EvalDyadic;
  }

  lemma {:induction false} CorrectTwo(
      m: Loaded, k: Below, fuel: nat, e: Expr, s: I.State, env: Env, ops: seq<I.Value>) returns (t: I.State)
    requires Begins(m, k, s, env, ops, e) && e.Two?
    ensures Yields(m, k, s, t, env, ops, fuel, e)
    decreases fuel, 1, e, 2
  {
    hide IsLoaded, PartsStand, Leads, Ends, HasCode, DyadicCode, Eval, SecondOperand;
    TwoIs(m.p, fuel, e, env, I.MAX_STACK_SIZE - s.sp);
    var left := Compile(m.layout, e.left, s.ip);
    var right := Compile(m.layout, e.right, s.ip + |left|);
    HasThree(m.c.img.code, s.ip, left, right, DyadicCode(e.dyadic));
    t := Correct(m, k, fuel, e.left, s, env, ops);
    var a := Eval(m.p, fuel, e.left, env, I.MAX_STACK_SIZE - s.sp);
    if a.Ok? {
      var u, x, env1 := t, a.value.value, a.value.env;
      Grows(m, k, s, env, ops, u, env1, [x]);
      t := RightOperand(m, k, fuel, e, s, u, env1, ops, x);
    }
  }

  /** The second operand, above the first. */
  lemma {:induction false} RightOperand(
      m: Loaded, k: Below, fuel: nat, e: Expr, s: I.State, u: I.State, env: Env, ops: seq<I.Value>, x: I.Value)
    returns (t: I.State)
    requires e.Two? && IsLoaded(m) && Leads(m.c, s, u) && Stands(m, k, u, env, ops + [x])
    requires s.sp < u.sp == s.sp + 1 <= I.MAX_STACK_SIZE
    requires u.ip == s.ip + |Compile(m.layout, e.left, s.ip)|
    requires HasCode(m.c.img.code, u.ip, Compile(m.layout, e.right, u.ip))
    requires HasCode(m.c.img.code, u.ip + |Compile(m.layout, e.right, u.ip)|, DyadicCode(e.dyadic))
    ensures Delivers(m, k, s, t, u.ip + |Compile(m.layout, e.right, u.ip)| + |DyadicCode(e.dyadic)|, ops,
      SecondOperand(m.p, fuel, e, x, env, I.MAX_STACK_SIZE - u.sp))
    decreases fuel, 1, e, 1
  {
    hide IsLoaded, PartsStand, Leads, Ends, HasCode, EvalDyadic, DyadicCode, Compile, Eval;
    t := Correct(m, k, fuel, e.right, u, env, ops + [x]);
    var b := Eval(m.p, fuel, e.right, env, I.MAX_STACK_SIZE - u.sp);
    if b.Ok? {
      var w, y, env2 := t, b.value.value, b.value.env;
      assert ops + [x] + [y] == ops + [x, y];
      t := DyadicDelivers(m, k, w, env2, ops, x, y, e.dyadic);
      DeliversAfter(m, k, u, w, t, w.ip + |DyadicCode(e.dyadic)|, ops,
        Valued(EvalDyadic(e.dyadic, x, y, env2.heap), env2));
    }
    DeliversAfter(m, k, s, u, t, u.ip + |Compile(m.layout, e.right, u.ip)| + |DyadicCode(e.dyadic)|, ops,
      SecondOperand(m.p, fuel, e, x, env, I.MAX_STACK_SIZE - u.sp));
  }

  ghost function SecondOperand(p: Program, fuel: nat, e: Expr, x: I.Value, env: Env, room: nat): Result<Got>
    requires e.Two?
  {
    var b :- Eval(p, fuel, e.right, env, room);
    Valued(EvalDyadic(e.dyadic, x, b.value, b.env.heap), b.env)
  }

  lemma {:induction false} CorrectThen(
      m: Loaded, k: Below, fuel: nat, e: Expr, s: I.State, env: Env, ops: seq<I.Value>) returns (t: I.State)
    requires Begins(m, k, s, env, ops, e) && e.Then?
    ensures Yields(m, k, s, t, env, ops, fuel, e)
    decreases fuel, 1, e, 2
  {
    hide IsLoaded, PartsStand, Leads, Ends, HasCode;
    var first := Compile(m.layout, e.first, s.ip);
    var second := Compile(m.layout, e.second, s.ip + |first| + 1);
    HasBoth(m.c.img.code, s.ip, first + [0x18], second);
    HasBoth(m.c.img.code, s.ip, first, [0x18]);
    t := Correct(m, k, fuel, e.first, s, env, ops);
    var a := Eval(m.p, fuel, e.first, env, I.MAX_STACK_SIZE - s.sp);
    if a.Ok? {
      var u := t;
      Grows(m, k, s, env, ops, u, a.value.env, [a.value.value]);
      DropLeads(m, k, u, a.value.env, ops, a.value.value);
      var w := u.(sp := u.sp - 1, ip := u.ip + 1);
      LeadsOn(m.c, s, u, w);
      t := Correct(m, k, fuel, e.second, w, a.value.env, ops);
      DeliversAfter(m, k, s, w, t, w.ip + |second|, ops,
        Eval(m.p, fuel, e.second, a.value.env, I.MAX_STACK_SIZE - s.sp));
    }
  }

  lemma {:induction false} CorrectOnLine(
      m: Loaded, k: Below, fuel: nat, e: Expr, s: I.State, env: Env, ops: seq<I.Value>) returns (t: I.State)
    requires Begins(m, k, s, env, ops, e) && e.OnLine?
    ensures Yields(m, k, s, t, env, ops, fuel, e)
    decreases fuel, 1, e, 2
  {
    hide IsLoaded, PartsStand, Leads, Ends, HasCode, Code1;
    var code := Compile(m.layout, e.arg, s.ip + 5);
    CodeSizes(0x5A, e.line);
    HasBoth(m.c.img.code, s.ip, Code1(0x5A, e.line), code);
    LineLeads(m, s, e.line);
    var u := s.(ip := s.ip + 5);
    t := Correct(m, k, fuel, e.arg, u, env, ops);
    DeliversAfter(m, k, s, u, t, s.ip + 5 + |code|, ops, Eval(m.p, fuel, e.arg, env, I.MAX_STACK_SIZE - s.sp));
  }

  // Jumps

  /** The parts of a conditional, where they are. */
  lemma IfCode(m: Loaded, e: Expr, at: nat)
    requires e.If? && HasCode(m.c.img.code, at, Compile(m.layout, e, at))
    ensures var cond := Compile(m.layout, e.cond, at);
      var yes := Compile(m.layout, e.yes, at + |cond| + 5);
      var other := at + |cond| + 5 + |yes| + 5;
      var no := Compile(m.layout, e.no, other);
      && HasCode(m.c.img.code, at, cond) && HasCode(m.c.img.code, at + |cond|, Code1(0x50, other))
      && HasCode(m.c.img.code, at + |cond| + 5, yes)
      && HasCode(m.c.img.code, at + |cond| + 5 + |yes|, Code1(0x15, other + |no|))
      && HasCode(m.c.img.code, other, no) && other + |no| < |m.c.img.code|
      && other + |no| == at + |Compile(m.layout, e, at)|
  {
    hide HasCode, Code1;
    var cond := Compile(m.layout, e.cond, at);
    var yes := Compile(m.layout, e.yes, at + |cond| + 5);
    var other := at + |cond| + 5 + |yes| + 5;
    var no := Compile(m.layout, e.no, other);
    CodeSizes(0x50, other);
    CodeSizes(0x15, other + |no|);
    HasFive(m.c.img.code, at, cond, Code1(0x50, other), yes, Code1(0x15, other + |no|), no);
  }

  lemma IfIs(p: Program, fuel: nat, e: Expr, env: Env, room: nat)
    requires e.If?
    ensures var a := Eval(p, fuel, e.cond, env, room);
      Eval(p, fuel, e, env, room) ==
        if !a.Ok? then a.PropagateFailure<Got>()
        else if !a.value.value.Int? then Fails(Invalid)
        else Eval(p, fuel, if Wrap(a.value.value.n) != 0 then e.yes else e.no, a.value.env, room)
  {
    hide Wrap;
  }

  lemma {:induction false} CorrectIf(
      m: Loaded, k: Below, fuel: nat, e: Expr, s: I.State, env: Env, ops: seq<I.Value>) returns (t: I.State)
    requires Begins(m, k, s, env, ops, e) && e.If?
    ensures Yields(m, k, s, t, env, ops, fuel, e)
    decreases fuel, 1, e, 2
  {
    hide IsLoaded, PartsStand, Leads, Ends, HasCode, Compile, Eval, Wrap, Code1;
    var room := I.MAX_STACK_SIZE - s.sp;
    IfCode(m, e, s.ip);
    IfIs(m.p, fuel, e, env, room);
    IsChecked(m);
    t := Correct(m, k, fuel, e.cond, s, env, ops);
    var a := Eval(m.p, fuel, e.cond, env, room);
    if a.Ok? {
      var u, v, env1 := t, a.value.value, a.value.env;
      var other := u.ip + 5 + |Compile(m.layout, e.yes, u.ip + 5)| + 5;
      Grows(m, k, s, env, ops, u, env1, [v]);
      BranchLeads(m, k, u, env1, ops, v, false, other);
      if !v.Int? {
        EndsAfter(m.c, s, u, Invalid);
      } else {
        var w := Branch(u.(ip := u.ip + 5), v, false, other).value;
        LeadsOn(m.c, s, u, w);
        if Wrap(v.n) != 0 {
          t := FirstBranch(m, k, fuel, e, s, w, env1, ops, other + |Compile(m.layout, e.no, other)|);
        } else {
          t := Correct(m, k, fuel, e.no, w, env1, ops);
          DeliversAfter(m, k, s, w, t, other + |Compile(m.layout, e.no, other)|, ops,
            Eval(m.p, fuel, e.no, env1, room));
        }
      }
    }
  }

  /** The first branch ends with a jump over the second. */
  lemma {:induction false} FirstBranch(
      m: Loaded, k: Below, fuel: nat, e: Expr, s: I.State, w: I.State, env: Env, ops: seq<I.Value>, end: nat)
    returns (t: I.State)
    requires e.If? && Begins(m, k, w, env, ops, e.yes) && Leads(m.c, s, w) && end < |m.c.img.code| < 0x8000_0000
    requires HasCode(m.c.img.code, w.ip + |Compile(m.layout, e.yes, w.ip)|, Code1(0x15, end))
    ensures Delivers(m, k, s, t, end, ops, Eval(m.p, fuel, e.yes, env, I.MAX_STACK_SIZE - w.sp))
    decreases fuel, 1, e, 1
  {
    hide IsLoaded, PartsStand, Leads, Ends, HasCode, Compile, Eval, Code1;
    var r := Eval(m.p, fuel, e.yes, env, I.MAX_STACK_SIZE - w.sp);
    t := Correct(m, k, fuel, e.yes, w, env, ops);
    if r.Ok? {
      JumpLeads(m, t, end);
      LeadsOn(m.c, w, t, t.(ip := end));
      t := t.(ip := end);
    }
    DeliversAfter(m, k, s, w, t, end, ops, r);
  }

  lemma WhileCode(m: Loaded, e: Expr, at: nat)
    requires e.While? && HasCode(m.c.img.code, at, Compile(m.layout, e, at))
    ensures var cond := Compile(m.layout, e.cond, at);
      var body := Compile(m.layout, e.body, at + |cond| + 5);
      var end := at + |cond| + 5 + |body| + 1 + 5;
      && HasCode(m.c.img.code, at, cond) && HasCode(m.c.img.code, at + |cond|, Code1(0x50, end))
      && HasCode(m.c.img.code, at + |cond| + 5, body)
      && HasCode(m.c.img.code, at + |cond| + 5 + |body|, [0x18])
      && HasCode(m.c.img.code, at + |cond| + 5 + |body| + 1, Code1(0x15, at))
      && HasCode(m.c.img.code, end, Code1(0x10, 0)) && end + 5 < |m.c.img.code|
      && end + 5 == at + |Compile(m.layout, e, at)|
  {
    hide HasCode, Code1;
    var cond := Compile(m.layout, e.cond, at);
    var body := Compile(m.layout, e.body, at + |cond| + 5);
    var end := at + |cond| + 5 + |body| + 1 + 5;
    CodeSizes(0x50, end);
    CodeSizes(0x15, at);
    CodeSizes(0x10, 0);
    HasFive(m.c.img.code, at, cond, Code1(0x50, end), body + [0x18], Code1(0x15, at), Code1(0x10, 0));
    HasBoth(m.c.img.code, at + |cond| + 5, body, [0x18]);
  }

  /** What a loop comes to behind its condition. */
  ghost function LoopBody(p: Program, fuel: nat, e: Expr, env: Env, room: nat): Result<Got>
    requires e.While?
  {
    var d :- Eval(p, fuel, e.body, env, room);
    if fuel == 0 then Stuck else Eval(p, fuel - 1, e, d.env, room)
  }

  lemma WhileIs(p: Program, fuel: nat, e: Expr, env: Env, room: nat)
    requires e.While?
    ensures var a := Eval(p, fuel, e.cond, env, room);
      Eval(p, fuel, e, env, room) ==
        if !a.Ok? then a.PropagateFailure<Got>()
        else if !a.value.value.Int? then Fails(Invalid)
        else if Wrap(a.value.value.n) != 0 then LoopBody(p, fuel, e, a.value.env, room)
        else Ok(Got(I.Int(0), a.value.env))
  {
    hide Wrap;
  }

  lemma {:induction false} CorrectWhile(
      m: Loaded, k: Below, fuel: nat, e: Expr, s: I.State, env: Env, ops: seq<I.Value>) returns (t: I.State)
    requires Begins(m, k, s, env, ops, e) && e.While?
    ensures Yields(m, k, s, t, env, ops, fuel, e)
    decreases fuel, 1, e, 2
  {
    hide IsLoaded, PartsStand, Leads, Ends, HasCode, Compile, Eval, Wrap, Code1, LoopBody;
    var room := I.MAX_STACK_SIZE - s.sp;
    WhileCode(m, e, s.ip);
    WhileIs(m.p, fuel, e, env, room);
    IsChecked(m);
    t := Correct(m, k, fuel, e.cond, s, env, ops);
    var a := Eval(m.p, fuel, e.cond, env, room);
    if a.Ok? {
      var u, v, env1 := t, a.value.value, a.value.env;
      var end := u.ip + 5 + |Compile(m.layout, e.body, u.ip + 5)| + 1 + 5;
      Grows(m, k, s, env, ops, u, env1, [v]);
      BranchLeads(m, k, u, env1, ops, v, false, end);
      if !v.Int? {
        EndsAfter(m.c, s, u, Invalid);
      } else {
        var w := Branch(u.(ip := u.ip + 5), v, false, end).value;
        LeadsOn(m.c, s, u, w);
        if Wrap(v.n) != 0 {
          t := CorrectBody(m, k, fuel, e, s.ip, w, env1, ops);
          DeliversAfter(m, k, s, w, t, end + 5, ops, LoopBody(m.p, fuel, e, env1, room));
        } else {
          t := ConstDelivers(m, k, w, env1, ops, 0);
          GiveIs(I.Int(0), env1, room);
          DeliversAfter(m, k, s, w, t, end + 5, ops, Ok(Got(I.Int(0), env1)));
        }
      }
    }
  }

  /** The body, the jump back, and the loop again. */
  lemma {:induction false} CorrectBody(
      m: Loaded, k: Below, fuel: nat, e: Expr, at: nat, s: I.State, env: Env, ops: seq<I.Value>) returns (t: I.State)
    requires e.While? && Begins(m, k, s, env, ops, e.body) && HasCode(m.c.img.code, at, Compile(m.layout, e, at))
    requires var end := s.ip + |Compile(m.layout, e.body, s.ip)|;
      HasCode(m.c.img.code, end, [0x18]) && HasCode(m.c.img.code, end + 1, Code1(0x15, at))
    ensures Delivers(m, k, s, t, at + |Compile(m.layout, e, at)|, ops,
      LoopBody(m.p, fuel, e, env, I.MAX_STACK_SIZE - s.sp))
    decreases fuel, 1, e, 1
  {
    hide IsLoaded, PartsStand, Leads, Ends, HasCode, Compile, Eval, Code1;
    var room := I.MAX_STACK_SIZE - s.sp;
    t := Correct(m, k, fuel, e.body, s, env, ops);
    var d := Eval(m.p, fuel, e.body, env, room);
    if d.Ok? {
      var u, env1 := t, d.value.env;
      Grows(m, k, s, env, ops, u, env1, [d.value.value]);
      DropLeads(m, k, u, env1, ops, d.value.value);
      var w := u.(sp := u.sp - 1, ip := u.ip + 1);
      LeadsOn(m.c, s, u, w);
      CodeEnds(m.c.img.code, at, Compile(m.layout, e, at));
      IsChecked(m);
      JumpLeads(m, w, at);
      LeadsOn(m.c, s, w, w.(ip := at));
      if fuel > 0 {
        t := Correct(m, k, fuel - 1, e, w.(ip := at), env1, ops);
        DeliversAfter(m, k, s, w.(ip := at), t, at + |Compile(m.layout, e, at)|, ops,
          Eval(m.p, fuel - 1, e, env1, room));
      }
    }
  }

  lemma RepeatCode(m: Loaded, e: Expr, at: nat)
    requires e.Repeat? && HasCode(m.c.img.code, at, Compile(m.layout, e, at))
    ensures var body := Compile(m.layout, e.body, at);
      var cond := Compile(m.layout, e.cond, at + |body| + 1);
      var jump := at + |body| + 1 + |cond|;
      && HasCode(m.c.img.code, at, body) && HasCode(m.c.img.code, at + |body|, [0x18])
      && HasCode(m.c.img.code, at + |body| + 1, cond)
      && HasCode(m.c.img.code, jump, Code1(0x51, at))
      && HasCode(m.c.img.code, jump + 5, Code1(0x10, 0)) && jump + 10 < |m.c.img.code|
      && jump + 10 == at + |Compile(m.layout, e, at)|
  {
    hide HasCode, Code1;
    var body := Compile(m.layout, e.body, at);
    var cond := Compile(m.layout, e.cond, at + |body| + 1);
    CodeSizes(0x51, at);
    CodeSizes(0x10, 0);
    HasFive(m.c.img.code, at, body, [0x18], cond, Code1(0x51, at), Code1(0x10, 0));
  }

  /** What a loop comes to behind its body. */
  ghost function LoopEnd(p: Program, fuel: nat, e: Expr, env: Env, room: nat): Result<Got>
    requires e.Repeat?
  {
    var d :- Eval(p, fuel, e.cond, env, room);
    if !d.value.Int? then Fails(Invalid)
    else if Wrap(d.value.n) != 1 then Ok(Got(I.Int(0), d.env))
    else if fuel == 0 then Stuck
    else Eval(p, fuel - 1, e, d.env, room)
  }

  lemma RepeatIs(p: Program, fuel: nat, e: Expr, env: Env, room: nat)
    requires e.Repeat?
    ensures var a := Eval(p, fuel, e.body, env, room);
      Eval(p, fuel, e, env, room) ==
        if !a.Ok? then a.PropagateFailure<Got>() else LoopEnd(p, fuel, e, a.value.env, room)
  {
    hide Wrap;
  }

  lemma {:induction false} CorrectRepeat(
      m: Loaded, k: Below, fuel: nat, e: Expr, s: I.State, env: Env, ops: seq<I.Value>) returns (t: I.State)
    requires Begins(m, k, s, env, ops, e) && e.Repeat?
    ensures Yields(m, k, s, t, env, ops, fuel, e)
    decreases fuel, 1, e, 2
  {
    hide IsLoaded, PartsStand, Leads, Ends, HasCode, Compile, Eval, Code1, LoopEnd;
    var room := I.MAX_STACK_SIZE - s.sp;
    RepeatCode(m, e, s.ip);
    RepeatIs(m.p, fuel, e, env, room);
    t := Correct(m, k, fuel, e.body, s, env, ops);
    var a := Eval(m.p, fuel, e.body, env, room);
    if a.Ok? {
      var u, env1 := t, a.value.env;
      Grows(m, k, s, env, ops, u, env1, [a.value.value]);
      DropLeads(m, k, u, env1, ops, a.value.value);
      var w := u.(sp := u.sp - 1, ip := u.ip + 1);
      LeadsOn(m.c, s, u, w);
      t := CorrectEnd(m, k, fuel, e, s.ip, w, env1, ops);
      DeliversAfter(m, k, s, w, t, s.ip + |Compile(m.layout, e, s.ip)|, ops, LoopEnd(m.p, fuel, e, env1, room));
    }
  }

  /** The condition, and the loop again if it is 1. */
  lemma {:induction false} CorrectEnd(
      m: Loaded, k: Below, fuel: nat, e: Expr, at: nat, s: I.State, env: Env, ops: seq<I.Value>) returns (t: I.State)
    requires e.Repeat? && Begins(m, k, s, env, ops, e.cond) && HasCode(m.c.img.code, at, Compile(m.layout, e, at))
    requires var jump := s.ip + |Compile(m.layout, e.cond, s.ip)|;
      && HasCode(m.c.img.code, jump, Code1(0x51, at)) && HasCode(m.c.img.code, jump + 5, Code1(0x10, 0))
      && jump + 10 == at + |Compile(m.layout, e, at)|
    ensures Delivers(m, k, s, t, at + |Compile(m.layout, e, at)|, ops,
      LoopEnd(m.p, fuel, e, env, I.MAX_STACK_SIZE - s.sp))
    decreases fuel, 1, e, 1
  {
    hide IsLoaded, PartsStand, Leads, Ends, HasCode, Compile, Eval, Code1, Wrap;
    var room := I.MAX_STACK_SIZE - s.sp;
    CodeEnds(m.c.img.code, at, Compile(m.layout, e, at));
    IsChecked(m);
    t := Correct(m, k, fuel, e.cond, s, env, ops);
    var d := Eval(m.p, fuel, e.cond, env, room);
    if d.Ok? {
      var u, v, env1 := t, d.value.value, d.value.env;
      Grows(m, k, s, env, ops, u, env1, [v]);
      BranchLeads(m, k, u, env1, ops, v, true, at);
      if !v.Int? {
        EndsAfter(m.c, s, u, Invalid);
      } else {
        var w := Branch(u.(ip := u.ip + 5), v, true, at).value;
        LeadsOn(m.c, s, u, w);
        if Wrap(v.n) != 1 {
          t := ConstDelivers(m, k, w, env1, ops, 0);
          GiveIs(I.Int(0), env1, room);
          DeliversAfter(m, k, s, w, t, w.ip + 5, ops, Ok(Got(I.Int(0), env1)));
        } else if fuel > 0 {
          t := Correct(m, k, fuel - 1, e, w, env1, ops);
          DeliversAfter(m, k, s, w, t, at + |Compile(m.layout, e, at)|, ops, Eval(m.p, fuel - 1, e, env1, room));
        }
      }
    }
  }

  // Stores with something between

  ghost function StoredInto(env: Env, x: Variable, v: I.Value): Result<Got> {
    var u := Update(env, x, v);
    if u.Ok? then Ok(Got(v, u.value)) else Stuck
  }

  lemma AssignIntoIs(p: Program, fuel: nat, e: Expr, env: Env, room: nat)
    requires e.AssignInto?
    ensures Eval(p, fuel, e, env, room) ==
      if !Exists(env, e.x).Ok? then Exists(env, e.x).PropagateFailure<Got>()
      else if room == 0 then Fails(Overflow)
      else
        var a := Eval(p, fuel, e.arg, env, room - 1);
        if !a.Ok? then a.PropagateFailure<Got>() else StoredInto(a.value.env, e.x, a.value.value)
  {
    hide Exists, Update;
  }

  lemma SameAddress(k: Below, a: Env, b: Env, x: Variable)
    requires SameShape(a, b) && Exists(a, x).Ok? && Exists(b, x).Ok?
    ensures Address(k, a, x) == Address(k, b, x)
  {}

  lemma {:induction false} CorrectAssignInto(
      m: Loaded, k: Below, fuel: nat, e: Expr, s: I.State, env: Env, ops: seq<I.Value>) returns (t: I.State)
    requires Begins(m, k, s, env, ops, e) && e.AssignInto?
    ensures Yields(m, k, s, t, env, ops, fuel, e)
    decreases fuel, 1, e, 2
  {
    hide IsLoaded, PartsStand, Leads, Ends, HasCode, Eval, Exists, Address, Code1, Update;
    var room := I.MAX_STACK_SIZE - s.sp;
    var code := Compile(m.layout, e.arg, s.ip + 5);
    AssignIntoIs(m.p, fuel, e, env, room);
    CodeSizes(0x30 + PlaceCode(e.x.place), e.x.index);
    HasThree(m.c.img.code, s.ip, LoadAddress(e.x), code, [0x14]);
    t := AddressDelivers(m, k, s, env, ops, e.x);
    if Exists(env, e.x).Ok? && room > 0 {
      var u, address := t, Address(k, env, e.x);
      Grows(m, k, s, env, ops, u, env, [address]);
      t := Correct(m, k, fuel, e.arg, u, env, ops + [address]);
      var a := Eval(m.p, fuel, e.arg, env, room - 1);
      if a.Ok? {
        var w, v, env1 := t, a.value.value, a.value.env;
        UpdateExists(env1, e.x, v);
        if Update(env1, e.x, v).Ok? {
          SameAddress(k, env, env1, e.x);
          assert ops + [address] + [v] == ops + [address, v];
          t := StaDelivers(m, k, w, env1, ops, e.x, v);
          DeliversAfter(m, k, u, w, t, s.ip + 5 + |code| + 1, ops, StoredIn(env1, e.x, v));
        }
      }
      DeliversAfter(m, k, s, u, t, s.ip + 5 + |code| + 1, ops, Eval(m.p, fuel, e, env, room));
    }
  }

  lemma PutCode(m: Loaded, e: Expr, at: nat)
    requires e.Put? && HasCode(m.c.img.code, at, CompilePut(m.layout, e, at))
    ensures var target := Compile(m.layout, e.target, at);
      var index := Compile(m.layout, e.index, at + |target|);
      var arg := Compile(m.layout, e.arg, at + |target| + |index|);
      && HasCode(m.c.img.code, at, target) && HasCode(m.c.img.code, at + |target|, index)
      && HasCode(m.c.img.code, at + |target| + |index|, arg)
      && HasCode(m.c.img.code, at + |target| + |index| + |arg|, [0x14])
      && at + |target| + |index| + |arg| + 1 == at + |CompilePut(m.layout, e, at)|
  {
    hide HasCode, Compile;
    var target := Compile(m.layout, e.target, at);
    var index := Compile(m.layout, e.index, at + |target|);
    var arg := Compile(m.layout, e.arg, at + |target| + |index|);
    HasThree(m.c.img.code, at, target + index, arg, [0x14]);
    HasBoth(m.c.img.code, at, target, index);
  }

  lemma PutIs(p: Program, fuel: nat, e: Expr, env: Env, room: nat)
    requires e.Put?
    ensures var a := Eval(p, fuel, e.target, env, room);
      Eval(p, fuel, e, env, room) ==
        if !a.Ok? then a.PropagateFailure<Got>() else PutIndex(p, fuel, e, a.value.value, a.value.env, room - 1)
  {
    hide PutAt;
  }

  /** A store into an object behind its first operand, and behind its second. */
  ghost function PutIndex(p: Program, fuel: nat, e: Expr, x: I.Value, env: Env, room: nat): Result<Got>
    requires e.Put?
  {
    var b :- Eval(p, fuel, e.index, env, room);
    PutArg(p, fuel, e, x, b.value, b.env, room - 1)
  }

  ghost function PutArg(p: Program, fuel: nat, e: Expr, x: I.Value, y: I.Value, env: Env, room: nat): Result<Got>
    requires e.Put?
  {
    var d :- Eval(p, fuel, e.arg, env, room);
    PutIn(d.env, x, y, d.value)
  }

  lemma {:induction false} CorrectPut(
      m: Loaded, k: Below, fuel: nat, e: Expr, s: I.State, env: Env, ops: seq<I.Value>) returns (t: I.State)
    requires Begins(m, k, s, env, ops, e) && e.Put?
    ensures Yields(m, k, s, t, env, ops, fuel, e)
    decreases fuel, 1, e, 2
  {
    hide IsLoaded, PartsStand, Leads, Ends, HasCode, Eval, PutIndex, Compile;
    var room := I.MAX_STACK_SIZE - s.sp;
    PutIs(m.p, fuel, e, env, room);
    PutCompiles(m.layout, e, s.ip);
    PutCode(m, e, s.ip);
    t := Correct(m, k, fuel, e.target, s, env, ops);
    var a := Eval(m.p, fuel, e.target, env, room);
    if a.Ok? {
      var u, x, env1 := t, a.value.value, a.value.env;
      Grows(m, k, s, env, ops, u, env1, [x]);
      t := CorrectIndex(m, k, fuel, e, u, env1, ops, x);
      DeliversAfter(m, k, s, u, t, s.ip + |Compile(m.layout, e, s.ip)|, ops, PutIndex(m.p, fuel, e, x, env1, room - 1));
    }
  }

  lemma {:induction false} CorrectIndex(
      m: Loaded, k: Below, fuel: nat, e: Expr, s: I.State, env: Env, ops: seq<I.Value>, x: I.Value)
    returns (t: I.State)
    requires e.Put? && Begins(m, k, s, env, ops + [x], e.index)
    requires var arg := s.ip + |Compile(m.layout, e.index, s.ip)|;
      && HasCode(m.c.img.code, arg, Compile(m.layout, e.arg, arg))
      && HasCode(m.c.img.code, arg + |Compile(m.layout, e.arg, arg)|, [0x14])
    ensures var arg := s.ip + |Compile(m.layout, e.index, s.ip)|;
      Delivers(m, k, s, t, arg + |Compile(m.layout, e.arg, arg)| + 1, ops,
        PutIndex(m.p, fuel, e, x, env, I.MAX_STACK_SIZE - s.sp))
    decreases fuel, 1, e, 1
  {
    hide IsLoaded, PartsStand, Leads, Ends, HasCode, Eval, Compile, PutArg;
    var room := I.MAX_STACK_SIZE - s.sp;
    t := Correct(m, k, fuel, e.index, s, env, ops + [x]);
    var b := Eval(m.p, fuel, e.index, env, room);
    if b.Ok? {
      var u, y, env1 := t, b.value.value, b.value.env;
      Grows(m, k, s, env, ops + [x], u, env1, [y]);
      assert ops + [x] + [y] == ops + [x, y];
      t := CorrectStored(m, k, fuel, e, u, env1, ops, x, y);
      DeliversAfter(m, k, s, u, t, u.ip + |Compile(m.layout, e.arg, u.ip)| + 1, ops,
        PutArg(m.p, fuel, e, x, y, env1, room - 1));
    }
  }

  lemma {:induction false} CorrectStored(
      m: Loaded, k: Below, fuel: nat, e: Expr, s: I.State, env: Env, ops: seq<I.Value>, x: I.Value, y: I.Value)
    returns (t: I.State)
    requires e.Put? && Begins(m, k, s, env, ops + [x, y], e.arg)
    requires HasCode(m.c.img.code, s.ip + |Compile(m.layout, e.arg, s.ip)|, [0x14])
    ensures Delivers(m, k, s, t, s.ip + |Compile(m.layout, e.arg, s.ip)| + 1, ops,
      PutArg(m.p, fuel, e, x, y, env, I.MAX_STACK_SIZE - s.sp))
    decreases fuel, 1, e, 0
  {
    hide IsLoaded, PartsStand, Leads, Ends, HasCode, Eval, Compile, PutIn;
    t := Correct(m, k, fuel, e.arg, s, env, ops + [x, y]);
    var d := Eval(m.p, fuel, e.arg, env, I.MAX_STACK_SIZE - s.sp);
    if d.Ok? {
      var u, v, env1 := t, d.value.value, d.value.env;
      assert ops + [x, y] + [v] == ops + [x, y, v];
      t := PutDelivers(m, k, u, env1, ops, x, y, v);
      DeliversAfter(m, k, s, u, t, u.ip + 1, ops, PutIn(env1, x, y, v));
    }
  }

  // Leaves

  lemma CorrectLeaf(
      m: Loaded, k: Below, fuel: nat, e: Expr, s: I.State, env: Env, ops: seq<I.Value>) returns (t: I.State)
    requires Begins(m, k, s, env, ops, e) && (e.Number? || e.Literal? || e.Value? || e.Input? || e.Lambda?)
    ensures Yields(m, k, s, t, env, ops, fuel, e)
  {
    hide IsLoaded, PartsStand, Delivers, HasCode, R.Bytes32, Capture, Lookup, TextAt, CapturedCode;
    match e
    case Number(n) => t := ConstDelivers(m, k, s, env, ops, n);
    case Literal(pos) => t := StringDelivers(m, k, s, env, ops, pos);
    case Value(x) => t := LoadDelivers(m, k, s, env, ops, x);
    case Input => t := ReadDelivers(m, k, s, env, ops);
    case Lambda(callee, captured) =>
      CapturedSize(captured);
      CodeSizes(0x54, Position(m.layout, callee));
      t := LambdaDelivers(m, k, s, env, ops, callee, captured);
  }

  // Several operands

  ghost predicate DeliversAll(
      m: Loaded, k: Below, s: I.State, t: I.State, at: nat, ops: seq<I.Value>, r: Result<GotAll>) {
    match r
    case Ok(got) => Leads(m.c, s, t) && t.ip == at && Stands(m, k, t, got.env, ops + got.values)
    case Fails(f) => Ends(m.c, s, f)
    case Stuck => true
  }

  lemma DeliversAllAfter(
      m: Loaded, k: Below, s: I.State, t: I.State, u: I.State, at: nat, ops: seq<I.Value>, r: Result<GotAll>)
    requires Leads(m.c, s, t) && DeliversAll(m, k, t, u, at, ops, r)
    ensures DeliversAll(m, k, s, u, at, ops, r)
  {
    hide Leads, Ends, Stands;
    if r.Ok? { LeadsOn(m.c, s, t, u); }
    if r.Fails? { EndsAfter(m.c, s, t, r.reason); }
  }

  lemma {:induction false} CorrectAll(
      m: Loaded, k: Below, fuel: nat, es: Exprs, s: I.State, env: Env, ops: seq<I.Value>) returns (t: I.State)
    requires IsLoaded(m) && Stands(m, k, s, env, ops) && s.sp <= I.MAX_STACK_SIZE
    requires HasCode(m.c.img.code, s.ip, CompileAll(m.layout, es, s.ip))
    ensures DeliversAll(m, k, s, t, s.ip + |CompileAll(m.layout, es, s.ip)|, ops,
      EvalAll(m.p, fuel, es, env, I.MAX_STACK_SIZE - s.sp))
    decreases fuel, 1, es, 3
  {
    hide IsLoaded, PartsStand, Leads, Ends, HasCode, Compile, Eval;
    t := s;
    if es.End? {
      assert ops + [] == ops;
      LeadsItself(m.c, s);
    } else {
      var head := Compile(m.layout, es.head, s.ip);
      HasBoth(m.c.img.code, s.ip, head, CompileAll(m.layout, es.tail, s.ip + |head|));
      t := Correct(m, k, fuel, es.head, s, env, ops);
      var a := Eval(m.p, fuel, es.head, env, I.MAX_STACK_SIZE - s.sp);
      if a.Ok? {
        var u, v, env1 := t, a.value.value, a.value.env;
        Grows(m, k, s, env, ops, u, env1, [v]);
        t := CorrectAll(m, k, fuel, es.tail, u, env1, ops + [v]);
        var b := EvalAll(m.p, fuel, es.tail, env1, I.MAX_STACK_SIZE - u.sp);
        DeliversAllAfter(m, k, s, u, t, u.ip + |CompileAll(m.layout, es.tail, u.ip)|, ops + [v], b);
        if b.Ok? { assert ops + [v] + b.value.values == ops + ([v] + b.value.values); }
      }
    }
  }

  /** There is code for each of them, and code is short. */
  lemma FewValues(m: Loaded, es: Exprs, at: nat)
    requires IsLoaded(m) && HasCode(m.c.img.code, at, CompileAll(m.layout, es, at))
    ensures Count(es) < 0x8000_0000
  {
    hide FunIsLoaded, CompileAll;
    EveryValueIsCoded(m.layout, es, at);
  }

  function MakeCode(e: Expr): seq<Byte>
    requires e.List? || e.Construct?
  {
    if e.List? then Code1(0x74, Count(e.items)) else Code2(0x12, e.tag, Count(e.items))
  }

  lemma ItemsAre(m: Loaded, fuel: nat, e: Expr, at: nat, env: Env, room: nat)
    requires e.List? || e.Construct?
    ensures Compile(m.layout, e, at) == CompileAll(m.layout, e.items, at) + MakeCode(e)
    ensures var a := EvalAll(m.p, fuel, e.items, env, room);
      Eval(m.p, fuel, e, env, room) ==
        if !a.Ok? then a.PropagateFailure<Got>() else Collect(m.p, e, a.value.values, a.value.env, room)
  {
    hide EvalAll, Collect, CompileAll, Code1, Code2;
  }

  lemma {:induction false} CorrectItems(
      m: Loaded, k: Below, fuel: nat, e: Expr, s: I.State, env: Env, ops: seq<I.Value>) returns (t: I.State)
    requires Begins(m, k, s, env, ops, e) && (e.List? || e.Construct?)
    ensures Yields(m, k, s, t, env, ops, fuel, e)
    decreases fuel, 1, e, 2
  {
    hide IsLoaded, PartsStand, Leads, Ends, HasCode, Eval, EvalAll, Collect, Compile, CompileAll, Code1, Code2;
    var code, room := CompileAll(m.layout, e.items, s.ip), I.MAX_STACK_SIZE - s.sp;
    var last := MakeCode(e);
    ItemsAre(m, fuel, e, s.ip, env, room);
    CodeSizes(0x74, Count(e.items));
    CodeSizes(0x12, if e.List? then 0 else e.tag);
    HasBoth(m.c.img.code, s.ip, code, last);
    FewValues(m, e.items, s.ip);
    t := CorrectAll(m, k, fuel, e.items, s, env, ops);
    var a := EvalAll(m.p, fuel, e.items, env, room);
    if a.Ok? {
      var u, vs, env1 := t, a.value.values, a.value.env;
      Grows(m, k, s, env, ops, u, env1, vs);
      if e.List? {
        t := BarrayDelivers(m, k, u, env1, ops, vs, e);
      } else {
        t := SexpDelivers(m, k, u, env1, ops, vs, e);
      }
      DeliversAfter(m, k, s, u, t, u.ip + |last|, ops, Collect(m.p, e, vs, env1, room));
    }
  }

  // Calls

  lemma ReadyToCall(m: Loaded, k: Below, s: I.State, env: Env, ops: seq<I.Value>, vs: seq<I.Value>, u: I.State)
    requires Stands(m, k, s, env, ops + vs) && s.frames != []
    requires |u.frames| == |s.frames| && !u.tmp && u == s.(frames := u.frames, ip := u.ip, tmp := false)
    ensures |vs| <= s.sp && Ready(m, u, s.sp - |vs|, vs, None, env)
  {
    hide HeapStands;
    OperandsLie(m, k, s, env, ops, vs);
  }

  lemma ReadyToCallValue(m: Loaded, k: Below, s: I.State, env: Env, ops: seq<I.Value>, x: I.Value, vs: seq<I.Value>,
      u: I.State)
    requires Stands(m, k, s, env, ops + ([x] + vs)) && x.Obj? && s.frames != []
    requires |u.frames| == |s.frames| && u.tmp && u == s.(frames := u.frames, ip := u.ip, tmp := true)
    ensures |vs| + 1 <= s.sp && s.buf[s.sp - |vs| - 1] == x
    ensures Ready(m, u, s.sp - |vs| - 1, vs, Some(x.id), env)
  {
    hide HeapStands;
    OperandsLie(m, k, s, env, ops, [x] + vs);
    forall i | 0 <= i < |vs| ensures s.buf[s.sp - |vs| + i] == vs[i] {
      assert s.buf[s.sp - |[x] + vs| + (i + 1)] == ([x] + vs)[i + 1];
    }
    assert s.buf[s.sp - |[x] + vs| + 0] == ([x] + vs)[0];
  }

  /** A function from its entry to its last instruction, where its value is on top of its own
      stack. */
  lemma {:induction false} RunsBody(m: Loaded, fuel: nat, callee: nat, bottom: nat, vs: seq<I.Value>,
      self: Option<nat>, s: I.State, env: Env)
    returns (t: I.State, inner: Env)
    requires IsLoaded(m) && callee < |m.p.funs| && Ready(m, s, bottom, vs, self, env)
    requires |m.layout| == |m.p.funs| && s.ip == m.layout[callee] && s.sp <= I.MAX_STACK_SIZE
    requires m.p.funs[callee].closure ==> self.Some?
    ensures var r := EvalBody(m.p, fuel, callee, vs, self, env, I.MAX_STACK_SIZE - s.sp);
      && (r.Ok? ==> Leads(m.c, s, t) && Stands(m, Below(s.frames, s.buf, bottom), t, inner, [r.value.value]))
      && (r.Ok? ==> r.value.env == Leave(env, inner) && |inner.globals| == |env.globals|)
      && (r.Ok? ==> HasCode(m.c.img.code, t.ip, [if m.p.funs[callee].closure then 0x17 else 0x16]))
      && (r.Fails? ==> Ends(m.c, s, r.reason))
    decreases fuel, 2
  {
    hide IsLoaded, PartsStand, Leads, Ends, HasCode, Eval, Compile, Ready;
    var room := I.MAX_STACK_SIZE - s.sp;
    t, inner := s, env;
    var e := Enter(m.p, callee, vs, self, env, room);
    var u := BeginLeads(m, s, callee, bottom, vs, self, env);
    if e.Ok? {
      EntryIs(m, callee);
      var k := Below(s.frames, s.buf, bottom);
      EntrySize(m, s, bottom, vs, self, env, callee, u, e.value);
      t := Correct(m, k, fuel, m.p.funs[callee].body, u, e.value, []);
      var a := Eval(m.p, fuel, m.p.funs[callee].body, e.value, room - m.p.funs[callee].locals);
      if a.Ok? {
        inner := a.value.env;
        assert [] + [a.value.value] == [a.value.value];
        LeadsOn(m.c, s, u, t);
      }
      if a.Fails? { EndsAfter(m.c, s, u, a.reason); }
    }
  }

  lemma EntrySize(m: Loaded, s: I.State, bottom: nat, vs: seq<I.Value>, self: Option<nat>, env: Env,
      callee: nat, u: I.State, inner: Env)
    requires Ready(m, s, bottom, vs, self, env) && s.sp <= I.MAX_STACK_SIZE
    requires Enter(m.p, callee, vs, self, env, I.MAX_STACK_SIZE - s.sp) == Ok(inner)
    requires Stands(m, Below(s.frames, s.buf, bottom), u, inner, [])
    ensures u.sp == s.sp + m.p.funs[callee].locals <= I.MAX_STACK_SIZE
  {
    hide PartsStand;
    Height(m, Below(s.frames, s.buf, bottom), u, inner, []);
  }

  /** From a call to behind it: the callee's value in the place of what the call took. */
  lemma {:induction false} ComesBack(m: Loaded, k: Below, fuel: nat, callee: nat, vs: seq<I.Value>, self: Option<nat>,
      s: I.State, env: Env, ops: seq<I.Value>, xs: seq<I.Value>, u: I.State, ret: nat)
    returns (t: I.State)
    requires IsLoaded(m) && callee < |m.p.funs| && |m.layout| == |m.p.funs|
    requires m.p.funs[callee].closure ==> self.Some?
    requires Stands(m, k, s, env, ops + xs) && s.frames != [] && |xs| <= s.sp
    requires u == s.(frames := ReturnsTo(s.frames, ret), ip := m.layout[callee], tmp := u.tmp)
    requires Ready(m, u, s.sp - |xs|, vs, self, env) && s.sp <= I.MAX_STACK_SIZE
    ensures Delivers(m, k, u, t, ret, ops, EvalBody(m.p, fuel, callee, vs, self, env, I.MAX_STACK_SIZE - s.sp))
    decreases fuel, 3
  {
    hide IsLoaded, PartsStand, Leads, Ends, HasCode, EvalBody, Ready;
    var k2 := Below(u.frames, u.buf, s.sp - |xs|);
    var w, inner := RunsBody(m, fuel, callee, k2.bottom, vs, self, u, env);
    t := w;
    var r := EvalBody(m.p, fuel, callee, vs, self, env, I.MAX_STACK_SIZE - s.sp);
    if r.Ok? {
      var v := r.value.value;
      Returns(m, k2, w, inner, v, m.p.funs[callee].closure);
      t := BackIn(k2, w, v);
      LeadsOn(m.c, u, w, t);
      BackStands(m, k, s, env, ops, xs, ret, w, inner, v);
    }
  }
  lemma CallIs(m: Loaded, fuel: nat, e: Expr, at: nat, env: Env, room: nat)
    requires e.Call?
    ensures Compile(m.layout, e, at) ==
      CompileAll(m.layout, e.args, at) + Code2(0x56, Position(m.layout, e.callee), Count(e.args))
    ensures var a := EvalAll(m.p, fuel, e.args, env, room);
      Eval(m.p, fuel, e, env, room) ==
        if !a.Ok? then a.PropagateFailure<Got>()
        else if fuel == 0 then Stuck
        else EvalBody(m.p, fuel - 1, e.callee, a.value.values, None, a.value.env, room - Count(e.args))
  {
    hide EvalAll, EvalBody, CompileAll, Code2;
  }

  /** A function that is made for closures cannot be called directly. */
  lemma NeedsClosure(p: Program, fuel: nat, callee: nat, vs: seq<I.Value>, env: Env, room: nat)
    ensures var r := EvalBody(p, fuel, callee, vs, None, env, room);
      && (callee >= |p.funs| ==> r.Stuck?)
      && (callee < |p.funs| && p.funs[callee].closure ==> r.Stuck? || r == Fails(Invalid))
  {
    hide Eval;
  }

  lemma {:induction false} CorrectCall(
      m: Loaded, k: Below, fuel: nat, e: Expr, s: I.State, env: Env, ops: seq<I.Value>) returns (t: I.State)
    requires Begins(m, k, s, env, ops, e) && e.Call?
    ensures Yields(m, k, s, t, env, ops, fuel, e)
    decreases fuel, 1, e, 2
  {
    hide IsLoaded, PartsStand, Leads, Ends, HasCode, Ready,
       Eval, EvalAll, EvalBody, Compile, CompileAll, Code2, Position;
    var code, room, n := CompileAll(m.layout, e.args, s.ip), I.MAX_STACK_SIZE - s.sp, Count(e.args);
    CallIs(m, fuel, e, s.ip, env, room);
    CodeSizes(0x56, Position(m.layout, e.callee));
    HasBoth(m.c.img.code, s.ip, code, Code2(0x56, Position(m.layout, e.callee), n));
    FewValues(m, e.args, s.ip);
    t := CorrectAll(m, k, fuel, e.args, s, env, ops);
    var a := EvalAll(m.p, fuel, e.args, env, room);
    if a.Ok? && fuel > 0 {
      var u, vs, env1 := t, a.value.values, a.value.env;
      Grows(m, k, s, env, ops, u, env1, vs);
      NeedsClosure(m.p, fuel - 1, e.callee, vs, env1, room - n);
      if e.callee < |m.p.funs| {
        t := Calls(m, k, fuel, e.callee, u, env1, ops, vs);
        DeliversAfter(m, k, s, u, t, u.ip + 9, ops, EvalBody(m.p, fuel - 1, e.callee, vs, None, env1, room - n));
      }
    }
  }

  lemma {:induction false} Calls(
      m: Loaded, k: Below, fuel: nat, callee: nat, s: I.State, env: Env, ops: seq<I.Value>, vs: seq<I.Value>)
    returns (t: I.State)
    requires IsLoaded(m) && Stands(m, k, s, env, ops + vs) && fuel > 0 && callee < |m.p.funs|
    requires |vs| < 0x8000_0000 && s.sp <= I.MAX_STACK_SIZE && s.frames != []
    requires HasCode(m.c.img.code, s.ip, Code2(0x56, Position(m.layout, callee), |vs|))
    ensures Delivers(m, k, s, t, s.ip + 9, ops,
      EvalBody(m.p, fuel - 1, callee, vs, None, env, I.MAX_STACK_SIZE - s.sp))
    decreases fuel, 0
  {
    hide IsLoaded, PartsStand, Leads, Ends, HasCode, EvalBody, Code2, Position, Ready;
    var r := EvalBody(m.p, fuel - 1, callee, vs, None, env, I.MAX_STACK_SIZE - s.sp);
    t := s;
    NeedsClosure(m.p, fuel - 1, callee, vs, env, I.MAX_STACK_SIZE - s.sp);
    CallLeads(m, s, callee, |vs|);
    if !m.p.funs[callee].closure {
      var u := s.(frames := ReturnsTo(s.frames, s.ip + 9), ip := m.layout[callee], tmp := false);
      ReadyToCall(m, k, s, env, ops, vs, u);
      t := ComesBack(m, k, fuel - 1, callee, vs, None, s, env, ops, vs, u, s.ip + 9);
      DeliversAfter(m, k, s, u, t, s.ip + 9, ops, r);
    }
  }

  lemma CallValueIs(m: Loaded, fuel: nat, e: Expr, at: nat, env: Env, room: nat)
    requires e.CallValue?
    ensures var first := Compile(m.layout, e.closure, at);
      Compile(m.layout, e, at) ==
        first + CompileAll(m.layout, e.args, at + |first|) + Code1(0x55, Count(e.args))
    ensures var a := Eval(m.p, fuel, e.closure, env, room);
      Eval(m.p, fuel, e, env, room) ==
        if !a.Ok? then a.PropagateFailure<Got>()
        else CallArgs(m.p, fuel, e, a.value.value, a.value.env, room - 1)
  {
    hide EvalAll, EvalBody, CompileAll, Code1, ClosureOf;
  }

  /** A call of x behind the evaluation of x, and behind that of the arguments. */
  ghost function CallArgs(p: Program, fuel: nat, e: Expr, x: I.Value, env: Env, room: nat): Result<Got>
    requires e.CallValue?
  {
    var b :- EvalAll(p, fuel, e.args, env, room);
    CallOf(p, fuel, x, b.values, b.env, room - |b.values|)
  }

  ghost function CallOf(p: Program, fuel: nat, x: I.Value, vs: seq<I.Value>, env: Env, room: nat): Result<Got> {
    var callee :- ClosureOf(env.heap, x);
    if fuel == 0 then Stuck else EvalBody(p, fuel - 1, callee, vs, Some(x.id), env, room)
  }

  lemma {:induction false} CorrectCallValue(
      m: Loaded, k: Below, fuel: nat, e: Expr, s: I.State, env: Env, ops: seq<I.Value>) returns (t: I.State)
    requires Begins(m, k, s, env, ops, e) && e.CallValue?
    ensures Yields(m, k, s, t, env, ops, fuel, e)
    decreases fuel, 1, e, 2
  {
    hide IsLoaded, PartsStand, Leads, Ends, HasCode, Eval, EvalAll, CallArgs, Compile, CompileAll, Code1;
    var first, room := Compile(m.layout, e.closure, s.ip), I.MAX_STACK_SIZE - s.sp;
    CallValueIs(m, fuel, e, s.ip, env, room);
    CodeSizes(0x55, Count(e.args));
    HasThree(m.c.img.code, s.ip, first, CompileAll(m.layout, e.args, s.ip + |first|), Code1(0x55, Count(e.args)));
    t := Correct(m, k, fuel, e.closure, s, env, ops);
    var a := Eval(m.p, fuel, e.closure, env, room);
    if a.Ok? {
      var u, x, env1 := t, a.value.value, a.value.env;
      Grows(m, k, s, env, ops, u, env1, [x]);
      t := CorrectArgs(m, k, fuel, e, u, env1, ops, x);
      DeliversAfter(m, k, s, u, t, s.ip + |Compile(m.layout, e, s.ip)|, ops, CallArgs(m.p, fuel, e, x, env1, room - 1));
    }
  }

  lemma {:induction false} CorrectArgs(
      m: Loaded, k: Below, fuel: nat, e: Expr, s: I.State, env: Env, ops: seq<I.Value>, x: I.Value)
    returns (t: I.State)
    requires e.CallValue? && IsLoaded(m) && Stands(m, k, s, env, ops + [x]) && s.sp <= I.MAX_STACK_SIZE
    requires HasCode(m.c.img.code, s.ip, CompileAll(m.layout, e.args, s.ip))
    requires HasCode(m.c.img.code, s.ip + |CompileAll(m.layout, e.args, s.ip)|, Code1(0x55, Count(e.args)))
    ensures Delivers(m, k, s, t, s.ip + |CompileAll(m.layout, e.args, s.ip)| + 5, ops,
      CallArgs(m.p, fuel, e, x, env, I.MAX_STACK_SIZE - s.sp))
    decreases fuel, 1, e, 1
  {
    hide IsLoaded, PartsStand, Leads, Ends, HasCode, EvalAll, CompileAll, Code1, CallOf;
    var room := I.MAX_STACK_SIZE - s.sp;
    FewValues(m, e.args, s.ip);
    t := CorrectAll(m, k, fuel, e.args, s, env, ops + [x]);
    var b := EvalAll(m.p, fuel, e.args, env, room);
    if b.Ok? {
      var u, vs, env1 := t, b.value.values, b.value.env;
      Grows(m, k, s, env, ops + [x], u, env1, vs);
      assert ops + [x] + vs == ops + ([x] + vs);
      t := CallsValue(m, k, fuel, u, env1, ops, x, vs);
      DeliversAfter(m, k, s, u, t, u.ip + 5, ops, CallOf(m.p, fuel, x, vs, env1, room - |vs|));
    }
  }

  lemma {:induction false} CallsValue(
      m: Loaded, k: Below, fuel: nat, s: I.State, env: Env, ops: seq<I.Value>, x: I.Value, vs: seq<I.Value>)
    returns (t: I.State)
    requires IsLoaded(m) && Stands(m, k, s, env, ops + ([x] + vs)) && |vs| < 0x8000_0000
    requires s.sp <= I.MAX_STACK_SIZE && s.frames != [] && HasCode(m.c.img.code, s.ip, Code1(0x55, |vs|))
    ensures Delivers(m, k, s, t, s.ip + 5, ops, CallOf(m.p, fuel, x, vs, env, I.MAX_STACK_SIZE - s.sp))
    decreases fuel, 0
  {
    hide IsLoaded, PartsStand, Leads, Ends, HasCode, EvalBody, Code1, Ready, HeapStands, ClosureOf;
    t := s;
    HeapOf(m, k, s, env, ops + ([x] + vs));
    OperandsLie(m, k, s, env, ops, [x] + vs);
    assert s.buf[s.sp - |[x] + vs| + 0] == ([x] + vs)[0];
    CallcLeads(m, s, env.heap, x, |vs|);
    var callee := ClosureOf(env.heap, x);
    if callee.Ok? && fuel > 0 {
      var u := s.(frames := ReturnsTo(s.frames, s.ip + 5), ip := m.layout[callee.value], tmp := true);
      ReadyToCallValue(m, k, s, env, ops, x, vs, u);
      t := ComesBack(m, k, fuel - 1, callee.value, vs, Some(x.id), s, env, ops, [x] + vs, u, s.ip + 5);
      DeliversAfter(m, k, s, u, t, s.ip + 5, ops,
        EvalBody(m.p, fuel - 1, callee.value, vs, Some(x.id), env, I.MAX_STACK_SIZE - s.sp));
    }
  }

  /** Compilation is correct: from any state that stands for an environment, with any operands
      below, the code of e leaves the value of e on top of them, in a state that stands for the
      environment behind e; where the evaluator fails, the run fails in the same way. */
  lemma {:induction false} Correct(
      m: Loaded, k: Below, fuel: nat, e: Expr, s: I.State, env: Env, ops: seq<I.Value>) returns (t: I.State)
    requires Begins(m, k, s, env, ops, e)
    ensures Yields(m, k, s, t, env, ops, fuel, e)
    decreases fuel, 1, e, 3
  {
    hide Begins, Yields;
    match e
    case One(_, _) => t := CorrectOne(m, k, fuel, e, s, env, ops);
    case Two(_, _, _) => t := CorrectTwo(m, k, fuel, e, s, env, ops);
    case Then(_, _) => t := CorrectThen(m, k, fuel, e, s, env, ops);
    case If(_, _, _) => t := CorrectIf(m, k, fuel, e, s, env, ops);
    case While(_, _) => t := CorrectWhile(m, k, fuel, e, s, env, ops);
    case Repeat(_, _) => t := CorrectRepeat(m, k, fuel, e, s, env, ops);
    case AssignInto(_, _) => t := CorrectAssignInto(m, k, fuel, e, s, env, ops);
    case Put(_, _, _) => t := CorrectPut(m, k, fuel, e, s, env, ops);
    case OnLine(_, _) => t := CorrectOnLine(m, k, fuel, e, s, env, ops);
    case List(_) => t := CorrectItems(m, k, fuel, e, s, env, ops);
    case Construct(_, _) => t := CorrectItems(m, k, fuel, e, s, env, ops);
    case Call(_, _) => t := CorrectCall(m, k, fuel, e, s, env, ops);
    case CallValue(_, _) => t := CorrectCallValue(m, k, fuel, e, s, env, ops);
    case _ => t := CorrectLeaf(m, k, fuel, e, s, env, ops);
  }
}
