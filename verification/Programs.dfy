/** Whole programs: what the machine that runs a file prints is what the program means.  And
    what reading a variable or an element finds behind a store. */
module Programs {
  import opened Bytecode
  import opened Options
  import opened Language
  import opened Postfix
  import opened Correspondence
  import opened Instructions
  import opened Calling
  import opened Correctness
  import opened Machine
  import I = Interpreter

  /** Function 0 is where a run begins. */
  ghost predicate BeginsWith0(m: Loaded) {
    IsLoaded(m) && |m.p.funs| > 0 && m.layout[0] == 0 && !m.p.funs[0].closure
  }

  function Fresh(globals: nat, input: seq<int>): Env {
    Env(seq(globals, i => I.Null), [], [], None, 0, [], input, [])
  }

  lemma StartIsReady(m: Loaded, input: seq<int>)
    requires I.Start(m.c.img, input).Ok?
    ensures var s := I.Start(m.c.img, input).value;
      && Ready(m, s, m.c.img.globals, [I.Null, I.Null], None, Fresh(m.c.img.globals, input))
      && s.ip == 0 && s.sp == m.c.img.globals + 2 && s.frames == []
  {}

  /** The run ends, and has read and written what the evaluator says; or it fails as it says. */
  ghost predicate EndsAs(c: I.Context, s: I.State, n: nat, r: Result<Got>) {
    match r
    case Ok(got) =>
      && I.Run(c, s, n).Ok? && I.Run(c, s, n).value.Halt?
      && I.Run(c, s, n).value.state.output == got.env.output && I.Run(c, s, n).value.state.input == got.env.input
    case Fails(f) => I.Run(c, s, n) == Fails(f)
    case Stuck => true
  }

  lemma OneMoreTurn(c: I.Context, s: I.State, n: nat, t: I.State, u: I.State)
    requires I.Run(c, s, n) == Ok(I.Continue(t)) && I.Step(c, t) == Ok(I.Halt(u))
    ensures I.Run(c, s, n + 1) == Ok(I.Halt(u))
  {
    hide I.Step;
    RunsOn(c, s, n, 1);
  }

  lemma OutputStands(m: Loaded, k: Below, s: I.State, env: Env, ops: seq<I.Value>)
    requires Stands(m, k, s, env, ops)
    ensures s.output == env.output && s.input == env.input
  {}

  /** From the first instruction to the end of a program. */
  lemma ProgramRuns(m: Loaded, fuel: nat, input: seq<int>) returns (n: nat)
    requires BeginsWith0(m) && I.Start(m.c.img, input).Ok?
    ensures EndsAs(m.c, I.Start(m.c.img, input).value, n, EvalProgram(m.p, fuel, m.c.img.globals, input))
  {
    hide IsLoaded, I.Start, I.Run, I.Step, PartsStand, Ready, HasCode, EvalBody;
    var s, globals := I.Start(m.c.img, input).value, m.c.img.globals;
    var r := EvalProgram(m.p, fuel, globals, input);
    StartIsReady(m, input);
    StartFits(m, input);
    IsLayout(m);
    n := 0;
    var t, inner := RunsBody(m, fuel, 0, globals, [I.Null, I.Null], None, s, Fresh(globals, input));
    if r.Ok? {
      var k := Below(s.frames, s.buf, globals);
      Returns(m, k, t, inner, r.value.value, false);
      OutputStands(m, k, t, inner, [r.value.value]);
      var before: nat :| I.Run(m.c, s, before) == Ok(I.Continue(t));
      n := before + 1;
      OneMoreTurn(m.c, s, before, t, t.(ip := t.ip + 1, frames := [], sp := k.bottom));
    }
    if r.Fails? {
      n :| I.Run(m.c, s, n) == Fails(r.reason);
    }
  }

  lemma StartFits(m: Loaded, input: seq<int>)
    requires I.Start(m.c.img, input).Ok?
    ensures m.c.img.globals + 2 < I.MAX_STACK_SIZE
  {}

  lemma IsLayout(m: Loaded)
    requires IsLoaded(m)
    ensures |m.layout| == |m.p.funs|
  {}

  ghost predicate Over(r: Result<I.Next>) {
    !r.Ok? || r.value.Halt?
  }

  /** A run that is over stays over. */
  lemma {:induction false} StaysOver(c: I.Context, s: I.State, n: nat, k: nat)
    requires Over(I.Run(c, s, n)) && n <= k
    ensures I.Run(c, s, k) == I.Run(c, s, n)
    decreases n
  {
    hide I.Step;
    if n > 0 && I.Step(c, s).Ok? && I.Step(c, s).value.Continue? {
      StaysOver(c, I.Step(c, s).value.state, n - 1, k - 1);
    }
  }

  /** The checked machine on the file of a program, for any number of turns: where the program
      has a value the machine does not fail, and when it ends it has printed what the program
      prints; where the program fails the machine does not end, and fails only like this. */
  method RunProgram(m: Loaded, input: seq<int>, turns: nat, ghost fuel: nat)
    returns (machine: Machine, r: Result<bool>)
    requires BeginsWith0(m) && I.Start(m.c.img, input).Ok?
    ensures fresh(machine) && machine.c == m.c
    ensures var e := EvalProgram(m.p, fuel, m.c.img.globals, input);
      && (e.Ok? ==> r.Ok? && (r.value ==> machine.output == e.value.env.output))
      && (e.Fails? ==> r == Ok(false) || r == Fails(e.reason))
  {
    hide BeginsWith0, I.Start, I.Run, EvalProgram;
    machine := new Machine(m.c, input);
    ghost var s := machine.View();
    r := machine.Interpret(turns);
    ghost var n := ProgramRuns(m, fuel, input);
    ghost var e := EvalProgram(m.p, fuel, m.c.img.globals, input);
    if !e.Stuck? {
      if n <= turns {
        StaysOver(m.c, s, n, turns);
      } else if Over(I.Run(m.c, s, turns)) {
        StaysOver(m.c, s, turns, n);
      }
    }
  }

  /** ST, DROP, LD of a variable of any place: the stored value is back on top, and no other
      variable has changed. */
  lemma StoredIsLoaded(m: Loaded, k: Below, s: I.State, env: Env, ops: seq<I.Value>, x: Variable, v: I.Value)
    returns (t: I.State, env2: Env)
    requires IsLoaded(m) && Stands(m, k, s, env, ops + [v]) && Exists(env, x).Ok?
    requires HasCode(m.c.img.code, s.ip, StoreCode(x) + [0x18] + Load(x))
    ensures Leads(m.c, s, t) && Stands(m, k, t, env2, ops + [v])
    ensures 0 < t.sp <= |t.buf| && t.buf[t.sp - 1] == v
    ensures forall y: Variable :: y.place != x.place || y.index != x.index ==> Lookup(env2, y) == Lookup(env, y)
  {
    hide IsLoaded, PartsStand, Leads, Ends, HasCode, Exists, Code1, Lookup, I.Run, I.Step;
    CodeSizes(0x40 + PlaceCode(x.place), x.index);
    HasThree(m.c.img.code, s.ip, StoreCode(x), [0x18], Load(x));
    UpdateExists(env, x, v);
    env2 := Update(env, x, v).value;
    t := StoreDelivers(m, k, s, env, ops, x, v);
    DropLeads(m, k, t, env2, ops, v);
    OneLies(m, k, t, env2, ops, v);
    var u := t.(sp := t.sp - 1, ip := t.ip + 1);
    LeadsOn(m.c, s, t, u);
    t := LoadDelivers(m, k, u, env2, ops, x);
    GiveIs(v, env2, I.MAX_STACK_SIZE - u.sp);
    LeadsOn(m.c, s, u, t);
    OneLies(m, k, t, env2, ops, v);
    forall y: Variable | y.place != x.place || y.index != x.index ensures Lookup(env2, y) == Lookup(env, y) {
      OthersStay(env, x, v, y);
    }
  }
}
