/** Whole parses: every name that a parse resolves means its nearest declaration, and will be
    found at run time along frames that are kept. */
module ParseRuns {
  import opened Options
  import opened Scopes
  import opened LexicalAddressing

  /** A load that was compiled: its function, the variable in the node, and whose declaration
      it is (function and slot). */
  datatype Load = Load(fn: nat, variable: Variable, owner: int, slot: nat)

  datatype Parsing = Parsing(p: Parser, current: nat, loads: seq<Load>)

  /** Reenter: a loop's condition is visited in the scope of its body.  Finish: the function is
      done, and parsing goes on around it. */
  datatype Event =
    | Declare(name: string) | Resolve(name: string) | NewScope | NewFunction | Reenter(i: nat) | Finish(i: nat)

  const BUILTINS: map<string, Variable> :=
    map["read" := Global("read"), "write" := Global("write"), "length" := Global("length"),
        "string" := Global("string"), "println" := Global("println")]

  function Start(): Parsing {
    Parsing(Parser([Scope(-1, 0, false, BUILTINS), Scope(0, 0, true, map[])], [Function(-1, 0, [], None)]), 1, [])
  }

  ghost predicate Enabled(s: Parsing, e: Event)
    requires s.current < |s.p.scopes| && IsTree(s.p.scopes) && HasFunctions(s.p)
  {
    var fn := s.p.scopes[s.current].fn;
    match e
    case Declare(name) => name !in s.p.scopes[s.current].bindings
    case Resolve(name) => ResolveOrCapture(s.p, s.current, name).1.Some?
    case Reenter(i) => 0 < i < |s.p.scopes| && s.p.scopes[i].fn == fn
    case Finish(i) =>
      1 < i < |s.p.scopes| && s.p.scopes[i].fn == fn && s.p.scopes[i].isFunction && s.p.scopes[i].parent > 0
    case _ => true
  }

  function AddScope(p: Parser, current: nat, fn: nat, isFunction: bool): Parser {
    p.(scopes := p.scopes + [Scope(current, fn, isFunction, map[])])
  }

  function DeclareLocal(p: Parser, i: nat, name: string): Parser
    requires i < |p.scopes| && p.scopes[i].fn < |p.functions|
  {
    var s, f := p.scopes[i], p.scopes[i].fn;
    var slot := p.functions[f].slots;
    Parser(
      p.scopes[i := s.(bindings := s.bindings[name := Local(slot)])],
      p.functions[f := p.functions[f].(slots := slot + 1)])
  }

  function MakeNode(p: Parser, f: nat): Parser
    requires f < |p.functions|
  {
    p.(functions := p.functions[f := p.functions[f].(node := Some(p.functions[f].captures != []))])
  }

  ghost function LoadOf(p: Parser, i: nat, name: string, v: Variable): Load
    requires IsTree(p.scopes) && i < |p.scopes|
  {
    var j := Owner(p.scopes, i, name);
    if j >= 0 && p.scopes[j].bindings[name].Local?
    then Load(p.scopes[i].fn, v, p.scopes[j].fn, p.scopes[j].bindings[name].slot)
    else Load(p.scopes[i].fn, v, -1, 0)
  }

  ghost function Apply(s: Parsing, e: Event): Parsing
    requires s.current < |s.p.scopes| && IsTree(s.p.scopes) && HasFunctions(s.p) && Enabled(s, e)
  {
    var fn := s.p.scopes[s.current].fn;
    match e
    case Declare(name) => s.(p := DeclareLocal(s.p, s.current, name))
    case Resolve(name) =>
      var (q, v) := ResolveOrCapture(s.p, s.current, name);
      Parsing(q, s.current, s.loads + [LoadOf(s.p, s.current, name, v.value)])
    case NewScope => s.(p := AddScope(s.p, s.current, fn, false), current := |s.p.scopes|)
    case NewFunction =>
      var q := s.p.(functions := s.p.functions + [Function(fn, 0, [], None)]);
      s.(p := AddScope(q, s.current, |s.p.functions|, true), current := |s.p.scopes|)
    case Reenter(i) => s.(current := i)
    case Finish(i) => s.(p := MakeNode(s.p, fn), current := s.p.scopes[i].parent)
  }

  /** f is g or a function around g. */
  ghost predicate Encloses(fns: seq<Function>, f: int, g: int)
    decreases if g < 0 then 0 else g + 1
  {
    f == g || (0 <= g < |fns| && -1 <= fns[g].parent < g && Encloses(fns, f, fns[g].parent))
  }

  ghost predicate LoadOk(fns: seq<Function>, load: Load) {
    match load.variable
    case Global(_) => true
    case Local(slot) => load.owner == load.fn && slot == load.slot
    case Capture(level, slot) =>
      && load.owner >= 0 && Ancestor(fns, load.fn, level + 1) == load.owner
      && slot == load.slot && KeepFrames(fns, load.fn, level)
  }

  ghost predicate RunInv(s: Parsing) {
    && Inv(s.p) && SlotsOk(s.p) && 0 < s.current < |s.p.scopes| && Open(s.p, s.current)
    && (forall f :: 0 <= f < |s.p.functions| && s.p.functions[f].node.None? ==>
         Encloses(s.p.functions, f, s.p.scopes[s.current].fn))
    && (forall k :: 0 <= k < |s.loads| ==> LoadOk(s.p.functions, s.loads[k]))
  }

  // Functions that are added or changed elsewhere do not matter

  ghost predicate Extends(fns: seq<Function>, gns: seq<Function>) {
    |fns| <= |gns| && forall f :: 0 <= f < |fns| ==>
      fns[f].parent == gns[f].parent && fns[f].captures <= gns[f].captures
  }

  lemma {:induction false} FramesExtend(fns: seq<Function>, gns: seq<Function>, f: int, l: nat)
    requires KeepFrames(fns, f, l) && Extends(fns, gns)
    ensures KeepFrames(gns, f, l)
    decreases l
  {
    if l > 0 { FramesExtend(fns, gns, fns[f].parent, l - 1); }
  }

  lemma {:induction false} AncestorExtends(fns: seq<Function>, gns: seq<Function>, f: int, k: nat, l: nat)
    requires Extends(fns, gns) && KeepFrames(fns, f, l) && k <= l + 1
    ensures Ancestor(gns, f, k) == Ancestor(fns, f, k)
    decreases k
  {
    if k > 1 { AncestorExtends(fns, gns, fns[f].parent, k - 1, l - 1); }
  }

  lemma LoadStaysOk(fns: seq<Function>, gns: seq<Function>, load: Load)
    requires LoadOk(fns, load) && Extends(fns, gns)
    ensures LoadOk(gns, load)
  {
    if load.variable.Capture? {
      FramesExtend(fns, gns, load.fn, load.variable.level);
      AncestorExtends(fns, gns, load.fn, load.variable.level + 1, load.variable.level);
    }
  }

  lemma {:induction false} EnclosesExtends(fns: seq<Function>, gns: seq<Function>, f: int, g: int)
    requires Encloses(fns, f, g) && Extends(fns, gns)
    ensures Encloses(gns, f, g)
    decreases if g < 0 then 0 else g + 1
  {
    if f != g { EnclosesExtends(fns, gns, f, fns[g].parent); }
  }

  lemma {:induction false} EnclosingIsOlder(fns: seq<Function>, f: int, g: int)
    requires Encloses(fns, f, g)
    ensures f <= g
    decreases if g < 0 then 0 else g + 1
  {
    if f != g { EnclosingIsOlder(fns, f, fns[g].parent); }
  }

  // Declaring

  lemma {:induction false} FunctionsGrowInwards(p: Parser, i: int, c: int)
    requires Inv(p) && 0 < c && -1 <= i < |p.scopes| && OnPath(p.scopes, i, c)
    ensures 0 <= c <= i && p.scopes[c].fn <= p.scopes[i].fn
    decreases i + 1
  {
    if i != c {
      FunctionsGrowInwards(p, p.scopes[i].parent, c);
      assert ScopeOk(p, i) && FunctionOk(p.functions, p.scopes[i].fn);
    }
  }

  lemma AroundIsOlder(p: Parser, i: nat, c: nat)
    requires Inv(p) && 0 < c < |p.scopes| && i < |p.scopes| && p.scopes[i].isFunction
    ensures OnPath(p.scopes, p.scopes[i].parent, c) ==> p.scopes[c].fn < p.scopes[i].fn
  {
    if OnPath(p.scopes, p.scopes[i].parent, c) {
      FunctionsGrowInwards(p, p.scopes[i].parent, c);
      assert ScopeOk(p, i) && FunctionOk(p.functions, p.scopes[i].fn);
    }
  }

  /** The scopes after a declaration of `name` in scope c. */
  ghost predicate Declared(ss: seq<Scope>, tt: seq<Scope>, c: nat, name: string) {
    && c < |ss| == |tt| && tt == ss[c := tt[c]] && tt[c] == ss[c].(bindings := tt[c].bindings)
    && name !in ss[c].bindings && name in tt[c].bindings
    && tt[c].bindings == ss[c].bindings[name := tt[c].bindings[name]]
  }

  lemma {:induction false} OwnerElsewhere(ss: seq<Scope>, tt: seq<Scope>, c: nat, name: string, i: int, x: string)
    requires IsTree(ss) && IsTree(tt) && Declared(ss, tt, c, name) && -1 <= i < |ss|
    requires x != name || !OnPath(ss, i, c)
    ensures Owner(tt, i, x) == Owner(ss, i, x)
    decreases i + 1
  {
    if i >= 0 && !Declares(ss[i], x) { OwnerElsewhere(ss, tt, c, name, ss[i].parent, x); }
  }

  lemma {:induction false} CrossedElsewhere(ss: seq<Scope>, tt: seq<Scope>, c: nat, name: string, i: int, j: int)
    requires IsTree(ss) && IsTree(tt) && Declared(ss, tt, c, name) && -1 <= i < |ss|
    ensures Crossed(tt, i, j) == Crossed(ss, i, j)
    decreases i + 1
  {
    if i > j && i >= 0 { CrossedElsewhere(ss, tt, c, name, ss[i].parent, j); }
  }

  lemma MeaningElsewhere(ss: seq<Scope>, tt: seq<Scope>, c: nat, name: string, i: nat, x: string)
    requires IsTree(ss) && IsTree(tt) && Declared(ss, tt, c, name) && i < |ss|
    requires x != name || !OnPath(ss, i, c)
    ensures Meaning(tt, i, x) == Meaning(ss, i, x)
  {
    OwnerElsewhere(ss, tt, c, name, i, x);
    OwnerIsNearest(ss, i, x);
    CrossedElsewhere(ss, tt, c, name, i, Owner(ss, i, x));
  }

  lemma DeclareKeepsInv(s: Parsing, name: string)
    requires RunInv(s) && Enabled(s, Declare(name))
    ensures Inv(DeclareLocal(s.p, s.current, name)) && SlotsOk(DeclareLocal(s.p, s.current, name))
  {
    hide Meaning, KeepFrames;
    var p, c := s.p, s.current;
    var q := DeclareLocal(p, c, name);
    assert Declared(p.scopes, q.scopes, c, name);
    forall f | 0 <= f < |q.functions| ensures FunctionOk(q.functions, f) { assert FunctionOk(p.functions, f); }
    forall i | 0 <= i < |q.scopes| ensures ScopeOk(q, i) { assert ScopeOk(p, i); }
    forall i, x | 0 <= i < |q.scopes| ensures Remembers(q, i, x) {
      assert Remembers(p, i, x);
      if Open(q, i) && x in q.scopes[i].bindings && q.scopes[i].bindings[x].Capture? {
        var f := p.scopes[i].fn;
        EnclosingIsOlder(p.functions, f, p.scopes[c].fn);
        AroundIsOlder(p, i, c);
        assert x == name ==> i != c && !OnPath(p.scopes, i, c);
        MeaningElsewhere(p.scopes, q.scopes, c, name, i, x);
        FramesExtend(p.functions, q.functions, f, p.scopes[i].bindings[x].level);
      }
    }
    DeclareKeepsSlots(p, c, name);
  }

  lemma DeclareKeepsSlots(p: Parser, c: nat, name: string)
    requires SlotsOk(p) && c < |p.scopes| && p.scopes[c].fn < |p.functions| && name !in p.scopes[c].bindings
    ensures SlotsOk(DeclareLocal(p, c, name))
  {
    var q := DeclareLocal(p, c, name);
    forall i, x, j, y | 0 <= i < |q.scopes| && 0 <= j < |q.scopes| && SameLocal(q.scopes[i], x, q.scopes[j], y)
      ensures i == j && x == y
    {
      if !(i == c && x == name) && !(j == c && y == name) { assert SameLocal(p.scopes[i], x, p.scopes[j], y); }
    }
  }

  // New scopes and functions

  lemma {:induction false} OwnerInPrefix(ss: seq<Scope>, s: Scope, i: int, x: string)
    requires IsTree(ss) && IsTree(ss + [s]) && -1 <= i < |ss|
    ensures Owner(ss + [s], i, x) == Owner(ss, i, x)
    decreases i + 1
  {
    if i >= 0 && !Declares(ss[i], x) { OwnerInPrefix(ss, s, ss[i].parent, x); }
  }

  lemma {:induction false} CrossedInPrefix(ss: seq<Scope>, s: Scope, i: int, j: int)
    requires IsTree(ss) && IsTree(ss + [s]) && -1 <= i < |ss|
    ensures Crossed(ss + [s], i, j) == Crossed(ss, i, j)
    decreases i + 1
  {
    if i > j && i >= 0 { CrossedInPrefix(ss, s, ss[i].parent, j); }
  }

  /** A new scope changes nothing for the others. */
  lemma AddScopeKeepsInv(p: Parser, q: Parser, current: nat, fn: nat, isFunction: bool)
    requires Inv(p) && SlotsOk(p) && 0 < current < |p.scopes| && q.scopes == AddScope(p, current, fn, isFunction).scopes
    requires FunctionsOk(q.functions) && Extends(p.functions, q.functions) && fn < |q.functions|
    requires forall f :: 0 <= f < |p.functions| ==> p.functions[f] == q.functions[f]
    requires if isFunction then q.functions[fn].parent == p.scopes[current].fn && fn == |p.functions|
        else fn == p.scopes[current].fn
    ensures Inv(q) && SlotsOk(q)
  {
    hide Meaning, KeepFrames;
    var s := Scope(current, fn, isFunction, map[]);
    assert q.scopes == p.scopes + [s];
    forall i | 0 <= i < |q.scopes| ensures ScopeOk(q, i) {
      if i < |p.scopes| { assert ScopeOk(p, i); }
    }
    forall i, x | 0 <= i < |q.scopes| ensures Remembers(q, i, x) {
      if i < |p.scopes| {
        assert Remembers(p, i, x);
        MeaningInPrefix(p.scopes, s, i, x);
        if Open(q, i) && x in p.scopes[i].bindings && p.scopes[i].bindings[x].Capture? {
          FramesExtend(p.functions, q.functions, p.scopes[i].fn, p.scopes[i].bindings[x].level);
        }
      }
    }
    AddScopeKeepsSlots(p, q, s);
  }

  lemma MeaningInPrefix(ss: seq<Scope>, s: Scope, i: nat, x: string)
    requires IsTree(ss) && IsTree(ss + [s]) && i < |ss|
    ensures Meaning(ss + [s], i, x) == Meaning(ss, i, x)
  {
    OwnerInPrefix(ss, s, i, x);
    CrossedInPrefix(ss, s, i, Owner(ss, i, x));
  }

  lemma AddScopeKeepsSlots(p: Parser, q: Parser, s: Scope)
    requires SlotsOk(p) && q.scopes == p.scopes + [s] && s.bindings == map[] && |p.functions| <= |q.functions|
    requires forall f :: 0 <= f < |p.functions| ==> p.functions[f] == q.functions[f]
    ensures SlotsOk(q)
  {
    forall i, x, j, y | 0 <= i < |q.scopes| && 0 <= j < |q.scopes| && SameLocal(q.scopes[i], x, q.scopes[j], y)
      ensures i == j && x == y
    {
      assert i < |p.scopes| && j < |p.scopes|;
      assert SameLocal(p.scopes[i], x, p.scopes[j], y);
    }
  }

  // Finishing

  lemma FinishKeepsInv(s: Parsing)
    requires RunInv(s)
    ensures Inv(MakeNode(s.p, s.p.scopes[s.current].fn)) && SlotsOk(MakeNode(s.p, s.p.scopes[s.current].fn))
  {
    hide Meaning, KeepFrames;
    var p, g := s.p, s.p.scopes[s.current].fn;
    var q := MakeNode(p, g);
    forall f | 0 <= f < |q.functions| ensures FunctionOk(q.functions, f) {
      assert FunctionOk(p.functions, f);
      if p.functions[f].parent == g && p.functions[f].node.None? { EnclosingIsOlder(p.functions, f, g); }
    }
    forall i | 0 <= i < |q.scopes| ensures ScopeOk(q, i) { assert ScopeOk(p, i); }
    forall i, x | 0 <= i < |q.scopes| ensures Remembers(q, i, x) {
      assert Remembers(p, i, x);
      if Open(q, i) && x in p.scopes[i].bindings && p.scopes[i].bindings[x].Capture? {
        FramesExtend(p.functions, q.functions, p.scopes[i].fn, p.scopes[i].bindings[x].level);
      }
    }
    assert forall i, x, j, y ::
      0 <= i < |q.scopes| && 0 <= j < |q.scopes| && SameLocal(q.scopes[i], x, q.scopes[j], y) ==>
      SameLocal(p.scopes[i], x, p.scopes[j], y);
  }

  // Resolving

  lemma {:induction false} OwnersFunction(p: Parser, i: nat, j: int)
    requires Inv(p) && 0 < i < |p.scopes| && 0 < j && OnPath(p.scopes, i, j)
    ensures j <= i && Ancestor(p.functions, p.scopes[i].fn, Crossed(p.scopes, i, j)) == p.scopes[j].fn
    decreases i
  {
    FunctionsGrowInwards(p, i, j);
    if i != j {
      assert ScopeOk(p, i);
      FunctionsGrowInwards(p, p.scopes[i].parent, j);
      OwnersFunction(p, p.scopes[i].parent, j);
    }
  }

  lemma ResolveKeepsSlots(p: Parser, q: Parser)
    requires SlotsOk(p) && SameFrame(p, q) && SameDeclarations(p.scopes, q.scopes)
    ensures SlotsOk(q)
  {
    forall i, x | 0 <= i < |q.scopes| && x in q.scopes[i].bindings && q.scopes[i].bindings[x].Local?
      ensures x in p.scopes[i].bindings && q.scopes[i].bindings[x] == p.scopes[i].bindings[x]
    {
      assert SameScope(p.scopes[i], q.scopes[i]) && Declares(q.scopes[i], x);
    }
    forall i, x, j, y | 0 <= i < |q.scopes| && 0 <= j < |q.scopes| && SameLocal(q.scopes[i], x, q.scopes[j], y)
      ensures i == j && x == y
    {
      assert SameLocal(p.scopes[i], x, p.scopes[j], y);
    }
  }

  lemma LocalAt(p: Parser, j: nat, name: string)
    requires Inv(p) && 0 < j < |p.scopes| && Declares(p.scopes[j], name)
    ensures p.scopes[j].bindings[name].Local?
  {
    assert ScopeOk(p, j);
  }

  lemma GlobalAt(p: Parser, name: string)
    requires Inv(p) && Declares(p.scopes[0], name)
    ensures p.scopes[0].bindings[name].Global?
  {
    assert ScopeOk(p, 0);
  }

  lemma {:induction false} AncestorSame(fns: seq<Function>, gns: seq<Function>, f: int, k: nat)
    requires |fns| == |gns| && forall g :: 0 <= g < |fns| ==> fns[g].parent == gns[g].parent
    ensures Ancestor(gns, f, k) == Ancestor(fns, f, k)
    decreases k
  {
    if k > 0 && 0 <= f < |fns| { AncestorSame(fns, gns, fns[f].parent, k - 1); }
  }

  lemma ResolveMakesLoad(p: Parser, i: nat, name: string)
    requires Inv(p) && 0 < i && Open(p, i) && ResolveOrCapture(p, i, name).1.Some?
    ensures var (q, v) := ResolveOrCapture(p, i, name); LoadOk(q.functions, LoadOf(p, i, name, v.value))
  {
    hide Inv, SameDeclarations;
    InvSays(p, i, name);
    ResolvesToMeaning(p, i, name);
    var (q, v) := ResolveOrCapture(p, i, name);
    var j := Owner(p.scopes, i, name);
    OwnerIsNearest(p.scopes, i, name);
    if j > 0 {
      OwnersFunction(p, i, j);
      LocalAt(p, j, name);
      if v.value.Capture? {
        AncestorSame(p.functions, q.functions, p.scopes[i].fn, v.value.level + 1);
      }
    } else {
      if j == 0 { GlobalAt(p, name); }
    }
  }

  // Steps and runs

  lemma StepKeepsInv(s: Parsing, e: Event)
    requires RunInv(s) && Enabled(s, e)
    ensures RunInv(Apply(s, e))
  {
    hide Inv, SlotsOk, Meaning, KeepFrames, LoadOk, Encloses, FunctionsOk;
    InvSays(s.p, s.current, "");
    var fn := s.p.scopes[s.current].fn;
    var t := Apply(s, e);
    match e {
      case Declare(name) => DeclareKeepsInv(s, name);
      case Resolve(name) =>
        ResolvesToMeaning(s.p, s.current, name);
        ResolveKeepsSlots(s.p, t.p);
        ResolveMakesLoad(s.p, s.current, name);
      case NewScope =>
        FunctionsOfInv(s.p);
        AddScopeKeepsInv(s.p, t.p, s.current, fn, false);
      case NewFunction =>
        NewFunctionOk(s.p, s.current);
        AddScopeKeepsInv(s.p, t.p, s.current, |s.p.functions|, true);
      case Reenter(i) =>
      case Finish(i) =>
        FinishKeepsInv(s);
        InvSays(s.p, i, "");
    }
    assert Extends(s.p.functions, t.p.functions);
    forall k | 0 <= k < |t.loads| ensures LoadOk(t.p.functions, t.loads[k]) {
      if k < |s.loads| { LoadStaysOk(s.p.functions, t.p.functions, s.loads[k]); }
    }
    StillEnclosed(s, e);
  }

  lemma FunctionsOfInv(p: Parser)
    requires Inv(p)
    ensures FunctionsOk(p.functions)
  {}

  lemma NewFunctionOk(p: Parser, current: nat)
    requires Inv(p) && Open(p, current)
    ensures FunctionsOk(p.functions + [Function(p.scopes[current].fn, 0, [], None)])
  {
    var gns := p.functions + [Function(p.scopes[current].fn, 0, [], None)];
    forall f | 0 <= f < |gns| ensures FunctionOk(gns, f) {
      if f < |p.functions| { assert FunctionOk(p.functions, f); }
    }
  }

  /** The unfinished functions are the ones around the current scope. */
  lemma StillEnclosed(s: Parsing, e: Event)
    requires RunInv(s) && Enabled(s, e)
    ensures var t := Apply(s, e);
      t.current < |t.p.scopes| && Open(t.p, t.current)
      && forall f :: 0 <= f < |t.p.functions| && t.p.functions[f].node.None? ==>
           Encloses(t.p.functions, f, t.p.scopes[t.current].fn)
  {
    hide SlotsOk, Meaning, KeepFrames, LoadOk, Remembers;
    var t := Apply(s, e);
    var g := s.p.scopes[s.current].fn;
    if e.Finish? {
      assert ScopeOk(s.p, e.i) && FunctionOk(s.p.functions, g);
      assert ScopeOk(s.p, s.p.scopes[e.i].parent);
    }
    forall f | 0 <= f < |t.p.functions| && t.p.functions[f].node.None?
      ensures Encloses(t.p.functions, f, t.p.scopes[t.current].fn)
    {
      if f < |s.p.functions| {
        assert Encloses(s.p.functions, f, g);
        EnclosesExtends(s.p.functions, t.p.functions, f, g);
      }
    }
  }

  ghost predicate Possible(s: Parsing, es: seq<Event>)
    decreases |es|
  {
    es == [] ||
    (s.current < |s.p.scopes| && IsTree(s.p.scopes) && HasFunctions(s.p) && Enabled(s, es[0])
        && Possible(Apply(s, es[0]), es[1..]))
  }

  ghost function After(s: Parsing, es: seq<Event>): Parsing
    requires Possible(s, es)
    decreases |es|
  {
    if es == [] then s else After(Apply(s, es[0]), es[1..])
  }

  lemma {:induction false} RunKeepsInv(s: Parsing, es: seq<Event>)
    requires RunInv(s) && Possible(s, es)
    ensures RunInv(After(s, es))
    decreases |es|
  {
    hide RunInv, Enabled, Apply;
    if es != [] {
      StepKeepsInv(s, es[0]);
      RunKeepsInv(Apply(s, es[0]), es[1..]);
    }
  }

  lemma StartKeepsInv()
    ensures RunInv(Start())
  {
    var s := Start();
    forall i | 0 <= i < 2 ensures ScopeOk(s.p, i) {}
  }

  /** Wherever a parse has come to, a name resolves to its nearest declaration and its distance
      in functions, as if nothing had ever been remembered. */
  lemma MemoisedEqualsUncached(es: seq<Event>, name: string)
    requires Possible(Start(), es)
    ensures var s := After(Start(), es);
      && s.current < |s.p.scopes| && IsTree(s.p.scopes) && HasFunctions(s.p)
      && ResolveOrCapture(s.p, s.current, name).1 == Meaning(s.p.scopes, s.current, name)
  {
    hide Meaning, KeepFrames;
    StartKeepsInv();
    RunKeepsInv(Start(), es);
    ResolvesToMeaning(After(Start(), es).p, After(Start(), es).current, name);
  }

  /** Every compiled load names the slot of its declaration and the distance to the function
      that declares it, whose frame every function in between keeps; and no two variables of
      a function share a slot. */
  lemma EveryLoadIsRight(es: seq<Event>)
    requires Possible(Start(), es)
    ensures var s := After(Start(), es);
      && FunctionsOk(s.p.functions) && SlotsOk(s.p)
      && forall k :: 0 <= k < |s.loads| ==> LoadOk(s.p.functions, s.loads[k])
  {
    hide SlotsOk, LoadOk;
    StartKeepsInv();
    RunKeepsInv(Start(), es);
  }
}
