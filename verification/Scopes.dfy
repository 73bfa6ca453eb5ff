/** Names at parse time in the Truffle interpreter: Scope, FunctionScope and CaptureVisitor of
    Assignment05's LamaBaseParser, resolve and capture of its LamaNodeParser. */
module Scopes {

  import opened Options

  datatype Variable = Global(name: string) | Local(slot: nat) | Capture(level: nat, slot: nat)

  /** Scope 0 is the GlobalScope, without parent; scope 1 the root FunctionScope. */
  datatype Scope = Scope(parent: int, fn: nat, isFunction: bool, bindings: map<string, Variable>)

  /** A function under definition; `node` is hasCaptures of its LamaFunctionNode, once made. */
  datatype Function = Function(parent: int, slots: nat, captures: seq<Variable>, node: Option<bool>)

  datatype Parser = Parser(scopes: seq<Scope>, functions: seq<Function>)

  // The declarations alone

  predicate IsTree(ss: seq<Scope>) {
    forall i :: 0 <= i < |ss| ==> -1 <= ss[i].parent < i
  }

  predicate HasFunctions(p: Parser) {
    forall j :: 0 <= j < |p.scopes| ==> p.scopes[j].fn < |p.functions|
  }

  predicate Declares(s: Scope, name: string) {
    name in s.bindings && !s.bindings[name].Capture?
  }

  /** The nearest scope from i outwards that declares the name, or -1. */
  ghost function Owner(ss: seq<Scope>, i: int, name: string): (j: int)
    requires IsTree(ss) && -1 <= i < |ss|
    ensures -1 <= j <= i && (j >= 0 ==> Declares(ss[j], name))
    decreases i + 1
  {
    if i < 0 || Declares(ss[i], name) then i else Owner(ss, ss[i].parent, name)
  }

  /** c is i or one of the scopes around it. */
  ghost predicate OnPath(ss: seq<Scope>, i: int, c: int)
    requires IsTree(ss) && -1 <= i < |ss|
    decreases i + 1
  {
    i == c || (i >= 0 && OnPath(ss, ss[i].parent, c))
  }

  /** Between a scope and the owner of a name no scope declares the name; without an owner,
      no scope around it does. */
  lemma {:induction false} OwnerIsNearest(ss: seq<Scope>, i: int, name: string)
    requires IsTree(ss) && -1 <= i < |ss|
    ensures OnPath(ss, i, Owner(ss, i, name))
    ensures forall c :: Owner(ss, i, name) < c < |ss| && c >= 0 && OnPath(ss, i, c) ==> !Declares(ss[c], name)
    decreases i + 1
  {
    if i >= 0 && !Declares(ss[i], name) { OwnerIsNearest(ss, ss[i].parent, name); }
    if i >= 0 && Declares(ss[i], name) { PathGoesOut(ss, i); }
  }

  lemma {:induction false} PathGoesOut(ss: seq<Scope>, i: int)
    requires IsTree(ss) && -1 <= i < |ss|
    ensures forall c :: OnPath(ss, i, c) ==> c <= i
    decreases i + 1
  {
    if i >= 0 { PathGoesOut(ss, ss[i].parent); }
  }

  /** The number of functions that are left on the way from scope i out to scope j. */
  ghost function Crossed(ss: seq<Scope>, i: int, j: int): nat
    requires IsTree(ss) && -1 <= i < |ss|
    decreases i + 1
  {
    if i <= j || i < 0 then 0 else (if ss[i].isFunction then 1 else 0) + Crossed(ss, ss[i].parent, j)
  }

  /** What a name means in scope i: the nearest declaration, and how many functions out. */
  ghost function Meaning(ss: seq<Scope>, i: int, name: string): Option<Variable>
    requires IsTree(ss) && -1 <= i < |ss|
  {
    var j := Owner(ss, i, name);
    if j < 0 then None
    else
      var v := ss[j].bindings[name];
      var k := Crossed(ss, i, j);
      if v.Local? && k > 0 then Some(Capture(k - 1, v.slot)) else Some(v)
  }

  // What the parser does

  function CaptureOf(v: Variable): Variable
    requires !v.Global?
  {
    if v.Local? then Capture(0, v.slot) else Capture(v.level + 1, v.slot)
  }

  function DeclareCapture(p: Parser, i: nat, name: string, outer: Variable): Parser
    requires i < |p.scopes| && p.scopes[i].fn < |p.functions| && !outer.Global?
  {
    var s, f := p.scopes[i], p.scopes[i].fn;
    Parser(
      p.scopes[i := s.(bindings := s.bindings[name := CaptureOf(outer)])],
      p.functions[f := p.functions[f].(captures := p.functions[f].captures + [outer])])
  }

  /** Finds a name from scope i on; every function that it leaves remembers what it found. */
  function ResolveOrCapture(p: Parser, i: int, name: string): (r: (Parser, Option<Variable>))
    requires IsTree(p.scopes) && HasFunctions(p) && -1 <= i < |p.scopes|
    ensures SameFrame(p, r.0)
    decreases i + 1
  {
    if i < 0 then (p, None)
    else if name in p.scopes[i].bindings then (p, Some(p.scopes[i].bindings[name]))
    else
      var (q, v) := ResolveOrCapture(p, p.scopes[i].parent, name);
      if p.scopes[i].isFunction && v.Some? && !v.value.Global?
      then (DeclareCapture(q, i, name, v.value), Some(CaptureOf(v.value)))
      else (q, v)
  }

  /** The parts of the parser's state that resolving leaves alone. */
  predicate SameFrame(p: Parser, q: Parser) {
    && |p.scopes| == |q.scopes| && |p.functions| == |q.functions|
    && (forall i :: 0 <= i < |p.scopes| ==>
         && p.scopes[i].parent == q.scopes[i].parent && p.scopes[i].fn == q.scopes[i].fn
         && p.scopes[i].isFunction == q.scopes[i].isFunction)
    && (forall f :: 0 <= f < |p.functions| ==>
         && p.functions[f].parent == q.functions[f].parent && p.functions[f].slots == q.functions[f].slots
         && p.functions[f].node == q.functions[f].node
         && p.functions[f].captures <= q.functions[f].captures)
  }
}
