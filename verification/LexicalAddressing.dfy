/** Names resolve to their nearest declarations, however captures were remembered. */
module LexicalAddressing {
  import opened Options
  import opened Scopes

  /** Both have the same declarations in the same tree; captures may differ. */
  ghost predicate SameDeclarations(ss: seq<Scope>, tt: seq<Scope>) {
    |ss| == |tt| && forall i :: 0 <= i < |ss| ==> SameScope(ss[i], tt[i])
  }

  ghost predicate SameScope(s: Scope, t: Scope) {
    && s.parent == t.parent && s.fn == t.fn && s.isFunction == t.isFunction
    && forall name ::
      && Declares(s, name) == Declares(t, name)
      && (Declares(s, name) ==> s.bindings[name] == t.bindings[name])
  }

  lemma {:induction false} SameOwner(ss: seq<Scope>, tt: seq<Scope>, i: int, name: string)
    requires IsTree(ss) && IsTree(tt) && SameDeclarations(ss, tt) && -1 <= i < |ss|
    ensures Owner(ss, i, name) == Owner(tt, i, name)
    decreases i + 1
  {
    if i >= 0 {
      assert SameScope(ss[i], tt[i]);
      SameOwner(ss, tt, ss[i].parent, name);
    }
  }

  lemma {:induction false} SameCrossed(ss: seq<Scope>, tt: seq<Scope>, i: int, j: int)
    requires IsTree(ss) && IsTree(tt) && SameDeclarations(ss, tt) && -1 <= i < |ss|
    ensures Crossed(ss, i, j) == Crossed(tt, i, j)
    decreases i + 1
  {
    if i > j && i >= 0 {
      assert SameScope(ss[i], tt[i]);
      SameCrossed(ss, tt, ss[i].parent, j);
    }
  }

  lemma SameMeaning(ss: seq<Scope>, tt: seq<Scope>, i: int, name: string)
    requires IsTree(ss) && IsTree(tt) && SameDeclarations(ss, tt) && -1 <= i < |ss|
    ensures Meaning(ss, i, name) == Meaning(tt, i, name)
  {
    SameOwner(ss, tt, i, name);
    var j := Owner(ss, i, name);
    SameCrossed(ss, tt, i, j);
    if j >= 0 { assert SameScope(ss[j], tt[j]); }
  }

  /** What a name means outside, seen from a scope that does not declare it. */
  lemma MeaningFromOutside(ss: seq<Scope>, i: nat, name: string)
    requires IsTree(ss) && i < |ss| && !Declares(ss[i], name)
    ensures var outer := Meaning(ss, ss[i].parent, name);
      Meaning(ss, i, name) ==
      if ss[i].isFunction && outer.Some? && !outer.value.Global? then Some(CaptureOf(outer.value)) else outer
  {}

  // The invariant

  /** f and its l enclosing functions have captures, so that their closures keep frames. */
  ghost predicate KeepFrames(fns: seq<Function>, f: int, l: nat)
    decreases l
  {
    0 <= f < |fns| && fns[f].captures != [] && (l > 0 ==> KeepFrames(fns, fns[f].parent, l - 1))
  }

  ghost function Ancestor(fns: seq<Function>, f: int, k: nat): int
    decreases k
  {
    if k == 0 then f else if 0 <= f < |fns| then Ancestor(fns, fns[f].parent, k - 1) else -1
  }

  ghost predicate ScopeOk(p: Parser, i: nat)
    requires i < |p.scopes| && IsTree(p.scopes)
  {
    var s := p.scopes[i];
    && s.fn < |p.functions|
    && (i == 0 <==> s.parent == -1)
    && (i == 0 ==> !s.isFunction && forall name :: name in s.bindings ==> s.bindings[name].Global?)
    && (i > 0 ==> forall name :: name in s.bindings ==> !s.bindings[name].Global?)
    && (i > 0 && !s.isFunction ==> s.parent > 0 && p.scopes[s.parent].fn == s.fn)
    && (i > 0 && s.isFunction && s.parent > 0 ==> p.functions[s.fn].parent == p.scopes[s.parent].fn)
  }

  ghost predicate Open(p: Parser, i: int) {
    0 <= i < |p.scopes| && p.scopes[i].fn < |p.functions| && p.functions[p.scopes[i].fn].node.None?
  }

  /** What an unfinished function remembers of a name is still what the name means. */
  ghost predicate Remembers(p: Parser, i: nat, name: string)
    requires i < |p.scopes| && IsTree(p.scopes)
  {
    Open(p, i) && name in p.scopes[i].bindings && p.scopes[i].bindings[name].Capture? ==>
      && p.scopes[i].isFunction
      && Meaning(p.scopes, i, name) == Some(p.scopes[i].bindings[name])
      && KeepFrames(p.functions, p.scopes[i].fn, p.scopes[i].bindings[name].level)
  }

  /** hasCaptures was right when the node was made and still is; a function is left after the
      functions inside it. */
  ghost predicate FunctionOk(fns: seq<Function>, f: nat)
    requires f < |fns|
  {
    && -1 <= fns[f].parent < f
    && (fns[f].node.Some? ==> fns[f].node.value == (fns[f].captures != []))
    && (fns[f].node.None? && fns[f].parent >= 0 ==> fns[fns[f].parent].node.None?)
  }

  ghost predicate FunctionsOk(fns: seq<Function>) {
    forall f :: 0 <= f < |fns| ==> FunctionOk(fns, f)
  }

  ghost predicate SameLocal(s: Scope, x: string, t: Scope, y: string) {
    && s.fn == t.fn && x in s.bindings && y in t.bindings
    && s.bindings[x].Local? && s.bindings[x] == t.bindings[y]
  }

  /** Variables of one function never share a slot of its frames, wherever they are declared. */
  ghost predicate SlotsOk(p: Parser) {
    && (forall i, name :: 0 <= i < |p.scopes| && name in p.scopes[i].bindings && p.scopes[i].bindings[name].Local? ==>
         p.scopes[i].fn < |p.functions| && p.scopes[i].bindings[name].slot < p.functions[p.scopes[i].fn].slots)
    && forall i, x, j, y ::
        0 <= i < |p.scopes| && 0 <= j < |p.scopes| && SameLocal(p.scopes[i], x, p.scopes[j], y) ==> i == j && x == y
  }

  ghost predicate Inv(p: Parser) {
    && IsTree(p.scopes) && |p.scopes| >= 2 && HasFunctions(p) && FunctionsOk(p.functions)
    && (forall i :: 0 <= i < |p.scopes| ==> ScopeOk(p, i))
    && (forall i, name :: 0 <= i < |p.scopes| ==> Remembers(p, i, name))
  }

  lemma {:induction false} FramesStay(fns: seq<Function>, gns: seq<Function>, f: int, l: nat)
    requires KeepFrames(fns, f, l) && |fns| == |gns|
    requires forall g :: 0 <= g < |fns| ==> fns[g].parent == gns[g].parent && fns[g].captures <= gns[g].captures
    ensures KeepFrames(gns, f, l)
    decreases l
  {
    if l > 0 { FramesStay(fns, gns, fns[f].parent, l - 1); }
  }

  lemma CaptureKeepsFrames(p: Parser, i: nat, name: string, outer: Variable)
    requires FunctionsOk(p.functions) && Open(p, i) && !outer.Global?
    requires outer.Capture? ==> KeepFrames(p.functions, p.functions[p.scopes[i].fn].parent, outer.level)
    ensures var q := DeclareCapture(p, i, name, outer);
      && FunctionsOk(q.functions) && KeepFrames(q.functions, p.scopes[i].fn, CaptureOf(outer).level)
  {
    var q := DeclareCapture(p, i, name, outer);
    var f := p.scopes[i].fn;
    assert forall g :: 0 <= g < |p.functions| ==> p.functions[g].captures <= q.functions[g].captures;
    if outer.Capture? { FramesStay(p.functions, q.functions, p.functions[f].parent, outer.level); }
    forall g | 0 <= g < |q.functions| ensures FunctionOk(q.functions, g) {
      assert FunctionOk(p.functions, g);
    }
  }

  lemma RemembersStays(p: Parser, q: Parser, i: nat, name: string)
    requires IsTree(p.scopes) && IsTree(q.scopes) && SameDeclarations(p.scopes, q.scopes) && i < |p.scopes|
    requires Remembers(p, i, name) && name in p.scopes[i].bindings && name in q.scopes[i].bindings
    requires q.scopes[i].bindings[name] == p.scopes[i].bindings[name]
    requires |p.functions| == |q.functions|
    requires forall g :: 0 <= g < |p.functions| ==>
      && p.functions[g].parent == q.functions[g].parent && p.functions[g].captures <= q.functions[g].captures
      && (p.functions[g].node.Some? ==> q.functions[g].node.Some?)
    ensures Remembers(q, i, name)
  {
    hide Meaning;
    SameMeaning(p.scopes, q.scopes, i, name);
    assert SameScope(p.scopes[i], q.scopes[i]);
    if Open(p, i) && p.scopes[i].bindings[name].Capture? {
      FramesStay(p.functions, q.functions, p.scopes[i].fn, p.scopes[i].bindings[name].level);
    }
  }

  lemma CaptureKept(p: Parser, i: nat, name: string, outer: Variable)
    requires Inv(p) && Open(p, i) && p.scopes[i].isFunction && name !in p.scopes[i].bindings
    requires !outer.Global? && Meaning(p.scopes, p.scopes[i].parent, name) == Some(outer)
    requires p.scopes[i].parent > 0
    requires outer.Capture? ==> KeepFrames(p.functions, p.scopes[p.scopes[i].parent].fn, outer.level)
    ensures var q := DeclareCapture(p, i, name, outer);
      && Inv(q) && SameDeclarations(p.scopes, q.scopes) && Meaning(p.scopes, i, name) == Some(CaptureOf(outer))
      && KeepFrames(q.functions, q.scopes[i].fn, CaptureOf(outer).level)
  {
    hide Meaning, KeepFrames, FunctionsOk;
    var q := DeclareCapture(p, i, name, outer);
    assert ScopeOk(p, i);
    assert SameDeclarations(p.scopes, q.scopes);
    MeaningFromOutside(p.scopes, i, name);
    CaptureKeepsFrames(p, i, name, outer);
    forall j | 0 <= j < |q.scopes| ensures ScopeOk(q, j) {
      assert ScopeOk(p, j);
    }
    forall j, x | 0 <= j < |q.scopes| ensures Remembers(q, j, x) {
      assert Remembers(p, j, x);
      if j == i && x == name { SameMeaning(p.scopes, q.scopes, i, name); }
      else if x in p.scopes[j].bindings { RemembersStays(p, q, j, x); }
    }
  }

  lemma OpenOutside(p: Parser, i: nat)
    requires Inv(p) && Open(p, i) && p.scopes[i].parent > 0
    ensures Open(p, p.scopes[i].parent)
  {
    assert ScopeOk(p, i) && ScopeOk(p, p.scopes[i].parent);
    assert FunctionOk(p.functions, p.scopes[i].fn);
  }

  lemma ResolvesGlobally(p: Parser, name: string)
    requires Inv(p)
    ensures var v := Meaning(p.scopes, 0, name);
      ResolveOrCapture(p, 0, name) == (p, v) && (v.Some? ==> v.value.Global?)
  {
    assert ScopeOk(p, 0);
    assert Owner(p.scopes, -1, name) == -1;
    assert ResolveOrCapture(p, -1, name) == (p, None);
  }

  /** Resolving finds the nearest declaration and the number of functions out to it, and keeps
      the invariant; every function on the way keeps frames. */
  lemma {:induction false} ResolvesToMeaning(p: Parser, i: nat, name: string)
    requires Inv(p) && i < |p.scopes| && (i > 0 ==> Open(p, i))
    ensures var (q, v) := ResolveOrCapture(p, i, name);
      && v == Meaning(p.scopes, i, name)
      && Inv(q) && SameDeclarations(p.scopes, q.scopes)
      && (v.Some? && v.value.Capture? ==> KeepFrames(q.functions, p.scopes[i].fn, v.value.level))
    decreases i
  {
    hide Meaning, KeepFrames, FunctionsOk, Inv;
    InvSays(p, i, name);
    if i == 0 {
      ResolvesGlobally(p, name);
    } else if name in p.scopes[i].bindings {
      DeclaredHere(p, i, name);
    } else {
      var outer := p.scopes[i].parent;
      if outer > 0 { OpenOutside(p, i); } else { ResolvesGlobally(p, name); }
      ResolvesToMeaning(p, outer, name);
      MeaningFromOutside(p.scopes, i, name);
      var (q, v) := ResolveOrCapture(p, outer, name);
      SameMeaning(p.scopes, q.scopes, outer, name);
      SameMeaning(p.scopes, q.scopes, i, name);
      assert SameScope(p.scopes[i], q.scopes[i]) && SameScope(p.scopes[outer], q.scopes[outer]);
      if p.scopes[i].isFunction && v.Some? && !v.value.Global? {
        NotYetCaptured(p, i, name);
        CaptureKept(q, i, name, v.value);
        SameTwice(p.scopes, q.scopes, DeclareCapture(q, i, name, v.value).scopes);
      }
    }
  }

  lemma InvSays(p: Parser, i: nat, name: string)
    requires Inv(p) && i < |p.scopes|
    ensures IsTree(p.scopes) && HasFunctions(p) && ScopeOk(p, i) && Remembers(p, i, name)
  {}

  lemma DeclaredHere(p: Parser, i: nat, name: string)
    requires IsTree(p.scopes) && i < |p.scopes| && ScopeOk(p, i) && Remembers(p, i, name)
    requires name in p.scopes[i].bindings
    requires i > 0 ==> Open(p, i)
    ensures Meaning(p.scopes, i, name) == Some(p.scopes[i].bindings[name])
  {}

  lemma SameTwice(ss: seq<Scope>, tt: seq<Scope>, uu: seq<Scope>)
    requires SameDeclarations(ss, tt) && SameDeclarations(tt, uu)
    ensures SameDeclarations(ss, uu)
  {
    forall i | 0 <= i < |ss| ensures SameScope(ss[i], uu[i]) {
      assert SameScope(ss[i], tt[i]) && SameScope(tt[i], uu[i]);
    }
  }

  /** Resolving further out does not touch the bindings of scope i. */
  lemma {:induction false} NotYetCaptured(p: Parser, i: nat, name: string)
    requires Inv(p) && i < |p.scopes| && name !in p.scopes[i].bindings
    ensures ResolveOrCapture(p, p.scopes[i].parent, name).0.scopes[i].bindings == p.scopes[i].bindings
  {
    InvSays(p, i, name);
    OutsideUntouched(p, p.scopes[i].parent, name, i);
  }

  lemma {:induction false} OutsideUntouched(p: Parser, j: int, name: string, i: nat)
    requires IsTree(p.scopes) && HasFunctions(p) && -1 <= j < i < |p.scopes|
    ensures ResolveOrCapture(p, j, name).0.scopes[i].bindings == p.scopes[i].bindings
    decreases j + 1
  {
    if j >= 0 && name !in p.scopes[j].bindings { OutsideUntouched(p, p.scopes[j].parent, name, i); }
  }
}
