/** The scopes of the parser as they are updated in place: declareLocal, resolve and capture
    (Assignment05's LamaBaseParser and LamaNodeParser). */
module NodeParsers {
  import opened Options
  import opened Scopes
  import ParseRuns

  class NodeParser {
    var scopes: seq<Scope>
    var functions: seq<Function>
    var current: nat

    function View(): Parser
      reads this
    {
      Parser(scopes, functions)
    }

    ghost predicate Valid()
      reads this
    {
      IsTree(scopes) && HasFunctions(View()) && current < |scopes|
    }

    constructor ()
      ensures Valid() && ParseRuns.Parsing(View(), current, []) == ParseRuns.Start()
    {
      scopes := [Scope(-1, 0, false, ParseRuns.BUILTINS), Scope(0, 0, true, map[])];
      functions := [Function(-1, 0, [], None)];
      current := 1;
    }

    /** None is the error that the name is already declared. */
    method DeclareLocal(name: string) returns (slot: Option<nat>)
      requires Valid()
      modifies this
      ensures Valid() && current == old(current)
      ensures slot.Some? <==> name !in old(scopes[current].bindings)
      ensures slot.Some? ==>
        && View() == ParseRuns.DeclareLocal(old(View()), current, name)
        && scopes[current].bindings[name] == Local(slot.value)
    {
      var f := scopes[current].fn;
      var freshSlot := functions[f].slots;
      var declared := name in scopes[current].bindings;
      functions := functions[f := functions[f].(slots := freshSlot + 1)];
      scopes := scopes[current := scopes[current].(bindings := scopes[current].bindings[name := Local(freshSlot)])];
      slot := if declared then None else Some(freshSlot);
    }

    method DeclareCapture(i: nat, name: string, outer: Variable) returns (v: Variable)
      requires Valid() && i < |scopes| && !outer.Global?
      modifies this
      ensures Valid() && current == old(current)
      ensures View() == Scopes.DeclareCapture(old(View()), i, name, outer) && v == CaptureOf(outer)
    {
      var f := scopes[i].fn;
      functions := functions[f := functions[f].(captures := functions[f].captures + [outer])];
      v := CaptureOf(outer);
      scopes := scopes[i := scopes[i].(bindings := scopes[i].bindings[name := v])];
    }

    /** None is the error that the name is undefined. */
    method ResolveOrCapture(i: int, name: string) returns (v: Option<Variable>)
      requires Valid() && -1 <= i < |scopes|
      modifies this
      ensures Valid() && current == old(current)
      ensures (View(), v) == Scopes.ResolveOrCapture(old(View()), i, name)
      decreases i + 1, 1
    {
      var scope := i;
      while scope >= 0
        invariant -1 <= scope <= i && Valid() && View() == old(View()) && current == old(current)
        invariant Scopes.ResolveOrCapture(View(), i, name) == Scopes.ResolveOrCapture(View(), scope, name)
      {
        if name in scopes[scope].bindings {
          return Some(scopes[scope].bindings[name]);
        }
        if scopes[scope].isFunction {
          v := Capture(scope, name);
          return;
        }
        scope := scopes[scope].parent;
      }
      v := None;
    }

    method Capture(i: nat, name: string) returns (v: Option<Variable>)
      requires Valid() && i < |scopes| && scopes[i].isFunction && name !in scopes[i].bindings
      modifies this
      ensures Valid() && current == old(current)
      ensures (View(), v) == Scopes.ResolveOrCapture(old(View()), i, name)
      decreases i + 1, 0
    {
      v := ResolveOrCapture(scopes[i].parent, name);
      if v.Some? && !v.value.Global? {
        var captured := DeclareCapture(i, name, v.value);
        v := Some(captured);
      }
    }

    method Resolve(name: string) returns (v: Option<Variable>)
      requires Valid()
      modifies this
      ensures Valid() && current == old(current)
      ensures (View(), v) == Scopes.ResolveOrCapture(old(View()), current, name)
    {
      v := ResolveOrCapture(current, name);
    }

    /** Begins the scope of a block. */
    method NewScope()
      requires Valid()
      modifies this
      ensures Valid() && current == |old(scopes)|
      ensures View() == ParseRuns.AddScope(old(View()), old(current), old(scopes[current].fn), false)
    {
      var fn := scopes[current].fn;
      scopes, current := scopes + [Scope(current, fn, false, map[])], |scopes|;
    }

    /** Begins a function. */
    method NewFunction()
      requires Valid()
      modifies this
      ensures Valid() && current == |old(scopes)|
      ensures functions == old(functions + [Function(scopes[current].fn, 0, [], None)])
      ensures scopes == ParseRuns.AddScope(old(View()), old(current), |old(functions)|, true).scopes
    {
      var fn := |functions|;
      functions := functions + [Function(scopes[current].fn, 0, [], None)];
      scopes, current := scopes + [Scope(current, fn, true, map[])], |scopes|;
    }
  }
}
