/** The idiom analyser's passes over the code (Assignment03/src/idiom_analyzer.cpp:89-174). */
module IdiomProcessors {
  import opened Bytecode
  import opened InstructionGraph
  import G = Graph
  import Q = MarkQueue

  /** Between two turns: what was reached is reachable and, but for the worklist, explored. */
  ghost predicate Exploring(code: seq<Byte>, entries: set<nat>, reached: set<nat>, targets: set<nat>,
      workset: seq<nat>) {
    && Q.Distinct(workset) && Q.Elements(workset) <= reached <= ReachableFrom(code, entries)
    && (forall p :: p in reached && p !in workset ==> Explored(code, reached, p))
    && (forall q: nat :: q in targets <==> q < |code| && Marked(code, entries, reached, workset, q))
  }

  ghost predicate Explored(code: seq<Byte>, reached: set<nat>, p: nat) {
    p < |code| && Visit(code, p).Ok? && Successors(code, p) <= reached
  }

  ghost predicate Marked(code: seq<Byte>, entries: set<nat>, reached: set<nat>, workset: seq<nat>, q: nat) {
    q in entries || exists p :: p in reached && p !in workset && p < |code| && Marks(code, p, q)
  }

  lemma SuccessorsReachable(code: seq<Byte>, entries: set<nat>, p: nat)
    requires p in ReachableFrom(code, entries)
    ensures p < |code| && Successors(code, p) <= ReachableFrom(code, entries)
  {
    forall q | q in Successors(code, p) ensures q in ReachableFrom(code, entries) {
      G.ReachStep(GraphOf(code), entries, p, q);
    }
  }

  lemma OneExplored(code: seq<Byte>, entries: set<nat>, reached: set<nat>, targets: set<nat>, workset: seq<nat>,
                    reached': set<nat>, targets': set<nat>, workset': seq<nat>)
    requires Exploring(code, entries, reached, targets, workset) && workset != []
    requires var p := workset[|workset| - 1];
      && p < |code| && Visit(code, p).Ok?
      && reached' == reached + Successors(code, p)
      && (forall q: nat :: q in targets' <==> q in targets || Marks(code, p, q))
      && Q.Distinct(workset') && Q.Elements(workset') == Q.Elements(workset) - {p} + (reached' - reached)
    ensures Exploring(code, entries, reached', targets', workset')
  {
    hide Visit, Successors, Marks, Disassemble;
    var p := workset[|workset| - 1];
    SuccessorsReachable(code, entries, p);
    assert forall r: nat :: r in workset <==> r in Q.Elements(workset);
    assert forall r: nat :: r in workset' <==> r in Q.Elements(workset');
    assert forall r: nat :: r in reached' && r !in workset' <==> r == p || (r in reached && r !in workset);
    forall q | q in reached' && q !in workset' ensures Explored(code, reached', q) {
      assert q != p ==> Explored(code, reached, q);
    }
    forall q: nat ensures q in targets' <==> q < |code| && Marked(code, entries, reached', workset', q) {
      if Marks(code, p, q) { MarksInside(code, p, q); }
    }
  }

  lemma MarksInside(code: seq<Byte>, p: nat, q: nat)
    requires p < |code| && Marks(code, p, q)
    ensures q < |code|
  {}

  /** An empty worklist: the set is closed and holds the entries, so it is the least one. */
  lemma AllExplored(code: seq<Byte>, entries: set<nat>, reached: set<nat>, targets: set<nat>)
    requires Exploring(code, entries, reached, targets, []) && entries <= reached
    ensures reached == ReachableFrom(code, entries)
    ensures forall p :: p in reached ==> p < |code| && Visit(code, p).Ok?
    ensures forall q: nat :: q in targets <==> q < |code| && IsJumpTarget(code, entries, q)
  {
    hide Visit, Successors, Marks;
    assert forall p :: p in reached ==> Explored(code, reached, p);
    forall j, k | j in reached && j < |code| && k in GraphOf(code)[j] ensures k in reached {
      assert Explored(code, reached, j);
    }
    G.ReachLeast(GraphOf(code), entries, reached);
  }

  ghost predicate AllGood(code: seq<Byte>, entries: set<nat>) {
    && (forall a :: a in entries ==> a < |code|)
    && forall p :: p in ReachableFrom(code, entries) ==> p < |code| && Visit(code, p).Ok?
  }

  /** One or two instructions in a row. */
  datatype Idiom = Idiom(pos: nat, size: nat)

  /** After a successful search; positions are C ints. */
  ghost predicate Searched(code: seq<Byte>, reached: set<nat>) {
    |code| < 0x8000_0000 && forall p :: p in reached ==> Explored(code, reached, p)
  }

  /** An opcode that ends the disassembly; its length is -1. */
  predicate IsStop(b: Byte) { b >= 0xF0 }

  /** Without a reachable STOP the sweep moves on. */
  ghost predicate Sweepable(code: seq<Byte>, reached: set<nat>) {
    |code| < 0x8000_0000 && forall p :: p in reached ==> Explored(code, reached, p) && !IsStop(code[p])
  }

  ghost function LengthAt(code: seq<Byte>, p: nat): int
    requires p < |code|
  {
    var length := Disassemble(code, p);
    if length.Ok? then length.value else 1
  }

  lemma {:induction false} CapturesBounded(code: seq<Byte>, p: nat, n: nat)
    requires p <= |code| && CapturesLength(code, p, n).Ok?
    ensures p + CapturesLength(code, p, n).value <= |code| + 4
    decreases n
  {
    if n > 0 {
      if p + 5 <= |code| { CapturesBounded(code, p + 5, n - 1); }
    }
  }

  lemma LengthBounded(code: seq<Byte>, p: nat)
    requires p < |code| && Disassemble(code, p).Ok?
    ensures p + Disassemble(code, p).value <= |code| + 9
  {
    hide CapturesLength, Int32At;
    if OpOf(code[p]).MakeClosure? && p + 9 <= |code| {
      var n := Int32At(code, p + 5);
      CapturesBounded(code, p + 9, if n < 0 then 0 else n);
    }
  }

  lemma LengthIs(code: seq<Byte>, reached: set<nat>, p: nat)
    requires Explored(code, reached, p) && !IsStop(code[p]) && |code| < 0x8000_0000
    ensures Disassemble(code, p) == Ok(LengthAt(code, p))
    ensures LengthAt(code, p) >= 1 && p + LengthAt(code, p) < |code|
    ensures !IsTerminal(code[p]) ==> p + LengthAt(code, p) in reached
  {
    hide TargetOf, CapturesLength;
    var e := Visit(code, p);
    LengthBounded(code, p);
    if !IsTerminal(code[p]) {
      assert e.value.next[0] in Successors(code, p);
    }
  }

  lemma LengthInside(code: seq<Byte>, reached: set<nat>, p: nat)
    requires Sweepable(code, reached) && p in reached
    ensures p < |code| && Disassemble(code, p) == Ok(LengthAt(code, p))
    ensures LengthAt(code, p) >= 1 && p + LengthAt(code, p) < |code|
    ensures !IsTerminal(code[p]) ==> p + LengthAt(code, p) in reached
  {
    hide Visit, Disassemble, Successors, IsTerminal;
    LengthIs(code, reached, p);
  }

  /** What the sweep needs of the search that comes before it. */
  lemma SearchIsDone(code: seq<Byte>, entries: set<nat>)
    requires AllGood(code, entries) && |code| < 0x8000_0000
    ensures Searched(code, ReachableFrom(code, entries))
  {
    hide Visit, Successors;
    forall p | p in ReachableFrom(code, entries) ensures Explored(code, ReachableFrom(code, entries), p) {
      SuccessorsReachable(code, entries, p);
    }
  }

  /** The sweep steps back from a STOP, which never is the first byte, and ahead otherwise. */
  lemma StepLength(code: seq<Byte>, reached: set<nat>, p: nat)
    requires Searched(code, reached) && p in reached
    ensures p < |code| && Disassemble(code, p) == Ok(LengthAt(code, p)) && 0 <= p + LengthAt(code, p) < |code|
    ensures LengthAt(code, p) == -1 <==> IsStop(code[p])
    ensures LengthAt(code, p) == -1 || LengthAt(code, p) >= 1
    ensures !IsTerminal(code[p]) ==> p + LengthAt(code, p) in reached
  {
    hide Successors, IsTerminal, TargetOf, CapturesLength;
    assert Explored(code, reached, p);
    if IsStop(code[p]) {
      StopIsSecond(code, reached, p);
    } else {
      LengthIs(code, reached, p);
    }
  }

  lemma StopIsSecond(code: seq<Byte>, reached: set<nat>, p: nat)
    requires Explored(code, reached, p) && IsStop(code[p]) && |code| < 0x8000_0000
    ensures p >= 1 && (!IsTerminal(code[p]) ==> p - 1 in reached)
  {
    if !IsTerminal(code[p]) {
      assert Visit(code, p).value.next == [p - 1];
      assert Visit(code, p).value.next[0] in Successors(code, p);
    }
  }

  ghost predicate IsPair(code: seq<Byte>, targets: set<nat>, p: nat)
    requires p < |code|
  {
    !IsCall(code[p]) && !IsTerminal(code[p]) && p + LengthAt(code, p) !in targets
  }

  ghost function IdiomsAt(code: seq<Byte>, reached: set<nat>, targets: set<nat>, p: nat): seq<Idiom>
    requires p < |code|
  {
    [Idiom(p, 1)] + if IsPair(code, targets, p) then [Idiom(p, 2)] else []
  }

  ghost function Sweep(code: seq<Byte>, reached: set<nat>, targets: set<nat>, addr: nat): seq<Idiom>
    requires Sweepable(code, reached)
    decreases |code| - addr
  {
    if addr >= |code| then []
    else if addr !in reached then Sweep(code, reached, targets, addr + 1)
    else
      LengthInside(code, reached, addr);
      IdiomsAt(code, reached, targets, addr) + Sweep(code, reached, targets, addr + LengthAt(code, addr))
  }

  // The sweep turn by turn: over what is not reachable, then by the length that is reported

  ghost function Skip(code: seq<Byte>, reached: set<nat>, addr: nat): (p: nat)
    requires addr <= |code|
    ensures addr <= p <= |code| && (p < |code| ==> p in reached) && forall q :: addr <= q < p ==> q !in reached
    decreases |code| - addr
  {
    if addr == |code| || addr in reached then addr else Skip(code, reached, addr + 1)
  }

  ghost function Follow(code: seq<Byte>, reached: set<nat>, p: nat): (next: nat)
    requires Searched(code, reached) && p in reached
    ensures p < |code| && next < |code|
  {
    StepLength(code, reached, p);
    p + LengthAt(code, p)
  }

  /** From addr the sweep comes to the end of the code within n turns. */
  ghost predicate EndsIn(code: seq<Byte>, reached: set<nat>, n: nat, addr: nat)
    requires Searched(code, reached) && addr <= |code|
    decreases n
  {
    n > 0 &&
      var p := Skip(code, reached, addr);
      p == |code| || EndsIn(code, reached, n - 1, Follow(code, reached, p))
  }

  ghost predicate Ends(code: seq<Byte>, reached: set<nat>)
    requires Searched(code, reached)
  {
    exists n: nat :: EndsIn(code, reached, n, 0)
  }

  /** What n turns from addr collect. */
  ghost function SweepFor(code: seq<Byte>, reached: set<nat>, targets: set<nat>, n: nat, addr: nat): seq<Idiom>
    requires Searched(code, reached) && addr <= |code|
    decreases n
  {
    if n == 0 || Skip(code, reached, addr) == |code| then []
    else
      var p := Skip(code, reached, addr);
      var next := Follow(code, reached, p);
      IdiomsAt(code, reached, targets, p) + SweepFor(code, reached, targets, n - 1, next)
  }

  ghost function Turns(code: seq<Byte>, reached: set<nat>): (n: nat)
    requires Searched(code, reached) && Ends(code, reached)
    ensures EndsIn(code, reached, n, 0)
  {
    var n: nat :| EndsIn(code, reached, n, 0);
    n
  }

  /** What a sweep that ends collects. */
  ghost function Swept(code: seq<Byte>, reached: set<nat>, targets: set<nat>): seq<Idiom>
    requires Searched(code, reached) && Ends(code, reached)
  {
    SweepFor(code, reached, targets, Turns(code, reached), 0)
  }

  class IdiomProcessor {
    const code: seq<Byte>
    const reachable: array<bool>
    const jumpTargets: array<bool>

    ghost predicate Valid()
      reads this
    {
      reachable.Length == |code| + 1 && jumpTargets.Length == |code| && reachable != jumpTargets
    }

    ghost function Reached(): set<nat>
      requires Valid()
      reads this, reachable
    {
      set p: nat | p < |code| && reachable[p]
    }

    ghost function Unreached(): set<nat>
      requires Valid()
      reads this, reachable
    {
      set p: nat | p < |code| && p !in Reached()
    }

    ghost function Targets(): set<nat>
      requires Valid()
      reads this, jumpTargets
    {
      set p: nat | p < |code| && jumpTargets[p]
    }

    constructor (code: seq<Byte>)
      ensures Valid() && this.code == code && fresh(reachable) && fresh(jumpTargets)
      ensures Reached() == {} && Targets() == {} && reachable[|code|]
    {
      this.code := code;
      reachable := new bool[|code| + 1](i => i == |code|);
      jumpTargets := new bool[|code|](_ => false);
    }

    /** Puts q on the worklist unless it was there before. */
    method Reach(q: nat, workset: seq<nat>) returns (more: seq<nat>)
      requires Valid() && q < |code| && Q.Distinct(workset) && Q.Elements(workset) <= Reached()
      modifies reachable
      ensures Reached() == old(Reached()) + {q} && reachable[|code|] == old(reachable[|code|])
      ensures Q.Distinct(more) && Q.Elements(more) == Q.Elements(workset) + ({q} - old(Reached()))
      ensures Q.Elements(more) <= Reached()
    {
      more := workset;
      if !reachable[q] {
        assert q !in Q.Elements(workset);
        reachable[q] := true;
        more := workset + [q];
      }
    }

    method Mark(q: nat)
      requires Valid() && q < |code|
      modifies jumpTargets
      ensures Targets() == old(Targets()) + {q}
    {
      jumpTargets[q] := true;
    }

    /** The entry points: fails for one that is outside the code. */
    method ReachEntries(entries: seq<nat>) returns (r: Result<seq<nat>>)
      requires Valid() && Reached() == {} && Targets() == {} && reachable[|code|]
      modifies reachable, jumpTargets
      ensures reachable[|code|] && (r.Ok? <==> forall a :: a in Q.Elements(entries) ==> a < |code|)
      ensures r.Ok? ==> Q.Distinct(r.value) && Q.Elements(r.value) == Reached() == Targets() == Q.Elements(entries)
    {
      var workset := [];
      for i := 0 to |entries|
        invariant reachable[|code|] && Q.Distinct(workset)
        invariant forall j :: 0 <= j < i ==> entries[j] < |code|
        invariant Q.Elements(workset) == Reached() == Targets() == Q.Elements(entries[..i])
      {
        assert entries[i] in Q.Elements(entries);
        var _ :- Validate(entries[i] < |code|, Invalid);
        assert entries[..i + 1] == entries[..i] + [entries[i]];
        if !reachable[entries[i]] { Mark(entries[i]); }
        workset := Reach(entries[i], workset);
      }
      assert entries[..|entries|] == entries;
      r := Ok(workset);
    }

    /** Reaches every position of a list, and marks them as jump targets when told to. */
    method ReachAll(qs: seq<nat>, mark: bool, workset: seq<nat>) returns (more: seq<nat>)
      requires Valid() && |qs| <= 1 && (forall q :: q in qs ==> q < |code|)
      requires Q.Distinct(workset) && Q.Elements(workset) <= Reached()
      modifies reachable, jumpTargets
      ensures reachable[|code|] == old(reachable[|code|])
      ensures Reached() == old(Reached()) + Q.Elements(qs)
      ensures Targets() == old(Targets()) + if mark then Q.Elements(qs) else {}
      ensures Q.Distinct(more) && Q.Elements(more) <= Reached()
      ensures Q.Elements(more) == Q.Elements(workset) + (Reached() - old(Reached()))
    {
      more := workset;
      if qs != [] {
        assert Q.Elements(qs) == {qs[0]};
        if mark { Mark(qs[0]); }
        more := Reach(qs[0], more);
      }
    }

    /** Visits the instruction at addr. */
    method Explore(addr: nat, workset: seq<nat>) returns (r: Result<seq<nat>>)
      requires Valid() && addr < |code| && Q.Distinct(workset) && Q.Elements(workset) <= Reached()
      modifies reachable, jumpTargets
      ensures reachable[|code|] == old(reachable[|code|])
      ensures if Visit(code, addr).Ok? then r.Ok? else r == Visit(code, addr).PropagateFailure()
      ensures r.Ok? ==>
        && Reached() == old(Reached()) + Successors(code, addr)
        && (forall q: nat :: q in Targets() <==> q in old(Targets()) || Marks(code, addr, q))
        && Q.Distinct(r.value) && Q.Elements(r.value) == Q.Elements(workset) + (Reached() - old(Reached()))
    {
      hide Visit;
      var edges :- Visit(code, addr);
      EdgesInside(code, addr);
      var more := ReachAll(edges.target, true, workset);
      more := ReachAll(edges.next, IsCall(code[addr]), more);
      r := Ok(more);
    }

    method FindReachableInstructions(entries: seq<nat>) returns (r: Result<bool>)
      requires Valid() && Reached() == {} && Targets() == {} && reachable[|code|]
      modifies reachable, jumpTargets
      ensures reachable[|code|]
      ensures r.Ok? <==> AllGood(code, Q.Elements(entries))
      ensures r.Ok? ==>
        && Reached() == ReachableFrom(code, Q.Elements(entries))
        && forall q: nat :: q in Targets() <==> q < |code| && IsJumpTarget(code, Q.Elements(entries), q)
    {
      hide Visit, Successors, Marks;
      ghost var roots := Q.Elements(entries);
      var workset :- ReachEntries(entries);
      StartExploring(code, roots);
      while workset != []
        invariant reachable[|code|] && roots <= Reached()
        invariant Exploring(code, roots, Reached(), Targets(), workset)
        decreases Unreached(), Q.Elements(workset)
      {
        var addr := workset[|workset| - 1];
        var rest := workset[..|workset| - 1];
        LastOf(workset);
        ghost var reached, targets, before, was := Reached(), Targets(), workset, Unreached();
        assert addr in ReachableFrom(code, roots) && addr < |code|;
        workset :- Explore(addr, rest);
        OneExplored(code, roots, reached, targets, before, Reached(), Targets(), workset);
        assert Unreached() == was - (Reached() - reached);
      }
      AllExplored(code, roots, Reached(), Targets());
      r := Ok(true);
    }

    /** Collects the instruction at addr, and the pair that begins with it. */
    method Collect(addr: nat, length: int) returns (idioms: seq<Idiom>)
      requires Valid() && reachable[|code|] && Searched(code, Reached()) && addr in Reached()
      requires addr < |code| && length == LengthAt(code, addr)
      ensures idioms == IdiomsAt(code, Reached(), Targets(), addr)
    {
      hide Searched, Disassemble, LengthAt;
      StepLength(code, Reached(), addr);
      idioms := [Idiom(addr, 1)];
      if !IsCall(code[addr]) && !IsTerminal(code[addr]) && reachable[addr + length] && !jumpTargets[addr + length] {
        idioms := idioms + [Idiom(addr, 2)];
      }
    }

    /** The linear sweep. */
    method FindIdioms() returns (idioms: seq<Idiom>)
      requires Valid() && reachable[|code|] && Searched(code, Reached()) && Ends(code, Reached())
      ensures idioms == Swept(code, Reached(), Targets())
    {
      hide Searched, Disassemble, LengthAt, Ends, IdiomsAt, EndsIn, SweepFor, Skip;
      ghost var left := Turns(code, Reached());
      idioms := [];
      var addr := 0;
      while addr < |code|
        invariant 0 <= addr <= |code| && EndsIn(code, Reached(), left, addr)
        invariant idioms + SweepFor(code, Reached(), Targets(), left, addr) == Swept(code, Reached(), Targets())
        decreases left
      {
        TurnOfSweep(code, Reached(), Targets(), left, addr, idioms);
        addr := SkipUnreached(addr);
        if addr >= |code| { return; }
        StepLength(code, Reached(), addr);
        var length := Disassemble(code, addr).value;
        var more := Collect(addr, length);
        idioms := idioms + more;
        addr, left := addr + length, left - 1;
      }
      TurnOfSweep(code, Reached(), Targets(), left, addr, idioms);
    }

    method SkipUnreached(addr: nat) returns (p: nat)
      requires Valid() && reachable[|code|] && addr <= |code|
      ensures p == Skip(code, Reached(), addr)
    {
      p := addr;
      while !reachable[p]
        invariant p <= |code| && Skip(code, Reached(), p) == Skip(code, Reached(), addr)
        decreases |code| - p
      {
        p := p + 1;
      }
    }
  }

  /** One turn of a sweep that ends: it collects at the next reachable instruction, or is done. */
  lemma TurnOfSweep(code: seq<Byte>, reached: set<nat>, targets: set<nat>, n: nat, addr: nat, idioms: seq<Idiom>)
    requires Searched(code, reached) && addr <= |code| && EndsIn(code, reached, n, addr)
    ensures n > 0
    ensures var p := Skip(code, reached, addr);
      if p == |code| then
        idioms + SweepFor(code, reached, targets, n, addr) == idioms
      else
        var next := Follow(code, reached, p);
        && EndsIn(code, reached, n - 1, next)
        && idioms + SweepFor(code, reached, targets, n, addr)
             == (idioms + IdiomsAt(code, reached, targets, p)) + SweepFor(code, reached, targets, n - 1, next)
  {
    hide Searched, IdiomsAt;
  }

  lemma EdgesInside(code: seq<Byte>, p: nat)
    requires p < |code| && Visit(code, p).Ok?
    ensures var e := Visit(code, p).value;
      |e.target| <= 1 && |e.next| <= 1 && forall q :: q in e.target || q in e.next ==> q < |code|
  {}

  lemma StartExploring(code: seq<Byte>, roots: set<nat>)
    requires forall a :: a in roots ==> a < |code|
    ensures roots <= ReachableFrom(code, roots)
  {
    forall a | a in roots ensures a in ReachableFrom(code, roots) { G.ReachRoot(GraphOf(code), roots, a); }
  }

  lemma LastOf(s: seq<nat>)
    requires s != [] && Q.Distinct(s)
    ensures Q.Distinct(s[..|s| - 1]) && Q.Elements(s[..|s| - 1]) == Q.Elements(s) - {s[|s| - 1]}
  {
    assert s == s[..|s| - 1] + [s[|s| - 1]];
  }
}
