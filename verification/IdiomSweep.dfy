/** What the linear sweep of the idiom analyser collects. */
module IdiomSweep {
  import opened Bytecode
  import opened InstructionGraph
  import opened IdiomProcessors

  /** No reachable instruction starts inside another one. */
  ghost predicate Apart(code: seq<Byte>, reached: set<nat>)
  {
    forall p, q :: p in reached && q in reached && p < q ==> p < |code| && p + LengthAt(code, p) <= q
  }

  /** Instructions before addr end before it. */
  ghost predicate Clean(code: seq<Byte>, reached: set<nat>, addr: nat) {
    forall p :: p in reached && p < addr ==> p < |code| && p + LengthAt(code, p) <= addr
  }

  /** One instruction, or two that follow each other, the first neither a call nor the end of
      its block and the second no jump target. */
  ghost predicate Wanted(code: seq<Byte>, reached: set<nat>, targets: set<nat>, i: Idiom) {
    i.pos in reached && i.pos < |code| && (i.size == 1 || (i.size == 2 && IsPair(code, targets, i.pos)))
  }

  lemma StillClean(code: seq<Byte>, reached: set<nat>, addr: nat)
    requires Sweepable(code, reached) && Apart(code, reached) && Clean(code, reached, addr) && addr in reached
    ensures addr < |code| && LengthAt(code, addr) >= 1 && Clean(code, reached, addr + LengthAt(code, addr))
    ensures forall q :: q in reached && addr < q ==> addr + LengthAt(code, addr) <= q
  {
    hide LengthAt, Sweepable;
    LengthInside(code, reached, addr);
  }

  lemma CountedHere(code: seq<Byte>, reached: set<nat>, targets: set<nat>, addr: nat, i: Idiom)
    requires addr in reached && addr < |code|
    ensures multiset(IdiomsAt(code, reached, targets, addr))[i] ==
      if i.pos == addr && Wanted(code, reached, targets, i) then 1 else 0
  {
    hide LengthAt;
  }

  lemma {:induction false} SweepCollects(code: seq<Byte>, reached: set<nat>, targets: set<nat>, addr: nat, i: Idiom)
    requires Sweepable(code, reached) && Apart(code, reached) && Clean(code, reached, addr)
    ensures multiset(Sweep(code, reached, targets, addr))[i] ==
      if addr <= i.pos && Wanted(code, reached, targets, i) then 1 else 0
    decreases |code| - addr
  {
    hide Sweepable, LengthAt, Apart, Clean, IsPair, IdiomsAt;
    if addr >= |code| {
    } else if addr !in reached {
      CleanAfter(code, reached, addr);
      SweepCollects(code, reached, targets, addr + 1, i);
    } else {
      StillClean(code, reached, addr);
      var next := addr + LengthAt(code, addr);
      SweepCollects(code, reached, targets, next, i);
      CountedHere(code, reached, targets, addr, i);
    }
  }

  lemma CleanAfter(code: seq<Byte>, reached: set<nat>, addr: nat)
    requires Clean(code, reached, addr) && addr !in reached
    ensures Clean(code, reached, addr + 1)
  {}

  lemma {:induction false} CollectedFrom(code: seq<Byte>, reached: set<nat>, targets: set<nat>, addr: nat, i: Idiom)
    requires Sweepable(code, reached) && i in Sweep(code, reached, targets, addr)
    ensures addr <= i.pos && Wanted(code, reached, targets, i)
    decreases |code| - addr
  {
    hide Sweepable, LengthAt, IsPair;
    if addr < |code| {
      if addr !in reached {
        CollectedFrom(code, reached, targets, addr + 1, i);
      } else {
        LengthInside(code, reached, addr);
        if i !in IdiomsAt(code, reached, targets, addr) {
          CollectedFrom(code, reached, targets, addr + LengthAt(code, addr), i);
        }
      }
    }
  }

  lemma {:induction false} CollectedApart(code: seq<Byte>, reached: set<nat>, targets: set<nat>, addr: nat,
      i: Idiom, j: Idiom)
    requires Sweepable(code, reached) && i.pos < j.pos && i.pos < |code|
    requires i in Sweep(code, reached, targets, addr) && j in Sweep(code, reached, targets, addr)
    ensures i.pos + LengthAt(code, i.pos) <= j.pos
    decreases |code| - addr
  {
    hide Sweepable, LengthAt, IsPair, Wanted;
    if addr < |code| {
      if addr !in reached {
        CollectedApart(code, reached, targets, addr + 1, i, j);
      } else {
        LengthInside(code, reached, addr);
        var next := addr + LengthAt(code, addr);
        CollectedFrom(code, reached, targets, addr, i);
        if j in Sweep(code, reached, targets, next) { CollectedFrom(code, reached, targets, next, j); }
        if i in Sweep(code, reached, targets, next) { CollectedApart(code, reached, targets, next, i, j); }
      }
    }
  }

  /** Without overlaps the sweep collects each reachable instruction once, each pair that
      may be an idiom once, and nothing else. */
  lemma SweepIsExact(code: seq<Byte>, reached: set<nat>, targets: set<nat>)
    requires Sweepable(code, reached) && Apart(code, reached)
    ensures forall i ::
      multiset(Sweep(code, reached, targets, 0))[i] == if Wanted(code, reached, targets, i) then 1 else 0
  {
    forall i
      ensures multiset(Sweep(code, reached, targets, 0))[i] == if Wanted(code, reached, targets, i) then 1 else 0
    {
      SweepCollects(code, reached, targets, 0, i);
    }
  }

  /** And it misses a reachable instruction exactly when one starts inside another. */
  lemma SweepIsCompleteIff(code: seq<Byte>, reached: set<nat>, targets: set<nat>)
    requires Sweepable(code, reached)
    ensures (forall p :: p in reached ==> Idiom(p, 1) in Sweep(code, reached, targets, 0)) <==> Apart(code, reached)
  {
    hide LengthAt, Sweep;
    if Apart(code, reached) {
      SweepIsExact(code, reached, targets);
      forall p | p in reached ensures Idiom(p, 1) in Sweep(code, reached, targets, 0) {
        LengthInside(code, reached, p);
        assert multiset(Sweep(code, reached, targets, 0))[Idiom(p, 1)] == 1;
      }
    } else {
      var p, q :| p in reached && q in reached && p < q && !(p < |code| && p + LengthAt(code, p) <= q);
      LengthInside(code, reached, p);
      if Idiom(p, 1) in Sweep(code, reached, targets, 0) && Idiom(q, 1) in Sweep(code, reached, targets, 0) {
        CollectedApart(code, reached, targets, 0, Idiom(p, 1), Idiom(q, 1));
      }
    }
  }
}
