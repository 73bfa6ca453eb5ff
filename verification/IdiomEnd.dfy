/** When the linear sweep comes to an end: the length of a STOP is reported as -1, so that the
    sweep steps back from it. */
module IdiomEnd {
  import opened Bytecode
  import opened InstructionGraph
  import opened IdiomProcessors
  import opened IdiomSweep
  import G = Graph

  /** Where stepping back from p leads: behind a row of reachable STOPs. */
  ghost function Back(code: seq<Byte>, reached: set<nat>, p: nat): (q: int)
    requires p < |code|
    ensures -1 <= q < p && (q >= 0 ==> !(q in reached && IsStop(code[q])))
    ensures forall r: nat :: q < r < p ==> r in reached && IsStop(code[r])
  {
    if p > 0 && p - 1 in reached && IsStop(code[p - 1]) then Back(code, reached, p - 1) else p - 1
  }

  /** The instruction that stepping back leads to goes beyond p. */
  ghost predicate Passes(code: seq<Byte>, reached: set<nat>, p: nat)
    requires Searched(code, reached) && p in reached && p < |code| && IsStop(code[p])
  {
    var q := Back(code, reached, p);
    q >= 0 && q in reached && q + LengthAt(code, q) > p
  }

  /** Every STOP that the sweep comes to within n turns from addr is passed. */
  ghost predicate AllPass(code: seq<Byte>, reached: set<nat>, n: nat, addr: nat)
    requires Searched(code, reached) && addr <= |code|
    decreases n
  {
    var p := Skip(code, reached, addr);
    n > 0 && p < |code| ==>
      && (IsStop(code[p]) ==> Passes(code, reached, p))
      && AllPass(code, reached, n - 1, Follow(code, reached, p))
  }

  /** From a STOP that it does not pass the sweep never gets away. */
  lemma {:induction false} Trapped(code: seq<Byte>, reached: set<nat>, p: nat, n: nat, addr: nat)
    requires Searched(code, reached) && p in reached && p < |code| && IsStop(code[p]) && !Passes(code, reached, p)
    requires Back(code, reached, p) <= addr <= p
    ensures !EndsIn(code, reached, n, addr)
    decreases n
  {
    hide Searched, LengthAt;
    if n > 0 {
      var r := Skip(code, reached, addr);
      assert addr !in reached ==> addr + 1 <= p && addr + 1 in reached;
      assert r == addr || r == addr + 1;
      StepLength(code, reached, r);
      Trapped(code, reached, p, n - 1, Follow(code, reached, r));
    }
  }

  lemma {:induction false} EndingPasses(code: seq<Byte>, reached: set<nat>, m: nat, n: nat, addr: nat)
    requires Searched(code, reached) && addr <= |code| && EndsIn(code, reached, m, addr)
    ensures AllPass(code, reached, n, addr)
    decreases n
  {
    hide Searched, Passes;
    var p := Skip(code, reached, addr);
    if n > 0 && p < |code| {
      if IsStop(code[p]) && !Passes(code, reached, p) {
        Trapped(code, reached, p, m, p);
        SkipHere(code, reached, addr);
        EndsIsOfSkip(code, reached, m, addr);
      }
      EndingPasses(code, reached, m - 1, n - 1, Follow(code, reached, p));
    }
  }

  lemma SkipHere(code: seq<Byte>, reached: set<nat>, addr: nat)
    requires addr <= |code|
    ensures Skip(code, reached, Skip(code, reached, addr)) == Skip(code, reached, addr)
  {}

  lemma EndsIsOfSkip(code: seq<Byte>, reached: set<nat>, n: nat, addr: nat)
    requires Searched(code, reached) && addr <= |code|
    ensures EndsIn(code, reached, n, addr) == EndsIn(code, reached, n, Skip(code, reached, addr))
  {
    hide Searched;
    SkipHere(code, reached, addr);
  }

  /** Stepping back from p, over the row of STOPs and ahead again. */
  lemma {:induction false} StepsBack(code: seq<Byte>, reached: set<nat>, p: nat, n: nat)
    requires Searched(code, reached) && p in reached && p < |code| && IsStop(code[p])
    requires Back(code, reached, p) >= 0 && Back(code, reached, p) in reached
    requires EndsIn(code, reached, n, Follow(code, reached, Back(code, reached, p)))
    ensures EndsIn(code, reached, n + 1 + p - Back(code, reached, p), p)
    decreases p
  {
    hide Searched, LengthAt;
    StepLength(code, reached, p);
    var q := Back(code, reached, p);
    if q < p - 1 {
      StepsBack(code, reached, p - 1, n);
    } else {
      assert Skip(code, reached, q) == q;
    }
  }

  lemma {:induction false} PassedOver(code: seq<Byte>, reached: set<nat>, p: nat, n: nat)
    requires Searched(code, reached) && p in reached && p < |code| && IsStop(code[p])
    requires Back(code, reached, p) >= 0 && Back(code, reached, p) in reached
    requires AllPass(code, reached, n + 1 + p - Back(code, reached, p), p)
    ensures AllPass(code, reached, n, Follow(code, reached, Back(code, reached, p)))
    decreases p
  {
    hide Searched, LengthAt, Passes;
    StepLength(code, reached, p);
    var q := Back(code, reached, p);
    if q < p - 1 {
      PassedOver(code, reached, p - 1, n);
    } else {
      assert Skip(code, reached, q) == q;
    }
  }

  lemma {:induction false} PassingEnds(code: seq<Byte>, reached: set<nat>, addr: nat) returns (m: nat)
    requires Searched(code, reached) && addr <= |code| && forall n: nat :: AllPass(code, reached, n, addr)
    ensures EndsIn(code, reached, m, addr)
    decreases |code| - addr
  {
    hide Searched, LengthAt;
    var p := Skip(code, reached, addr);
    if p == |code| { return 1; }
    StepLength(code, reached, p);
    assert AllPass(code, reached, 1, addr);
    if IsStop(code[p]) {
      var q := Back(code, reached, p);
      var next := Follow(code, reached, q);
      SkipHere(code, reached, addr);
      forall n: nat ensures AllPass(code, reached, n, next) {
        assert AllPass(code, reached, n + 1 + p - q, addr);
        AllPassOfSkip(code, reached, n + 1 + p - q, addr);
        PassedOver(code, reached, p, n);
      }
      m := PassingEnds(code, reached, next);
      StepsBack(code, reached, p, m);
      m := m + 1 + p - q;
      EndsIsOfSkip(code, reached, m, addr);
    } else {
      var next := Follow(code, reached, p);
      forall n: nat ensures AllPass(code, reached, n, next) {
        assert AllPass(code, reached, n + 1, addr);
      }
      m := PassingEnds(code, reached, next);
      m := m + 1;
    }
  }

  lemma AllPassOfSkip(code: seq<Byte>, reached: set<nat>, n: nat, addr: nat)
    requires Searched(code, reached) && addr <= |code|
    ensures AllPass(code, reached, n, addr) == AllPass(code, reached, n, Skip(code, reached, addr))
  {
    hide Searched, Passes;
    SkipHere(code, reached, addr);
  }

  ghost predicate PassesAll(code: seq<Byte>, reached: set<nat>)
    requires Searched(code, reached)
  {
    forall n: nat :: AllPass(code, reached, n, 0)
  }

  /** The sweep ends if and only if it passes every STOP that it comes to. */
  lemma SweepEndsIff(code: seq<Byte>, reached: set<nat>)
    requires Searched(code, reached)
    ensures Ends(code, reached) <==> PassesAll(code, reached)
  {
    hide Searched, AllPass, EndsIn;
    if Ends(code, reached) {
      forall n: nat ensures AllPass(code, reached, n, 0) {
        EndingPasses(code, reached, Turns(code, reached), n, 0);
      }
      assert PassesAll(code, reached);
    }
    if PassesAll(code, reached) {
      var m := PassingEnds(code, reached, 0);
      assert EndsIn(code, reached, m, 0);
    }
  }

  // Where no reachable instruction starts inside another, no STOP is passed

  lemma {:induction false} ApartComesTo(code: seq<Byte>, reached: set<nat>, p: nat, n: nat, addr: nat)
    requires Searched(code, reached) && Apart(code, reached) && p in reached && p < |code| && IsStop(code[p])
    requires addr <= p && forall q :: q in reached && q < p ==> !IsStop(code[q])
    ensures !EndsIn(code, reached, n, addr)
    decreases n
  {
    hide Searched, LengthAt;
    var r := Skip(code, reached, addr);
    assert r <= p;
    StepLength(code, reached, r);
    if r == p {
      var q := Back(code, reached, p);
      assert q == p - 1;
      if q in reached { StepLength(code, reached, q); }
      Trapped(code, reached, p, n, p);
      EndsIsOfSkip(code, reached, n, addr);
    } else if n > 0 {
      ApartComesTo(code, reached, p, n - 1, Follow(code, reached, r));
    }
  }

  lemma StopIsReached(code: seq<Byte>, reached: set<nat>)
    requires Searched(code, reached) && !Sweepable(code, reached)
    ensures exists p :: 0 <= p < |code| && p in reached && IsStop(code[p])
  {
    hide Visit, Successors;
    var p :| p in reached && !(Explored(code, reached, p) && !IsStop(code[p]));
    assert Explored(code, reached, p);
  }

  /** Without overlaps the sweep ends if and only if no STOP is reachable. */
  lemma ApartSweepEndsIff(code: seq<Byte>, reached: set<nat>)
    requires Searched(code, reached) && Apart(code, reached)
    ensures Ends(code, reached) <==> Sweepable(code, reached)
  {
    hide LengthAt, Explored;
    if Sweepable(code, reached) {
      SweepsTo(code, reached, {}, |code| + 1, 0);
    } else {
      StopIsReached(code, reached);
      var p := FirstStop(code, reached, 0);
      if Ends(code, reached) { ApartComesTo(code, reached, p, Turns(code, reached), 0); }
    }
  }

  /** The first reachable STOP from addr on. */
  ghost function FirstStop(code: seq<Byte>, reached: set<nat>, addr: nat): (p: nat)
    requires exists p :: addr <= p < |code| && p in reached && IsStop(code[p])
    ensures addr <= p < |code| && p in reached && IsStop(code[p])
    ensures forall q :: addr <= q < p && q in reached ==> !IsStop(code[q])
    decreases |code| - addr
  {
    if addr in reached && IsStop(code[addr]) then addr else FirstStop(code, reached, addr + 1)
  }

  /** Without a reachable STOP the sweep is the plain one, whatever overlaps. */
  lemma {:induction false} SweepsTo(code: seq<Byte>, reached: set<nat>, targets: set<nat>, n: nat, addr: nat)
    requires Searched(code, reached) && Sweepable(code, reached) && addr <= |code|
    ensures n > |code| - addr ==> EndsIn(code, reached, n, addr)
    ensures EndsIn(code, reached, n, addr) ==>
      SweepFor(code, reached, targets, n, addr) == Sweep(code, reached, targets, addr)
    decreases n
  {
    hide Searched, Sweepable, LengthAt, IdiomsAt;
    if n > 0 {
      var p := Skip(code, reached, addr);
      SweepSkips(code, reached, targets, addr);
      if p < |code| {
        LengthInside(code, reached, p);
        SweepsTo(code, reached, targets, n - 1, Follow(code, reached, p));
      }
    }
  }

  lemma {:induction false} SweepSkips(code: seq<Byte>, reached: set<nat>, targets: set<nat>, addr: nat)
    requires Sweepable(code, reached) && addr <= |code|
    ensures Sweep(code, reached, targets, addr) == Sweep(code, reached, targets, Skip(code, reached, addr))
    decreases |code| - addr
  {
    hide Sweepable, LengthAt, IdiomsAt;
    if addr < |code| && addr !in reached { SweepSkips(code, reached, targets, addr + 1); }
  }

  /** So what is collected without a reachable STOP is the plain sweep. */
  lemma SweptIsSweep(code: seq<Byte>, reached: set<nat>, targets: set<nat>)
    requires Sweepable(code, reached)
    ensures Searched(code, reached) && Ends(code, reached)
    ensures Swept(code, reached, targets) == Sweep(code, reached, targets, 0)
  {
    hide Explored, LengthAt, IdiomsAt;
    SweepsTo(code, reached, targets, |code| + 1, 0);
    SweepsTo(code, reached, targets, Turns(code, reached), 0);
  }

  const DROP_STOP: seq<Byte> := [0x18, 0xF0, 0x00]

  lemma VisitsOfDropStop()
    ensures Visit(DROP_STOP, 0) == Ok(Edges([], [1])) && Visit(DROP_STOP, 1) == Ok(Edges([], []))
    ensures Disassemble(DROP_STOP, 0) == Ok(1)
  {}

  lemma SuccessorsOfDropStop()
    ensures Visit(DROP_STOP, 0).Ok? && Visit(DROP_STOP, 1).Ok?
    ensures Successors(DROP_STOP, 0) == {1} && Successors(DROP_STOP, 1) == {}
  {
    hide Visit;
    VisitsOfDropStop();
  }

  /** DROP and STOP: the search succeeds, and the sweep goes back and forth between them. */
  lemma DropStopNeverEnds()
    ensures AllGood(DROP_STOP, {0}) && ReachableFrom(DROP_STOP, {0}) == {0, 1}
    ensures Searched(DROP_STOP, {0, 1}) && !Ends(DROP_STOP, {0, 1})
  {
    hide Ends, OpOf, Visit, Successors, Disassemble;
    SuccessorsOfDropStop();
    StartExploring(DROP_STOP, {0});
    SuccessorsReachable(DROP_STOP, {0}, 0);
    G.ReachLeast(GraphOf(DROP_STOP), {0}, {0, 1});
    assert ReachableFrom(DROP_STOP, {0}) == {0, 1};
    VisitsOfDropStop();
    ApartSweepEndsIff(DROP_STOP, {0, 1});
  }
}
