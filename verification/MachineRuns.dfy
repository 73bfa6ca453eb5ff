/** Machines that run whole files: what is proved of runs of the specification, said of the
    objects that the two interpreters are. */
module MachineRuns {
  import opened Bytecode
  import opened Machine
  import I = Interpreter
  import D = Discipline
  import E = Erasure
  import R = Refinement

  /** The machine of either interpreter on a file with consistent depths.  While it runs, its
      frames lie one above the other with nothing between them but the operands; it never
      reports an underflow. */
  method RunFile(c: I.Context, words: seq<int>, n: nat, ghost d: D.Depths) returns (m: Machine, r: Result<bool>)
    requires D.Consistent(c, d) && D.GoodStart(c, d) && I.Start(c.img, words).Ok?
    requires D.AritiesFit(c, I.Start(c.img, words).value, n)
    ensures fresh(m) && fresh(m.buf) && m.c == c
    ensures r != Fails(Underflow)
    ensures r == Ok(false) ==> D.InOrder(c, d, m.View())
  {
    hide D.Consistent, D.GoodStart, D.AritiesFit, D.InOrder, D.Disciplined, I.Run, I.Start;
    m := new Machine(c, words);
    D.StartDisciplined(c, d, words);
    D.RunInOrder(c, d, m.View(), n);
    r := m.Interpret(n);
  }

  /** Two machines on the two files: where the checked one does not fail, the unchecked one
      ends in the same way with equal fields, or has found that a function's stack will not
      fit, in a state in which the checked one was too. */
  method RunBoth(a: Image, b: Image, lib: I.Library, words: seq<int>, n: nat, ghost starts: set<int>)
    returns (checked: Machine, unchecked: Machine, r: Result<bool>, q: Result<bool>)
    requires E.Agree(a, b, starts) && I.Start(a, words).Ok?
    ensures fresh(checked) && fresh(unchecked) && fresh(checked.buf) && fresh(unchecked.buf)
    ensures checked.c == I.Context(true, a, lib) && unchecked.c == I.Context(false, b, lib)
    ensures r.Ok? ==>
      || (q == r && unchecked.View() == checked.View())
      || (q == Fails(Overflow) && exists k :: 0 <= k < n && R.StopsForSpace(a, b, lib, I.Start(a, words).value, k))
  {
    hide E.Agree, I.Run, I.Start, I.Step, OpOf;
    ghost var s := I.Start(a, words).value;
    checked := new Machine(I.Context(true, a, lib), words);
    if I.Run(I.Context(true, a, lib), s, n).Ok? {
      R.UncheckedRefinesChecked(a, b, lib, starts, words, n);
    } else {
      R.SameStart(a, b, starts, words);
    }
    unchecked := new Machine(I.Context(false, b, lib), words);
    r := checked.Interpret(n);
    q := unchecked.Interpret(n);
    if r.Ok? && I.Run(I.Context(false, b, lib), s, n) != I.Run(I.Context(true, a, lib), s, n) {
      ghost var k :| 0 <= k < n && R.StopsForSpace(a, b, lib, s, k);
      R.FailedTurnEnds(I.Context(false, b, lib), s, k, n);
    }
  }

  /** The same of a file as the verifier leaves it, with any depths packed into its entries. */
  method RunPacked(a: Image, b: Image, lib: I.Library, words: seq<int>, n: nat,
        ghost packings: seq<R.Packing>, ghost starts: set<int>)
    returns (checked: Machine, unchecked: Machine, r: Result<bool>, q: Result<bool>)
    requires E.Agree(a, a, starts) && R.Apart(a, starts) && I.Start(a, words).Ok?
    requires forall i :: 0 <= i < |packings| ==>
      packings[i].entry in starts && Enters(E.OpAt(a, packings[i].entry))
    requires b == R.PackAll(a, packings)
    ensures checked.c == I.Context(true, a, lib) && unchecked.c == I.Context(false, b, lib)
    ensures r.Ok? ==> (q == r && unchecked.View() == checked.View()) || q == Fails(Overflow)
  {
    hide E.Agree, R.Apart, R.PackAll, R.StopsForSpace, E.OpAt, I.Start;
    R.PackedAgrees(a, packings, starts);
    checked, unchecked, r, q := RunBoth(a, b, lib, words, n, starts);
  }
}
