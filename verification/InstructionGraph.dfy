/** The successor relation of the idiom analyser (Assignment03/src/idiom_analyzer.cpp:95-130)
    over the lengths that byterun's disassembler reports (byterun/byterun.c:85-313). */
module InstructionGraph {
  import opened Bytecode
  import G = Graph

  /** The captures of CLOSURE take a byte and a word each. */
  function CapturesLength(code: seq<Byte>, p: nat, n: nat): Result<nat>
    decreases n
  {
    if n == 0 then Ok(0)
    else if p >= |code| then Stuck
    else if code[p] >= 4 then Fails(Invalid)
    else
      var rest :- CapturesLength(code, p + 5, n - 1);
      Ok(5 + rest)
  }

  /** What disassemble_instruction returns: -1 for the opcodes from 0xF0 on.  For some invalid
      opcodes it looks behind its tables instead of failing. */
  function Disassemble(code: seq<Byte>, p: nat): (r: Result<int>)
    requires p < |code|
    ensures r.Ok? ==> r.value == -1 || r.value >= 1
    ensures r == Ok(-1) <==> code[p] >= 0xF0
  {
    var b := code[p];
    if b >= 0xF0 then Ok(-1)
    else if OpOf(b).Unknown? then
      if b / 0x10 == 0 || b / 0x10 == 6 then Stuck else Fails(Invalid)
    else if OpOf(b).MakeClosure? then
      if p + 9 > |code| then Stuck
      else
        var n := Int32At(code, p + 5);
        var captures :- CapturesLength(code, p + 9, if n < 0 then 0 else n);
        Ok(9 + captures)
    else Ok(1 + 4 * Operands(OpOf(b)))
  }

  predicate IsJump(b: Byte) { b == 0x15 || b == 0x50 || b == 0x51 }

  predicate IsCall(b: Byte) { b == 0x55 || b == 0x56 }

  predicate IsTerminal(b: Byte) { b == 0x15 || b == 0x16 || b == 0x17 || b == 0x59 || b == 0xF0 }

  /** What follows an instruction: the operand of jumps and calls (of CALLC, too, where it is a
      number of arguments), and the instruction behind it. */
  datatype Edges = Edges(target: seq<nat>, next: seq<nat>)

  function Visit(code: seq<Byte>, p: nat): Result<Edges>
    requires p < |code|
  {
    var _ :- Validate(p + 1 < |code|, EndOfCode);
    var length :- Disassemble(code, p);
    var next := U32(p + length);
    var _ :- Validate(next < |code|, EndOfCode);
    var target :- TargetOf(code, p);
    Ok(Edges(target, if IsTerminal(code[p]) then [] else [next]))
  }

  function TargetOf(code: seq<Byte>, p: nat): Result<seq<nat>>
    requires p < |code|
  {
    if IsJump(code[p]) || IsCall(code[p]) then
      var _ :- Validate(p + 5 < |code|, EndOfCode);
      var target := U32(Int32At(code, p + 1));
      var _ :- Validate(target < |code|, Invalid);
      Ok([target])
    else Ok([])
  }

  ghost function Successors(code: seq<Byte>, p: nat): set<nat>
    requires p < |code|
  {
    var e := Visit(code, p);
    if e.Ok? then (set q | q in e.value.target) + (set q | q in e.value.next) else {}
  }

  ghost function GraphOf(code: seq<Byte>): (g: G.Graph)
    ensures |g| == |code| && G.WellFormed(g)
  {
    seq(|code|, p requires 0 <= p < |code| => Successors(code, p))
  }

  /** The least set that holds the entry points and is closed under the successors. */
  ghost function ReachableFrom(code: seq<Byte>, entries: set<nat>): set<nat> {
    G.Reach(GraphOf(code), entries)
  }

  /** q is marked as a jump target when p is visited. */
  ghost predicate Marks(code: seq<Byte>, p: nat, q: nat)
    requires p < |code|
  {
    var e := Visit(code, p);
    e.Ok? && (q in e.value.target || (IsCall(code[p]) && q in e.value.next))
  }

  ghost predicate IsJumpTarget(code: seq<Byte>, entries: set<nat>, q: nat) {
    q in entries || exists p :: p in ReachableFrom(code, entries) && p < |code| && Marks(code, p, q)
  }
}
