/** The unchecked interpreter refines the checked one, over whole runs. */
module Refinement {
  import opened Bytecode
  import opened Interpreter
  import opened Erasure
  import opened Effects

  ghost predicate Reaches(starts: set<int>, p: nat) {
    p in starts || p == NO_ADDRESS
  }

  /** Control stays on instructions: now, after every return, and inside every closure. */
  ghost predicate OnInstructions(starts: set<int>, s: State) {
    && Reaches(starts, s.ip)
    && (forall i :: 0 <= i < |s.frames| ==> Reaches(starts, s.frames[i].ret))
    && HeapOk(s, starts)
  }

  /** The unchecked interpreter does the same, or stops at a function's own check for space. */
  ghost predicate Refines(b: Image, lib: Library, s: State, checked: Result<Next>) {
    var r := Step(Context(false, b, lib), s);
    r == checked || (r == Fails(Overflow) && s.ip < |b.code| && Enters(OpAt(b, s.ip)))
  }

  lemma InstructionAt(a: Image, b: Image, starts: set<int>, p: int)
    requires Agree(a, b, starts) && p in starts
    ensures 0 <= p && AgreeAt(a, b, p) && ClosedAt(a, starts, p) && a.code[p] == b.code[p]
    ensures |a.code| == |b.code| < NO_ADDRESS && a.strings == b.strings && a.globals == b.globals
  {
    hide ClosedAt;
    assert InstructionOk(a, b, starts, p);
    SameOp(a, b, p);
  }

  lemma SameOp(a: Image, b: Image, p: nat)
    requires AgreeAt(a, b, p)
    ensures a.code[p] == b.code[p]
  {
    var end := if Enters(OpAt(a, p)) then p + 5 else p + Length(a, p);
    assert SameBytes(a, b, p, end) && p < end;
  }

  /** A step is the execution of the instruction under the instruction pointer. */
  lemma StepExecutes(c: Context, s: State)
    requires s.ip < |c.img.code| < NO_ADDRESS && !(c.checked && s.ip + 1 == |c.img.code|)
    requires !OpAt(c.img, s.ip).Ret? && !OpAt(c.img, s.ip).Stop?
    ensures var r := Exec(c, s.(ip := s.ip + 1), OpAt(c.img, s.ip));
      if r.Ok? then Step(c, s) == Ok(Continue(r.value)) else Step(c, s) == r.PropagateFailure()
  {
    hide Exec, OpOf;
  }

  lemma StepBegins(c: Context, s: State)
    requires Step(c, s).Ok? && |c.img.code| < NO_ADDRESS && s.ip <= NO_ADDRESS
    ensures s.ip < |c.img.code| && !(c.checked && s.ip + 1 == |c.img.code|)
  {
    hide Exec, OpOf, ExecRet;
  }

  lemma OnlyOthersGoOn(c: Context, s: State, op: Op)
    requires !op.Ret? && !op.Stop? && Exec(c, s, op).Ok?
    ensures !op.Fail? && !op.Unknown?
  {
    if op.Fail? || op.Unknown? { OnlyFails(c, s, op); }
  }

  lemma OnlyFails(c: Context, s: State, op: Op)
    requires op.Fail? || op.Unknown?
    ensures Exec(c, s, op).IsFailure()
  {}

  lemma HeapStaysOk(starts: set<int>, s: State, t: State)
    requires HeapOk(s, starts) && NoNewClosures(s, t)
    ensures HeapOk(t, starts)
  {}

  lemma PlainStepRefines(a: Image, b: Image, lib: Library, starts: set<int>, s: State)
    requires Agree(a, b, starts) && s.ip in starts && Plain(OpAt(a, s.ip))
    requires Step(Context(true, a, lib), s).Ok?
    ensures Step(Context(false, b, lib), s) == Step(Context(true, a, lib), s)
  {
    hide Agree, Exec, OpOf, Step;
    InstructionAt(a, b, starts, s.ip);
    StepBegins(Context(true, a, lib), s);
    StepExecutes(Context(true, a, lib), s);
    StepExecutes(Context(false, b, lib), s);
    PlainSame(a, b, lib, s.(ip := s.ip + 1), OpAt(a, s.ip));
  }

  lemma PlainStepStays(a: Image, b: Image, lib: Library, starts: set<int>, s: State)
    requires Agree(a, b, starts) && OnInstructions(starts, s) && s.ip in starts && Plain(OpAt(a, s.ip))
    requires Step(Context(true, a, lib), s).Ok?
    ensures Step(Context(true, a, lib), s).value.Continue?
    ensures OnInstructions(starts, Step(Context(true, a, lib), s).value.state)
  {
    hide Agree, Exec, OpOf, U32, I32, Step, Int32At;
    var c := Context(true, a, lib);
    InstructionAt(a, b, starts, s.ip);
    StepBegins(c, s);
    StepExecutes(c, s);
    var t := s.(ip := s.ip + 1);
    var op := OpAt(a, s.ip);
    PlainMoves(c, t, op);
    OnlyOthersGoOn(c, t, op);
    if op.Jmp? || op.Cjmp? {
      InstructionAt(a, b, starts, Int32At(a.code, t.ip));
      SmallU32(Int32At(a.code, t.ip));
    }
    HeapStaysOk(starts, t, Exec(c, t, op).value);
  }

  lemma BeginStep(a: Image, b: Image, lib: Library, starts: set<int>, s: State)
    requires Agree(a, b, starts) && OnInstructions(starts, s) && s.ip in starts && Enters(OpAt(a, s.ip))
    requires Step(Context(true, a, lib), s).Ok?
    ensures Refines(b, lib, s, Step(Context(true, a, lib), s))
    ensures Step(Context(true, a, lib), s).value.Continue?
    ensures OnInstructions(starts, Step(Context(true, a, lib), s).value.state)
  {
    hide Agree, OpOf, U32, I32, Step, Int32At, ExecBegin;
    var c := Context(true, a, lib);
    InstructionAt(a, b, starts, s.ip);
    StepBegins(c, s);
    StepExecutes(c, s);
    StepExecutes(Context(false, b, lib), s);
    var t := s.(ip := s.ip + 1);
    var cbegin := OpAt(a, s.ip).Cbegin?;
    BeginSame(a, b, lib, t, cbegin);
    BeginMoves(c, t, cbegin);
    HeapStaysOk(starts, s, ExecBegin(c, t, cbegin).value);
  }

  lemma ClosureStep(a: Image, b: Image, lib: Library, starts: set<int>, s: State)
    requires Agree(a, b, starts) && OnInstructions(starts, s) && s.ip in starts && OpAt(a, s.ip).MakeClosure?
    requires Step(Context(true, a, lib), s).Ok?
    ensures Refines(b, lib, s, Step(Context(true, a, lib), s))
    ensures Step(Context(true, a, lib), s).value.Continue?
    ensures OnInstructions(starts, Step(Context(true, a, lib), s).value.state)
  {
    hide Agree, OpOf, U32, I32, Step, Int32At, ExecClosure;
    var c := Context(true, a, lib);
    InstructionAt(a, b, starts, s.ip);
    StepBegins(c, s);
    StepExecutes(c, s);
    StepExecutes(Context(false, b, lib), s);
    var t := s.(ip := s.ip + 1);
    ClosureSame(a, b, lib, t);
    ClosureMoves(c, t);
    var u := ExecClosure(c, t).value;
    forall i | 0 <= i < |u.heap| && u.heap[i].Closure? ensures u.heap[i].code in starts {
      assert i < |s.heap| ==> u.heap[i] == s.heap[i];
    }
  }

  lemma CallStep(a: Image, b: Image, lib: Library, starts: set<int>, s: State)
    requires Agree(a, b, starts) && OnInstructions(starts, s) && s.ip in starts
    requires OpAt(a, s.ip).Call? || OpAt(a, s.ip).Callc?
    requires Step(Context(true, a, lib), s).Ok?
    ensures Refines(b, lib, s, Step(Context(true, a, lib), s))
    ensures Step(Context(true, a, lib), s).value.Continue?
    ensures OnInstructions(starts, Step(Context(true, a, lib), s).value.state)
  {
    hide Agree, OpOf, I32, U32, Step, Int32At, ExecCall, ExecCallc;
    var c := Context(true, a, lib);
    InstructionAt(a, b, starts, s.ip);
    StepBegins(c, s);
    StepExecutes(c, s);
    StepExecutes(Context(false, b, lib), s);
    var t := s.(ip := s.ip + 1);
    if OpAt(a, s.ip).Call? {
      var target := Int32At(a.code, t.ip);
      InstructionAt(a, b, starts, target);
      SmallU32(target);
      CallSame(a, b, lib, t);
      CallMoves(c, t);
      HeapStaysOk(starts, s, ExecCall(c, t).value);
    } else {
      forall i | 0 <= i < |s.heap| && s.heap[i].Closure?
        ensures 0 <= s.heap[i].code < |a.code| && a.code[s.heap[i].code] == b.code[s.heap[i].code]
      {
        InstructionAt(a, b, starts, s.heap[i].code);
      }
      CallcSame(a, b, lib, t);
      CallcMoves(c, t);
      SmallU32(s.heap[s.buf[s.sp - U32(First(c, t.ip)) - 1].id].code);
      HeapStaysOk(starts, s, ExecCallc(c, t).value);
    }
  }

  lemma RetStep(a: Image, b: Image, lib: Library, starts: set<int>, s: State)
    requires Agree(a, b, starts) && OnInstructions(starts, s) && s.ip in starts && OpAt(a, s.ip).Ret?
    requires Step(Context(true, a, lib), s).Ok?
    ensures Refines(b, lib, s, Step(Context(true, a, lib), s))
    ensures var r := Step(Context(true, a, lib), s).value; r.Continue? ==> OnInstructions(starts, r.state)
  {
    hide Agree, OpOf, I32, Exec;
    InstructionAt(a, b, starts, s.ip);
    SmallU32(s.ip + 1);
  }

  /** A return to a frame that has not called anything leads nowhere. */
  lemma LostControl(a: Image, b: Image, lib: Library, starts: set<int>, s: State)
    requires Agree(a, b, starts) && s.ip == NO_ADDRESS
    ensures !Step(Context(true, a, lib), s).Ok?
  {
    hide InstructionOk, Exec, ExecRet, OpOf;
  }

  /** One step of a checked run. */
  lemma StepRefines(a: Image, b: Image, lib: Library, starts: set<int>, s: State)
    requires Agree(a, b, starts) && OnInstructions(starts, s) && Step(Context(true, a, lib), s).Ok?
    ensures Refines(b, lib, s, Step(Context(true, a, lib), s))
    ensures var r := Step(Context(true, a, lib), s).value; r.Continue? ==> OnInstructions(starts, r.state)
  {
    hide Step, OpOf, Agree;
    assert s.ip in starts by {
      if s.ip !in starts { LostControl(a, b, lib, starts, s); }
    }
    InstructionAt(a, b, starts, s.ip);
    var op := OpAt(a, s.ip);
    if Enters(op) { BeginStep(a, b, lib, starts, s); }
    else if op.MakeClosure? { ClosureStep(a, b, lib, starts, s); }
    else if op.Call? || op.Callc? { CallStep(a, b, lib, starts, s); }
    else if op.Ret? { RetStep(a, b, lib, starts, s); }
    else if op.Stop? { StopSame(a, b, lib, s); }
    else {
      PlainStepRefines(a, b, lib, starts, s);
      PlainStepStays(a, b, lib, starts, s);
    }
  }

  lemma StopSame(a: Image, b: Image, lib: Library, s: State)
    requires s.ip < |a.code| == |b.code| < NO_ADDRESS && a.code[s.ip] == b.code[s.ip] && OpAt(a, s.ip).Stop?
    requires Step(Context(true, a, lib), s).Ok?
    ensures Step(Context(false, b, lib), s) == Step(Context(true, a, lib), s)
    ensures Step(Context(true, a, lib), s).value.Halt?
  {
    hide OpOf, Exec, ExecRet;
  }

  // Whole runs

  /** After k turns both interpreters are in one state, where the unchecked one reports that a
      function's stack will not fit. */
  ghost predicate StopsForSpace(a: Image, b: Image, lib: Library, s: State, k: nat) {
    var r := Run(Context(false, b, lib), s, k);
    && r == Run(Context(true, a, lib), s, k) && r.Ok? && r.value.Continue?
    && var t := r.value.state;
       t.ip < |b.code| && Enters(OpAt(b, t.ip)) && Step(Context(false, b, lib), t) == Fails(Overflow)
  }

  lemma {:induction false} RunRefines(a: Image, b: Image, lib: Library, starts: set<int>, s: State, n: nat)
    requires Agree(a, b, starts) && OnInstructions(starts, s) && Run(Context(true, a, lib), s, n).Ok?
    ensures Run(Context(false, b, lib), s, n) == Run(Context(true, a, lib), s, n)
      || exists k :: 0 <= k < n && StopsForSpace(a, b, lib, s, k)
    decreases n
  {
    hide Agree, OnInstructions, Step, OpOf;
    if n > 0 {
      StepRefines(a, b, lib, starts, s);
      var next := Step(Context(true, a, lib), s).value;
      if Step(Context(false, b, lib), s) != Ok(next) {
        assert StopsForSpace(a, b, lib, s, 0);
      } else if next.Continue? {
        RunRefines(a, b, lib, starts, next.state, n - 1);
        if Run(Context(false, b, lib), next.state, n - 1) != Run(Context(true, a, lib), next.state, n - 1) {
          var k :| 0 <= k < n - 1 && StopsForSpace(a, b, lib, next.state, k);
          assert StopsForSpace(a, b, lib, s, k + 1);
        }
      }
    }
  }

  /** A failing turn is the end of a run. */
  lemma {:induction false} FailedTurnEnds(c: Context, s: State, k: nat, n: nat)
    requires k < n && Run(c, s, k).Ok? && Run(c, s, k).value.Continue?
    requires Step(c, Run(c, s, k).value.state) == Fails(Overflow)
    ensures Run(c, s, n) == Fails(Overflow)
    decreases k
  {
    hide Step;
    if k > 0 { FailedTurnEnds(c, Step(c, s).value.state, k - 1, n - 1); }
  }

  lemma SameStart(a: Image, b: Image, starts: set<int>, input: seq<int>)
    requires Agree(a, b, starts)
    ensures Start(b, input) == Start(a, input)
  {
    hide InstructionOk;
  }

  /** Every checked run that does not fail is repeated by the unchecked interpreter state for
      state, to the end or to its own check for space. */
  lemma UncheckedRefinesChecked(
      a: Image, b: Image, lib: Library, starts: set<int>, input: seq<int>, n: nat)
    requires Agree(a, b, starts) && Start(a, input).Ok? && Run(Context(true, a, lib), Start(a, input).value, n).Ok?
    ensures Start(b, input) == Start(a, input)
    ensures var s := Start(a, input).value;
      || Run(Context(false, b, lib), s, n) == Run(Context(true, a, lib), s, n)
      || exists k :: 0 <= k < n && StopsForSpace(a, b, lib, s, k)
  {
    hide InstructionOk, Run;
    RunRefines(a, b, lib, starts, Start(a, input).value, n);
  }

  // What the verifier writes

  function Bytes32(x: int): (bytes: seq<Byte>)
    ensures |bytes| == 4
  {
    var u := U32(x);
    [u % 0x100, u / 0x100 % 0x100, u / 0x100 / 0x100 % 0x100, u / 0x100 / 0x100 / 0x100]
  }

  function SetInt32(code: seq<Byte>, p: nat, x: int): (r: seq<Byte>)
    requires p + 4 <= |code|
    ensures |r| == |code|
  {
    code[..p] + Bytes32(x) + code[p + 4..]
  }

  /** The stack depth found for the function at p goes above the number of its locals. */
  function Pack(img: Image, p: nat, depth: nat): Image
    requires p + 9 <= |img.code|
  {
    img.(code := SetInt32(img.code, p + 5, depth * 0x1_0000 + LowHalf(Int32At(img.code, p + 5))))
  }

  lemma BytesOfWord(u: nat)
    requires u < 0x1_0000_0000
    ensures u % 0x100 + 0x100 * (u / 0x100 % 0x100) + 0x1_0000 * (u / 0x100 / 0x100 % 0x100)
        + 0x100_0000 * (u / 0x100 / 0x100 / 0x100) == u
  {
    var v := u / 0x100;
    var w := v / 0x100;
    assert u == u % 0x100 + 0x100 * v;
    assert v == v % 0x100 + 0x100 * w;
    assert w == w % 0x100 + 0x100 * (w / 0x100);
  }

  lemma SetReads(code: seq<Byte>, p: nat, x: int)
    requires p + 4 <= |code|
    ensures Int32At(SetInt32(code, p, x), p) == I32(x)
  {
    hide I32, U32, Bytes32;
    var r := SetInt32(code, p, x);
    var bytes := Bytes32(x);
    assert r[p] == bytes[0] && r[p + 1] == bytes[1] && r[p + 2] == bytes[2] && r[p + 3] == bytes[3];
    BytesRead(x);
  }

  lemma BytesRead(x: int)
    ensures Int32At(Bytes32(x), 0) == I32(x)
  {
    hide I32;
    BytesOfWord(U32(x));
    SameI32(x);
  }

  lemma SameI32(x: int)
    ensures I32(U32(x)) == I32(x)
  {}

  lemma LowHalfStays(depth: nat, low: nat)
    requires low < 0x1_0000
    ensures LowHalf(I32(depth * 0x1_0000 + low)) == low
  {}

  /** Instructions do not overlap. */
  ghost predicate Apart(img: Image, starts: set<int>) {
    forall p, q :: p in starts && q in starts && p < q ==> 0 <= p && Whole(img, p) && p + Length(img, p) <= q
  }

  /** Where the bytes of the instruction stay, images go on agreeing. */
  lemma AgreesAway(a: Image, b: Image, c: Image, q: nat)
    requires AgreeAt(a, b, q) && |c.code| == |b.code|
    requires forall i :: q <= i < q + Length(a, q) ==> c.code[i] == b.code[i]
    ensures AgreeAt(a, c, q)
  {
    hide LowHalf, OpOf, I32, U32;
    if Enters(OpAt(a, q)) { assert Int32At(c.code, q + 5) == Int32At(b.code, q + 5); }
  }

  lemma PackThere(a: Image, b: Image, starts: set<int>, p: nat, depth: nat, q: nat)
    requires Agree(a, b, starts) && Apart(a, starts) && p in starts && q in starts && Enters(OpAt(a, p)) && q != p
    requires AgreeAt(a, b, q) && Whole(a, p) && |a.code| == |b.code|
    ensures AgreeAt(a, Pack(b, p, depth), q)
  {
    hide Agree, LowHalf, OpOf, I32, Int32At, Bytes32, Length;
    var c := Pack(b, p, depth);
    EntryLength(a, p);
    assert q < p ==> q + Length(a, q) <= p;
    assert p < q ==> p + Length(a, p) <= q;
    forall i | q <= i < q + Length(a, q) ensures c.code[i] == b.code[i] {
      assert i < p || p + 9 <= i;
    }
    AgreesAway(a, b, c, q);
  }

  lemma EntryLength(img: Image, p: nat)
    requires Whole(img, p) && Enters(OpAt(img, p))
    ensures p + 9 <= |img.code| && Length(img, p) == 9
  {
    hide OpOf;
  }

  lemma PackHere(a: Image, b: Image, p: nat, depth: nat)
    requires AgreeAt(a, b, p) && Enters(OpAt(a, p)) && |a.code| == |b.code|
    ensures AgreeAt(a, Pack(b, p, depth), p)
  {
    hide LowHalf, OpOf, I32, Int32At, Bytes32;
    var c := Pack(b, p, depth);
    var low := LowHalf(Int32At(b.code, p + 5));
    SetReads(b.code, p + 5, depth * 0x1_0000 + low);
    LowHalfStays(depth, low);
    assert forall i :: p <= i < p + 5 ==> c.code[i] == b.code[i];
  }

  /** However often and with whatever depths the verifier packs, the images still agree. */
  lemma PackingAgrees(a: Image, b: Image, starts: set<int>, p: nat, depth: nat)
    requires Agree(a, b, starts) && Apart(a, starts) && p in starts && Enters(OpAt(a, p))
    requires p + 9 <= |b.code|
    ensures Agree(a, Pack(b, p, depth), starts)
  {
    hide Int32At, LowHalf, OpOf, Length, ClosedAt, AgreeAt;
    InstructionAt(a, b, starts, p);
    forall q | q in starts ensures InstructionOk(a, Pack(b, p, depth), starts, q) {
      InstructionAt(a, b, starts, q);
      if q == p { PackHere(a, b, p, depth); } else { PackThere(a, b, starts, p, depth, q); }
    }
  }

  lemma PackedHalves(depth: nat, low: nat)
    requires depth < 0x1_0000 && low < 0x1_0000
    ensures HighHalf(I32(depth * 0x1_0000 + low)) == depth && LowHalf(I32(depth * 0x1_0000 + low)) == low
  {}

  /** The packed depth is what the unchecked entry looks for room for: it reports an overflow
      exactly when the stack has no room for so many values, or the frames for one more. */
  lemma PackedDepthIsChecked(b: Image, lib: Library, p: nat, depth: nat, s: State)
    requires p + 9 <= |b.code| < NO_ADDRESS && depth < 0x1_0000 && s.ip == p + 1
    ensures forall cbegin :: ExecBegin(Context(false, Pack(b, p, depth), lib), s, cbegin) == Fails(Overflow) <==>
      s.sp + depth > MAX_STACK_SIZE || |s.frames| + 1 > MAX_FRAMES_SIZE
  {
    hide I32, LowHalf, HighHalf, U32, Int32At, Bytes32, FetchIntIf;
    var c := Context(false, Pack(b, p, depth), lib);
    var low := LowHalf(Int32At(b.code, p + 5));
    SetReads(b.code, p + 5, depth * 0x1_0000 + low);
    LowIsSmall(Int32At(b.code, p + 5));
    PackedHalves(depth, low);
    PlainFetch(c, s);
    PlainFetch(c, s.(ip := p + 5));
  }

  lemma LowIsSmall(x: int)
    ensures LowHalf(x) < 0x1_0000
  {}

  lemma PlainFetch(c: Context, s: State)
    requires !c.checked && s.ip + 4 <= |c.img.code| < NO_ADDRESS
    ensures FetchInt(c, s) == Ok((s.(ip := s.ip + 4), Int32At(c.img.code, s.ip)))
  {
    hide Int32At;
  }

  datatype Packing = Packing(entry: nat, depth: nat)

  /** The verifier's writes, one after the other. */
  ghost function PackAll(img: Image, packings: seq<Packing>): Image
    decreases |packings|
  {
    if packings == [] then img
    else
      var last := packings[|packings| - 1];
      var before := PackAll(img, packings[..|packings| - 1]);
      if last.entry + 9 <= |before.code| then Pack(before, last.entry, last.depth) else before
  }

  lemma {:induction false} PackedAgrees(a: Image, packings: seq<Packing>, starts: set<int>)
    requires Agree(a, a, starts) && Apart(a, starts)
    requires forall i :: 0 <= i < |packings| ==> packings[i].entry in starts && Enters(OpAt(a, packings[i].entry))
    ensures Agree(a, PackAll(a, packings), starts)
    decreases |packings|
  {
    hide Agree, Apart, Pack, OpOf;
    if packings != [] {
      var last := packings[|packings| - 1];
      assert last in packings;
      PackedAgrees(a, packings[..|packings| - 1], starts);
      var before := PackAll(a, packings[..|packings| - 1]);
      if last.entry + 9 <= |before.code| { PackingAgrees(a, before, starts, last.entry, last.depth); }
    }
  }

  /** A file whose locals fit 16 bits, packed by the verifier with whatever depths it finds, runs
      unchecked as it runs checked. */
  lemma PackedFileRefines(
      a: Image, packings: seq<Packing>, lib: Library, starts: set<int>, input: seq<int>, n: nat)
    requires Agree(a, a, starts) && Apart(a, starts)
    requires forall i :: 0 <= i < |packings| ==> packings[i].entry in starts && Enters(OpAt(a, packings[i].entry))
    requires Start(a, input).Ok? && Run(Context(true, a, lib), Start(a, input).value, n).Ok?
    ensures var b := PackAll(a, packings);
      var s := Start(a, input).value;
      && Start(b, input) == Start(a, input)
      && (|| Run(Context(false, b, lib), s, n) == Run(Context(true, a, lib), s, n)
          || exists k :: 0 <= k < n && StopsForSpace(a, b, lib, s, k))
  {
    hide Agree, Apart, Run, PackAll, StopsForSpace;
    PackedAgrees(a, packings, starts);
    UncheckedRefinesChecked(a, PackAll(a, packings), lib, starts, input, n);
  }
}
