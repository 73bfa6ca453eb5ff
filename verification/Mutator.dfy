/** Whole runs: a program on the collected heap computes what it would compute on an
    ideal heap that never moves or frees anything. */
module Mutators {
  import opened Words
  import opened Objects
  import opened Collectors
  import opened Mappings
  import opened Chunks
  import A = Allocation
  import U = Mutation

  /** One step of compiled code; dst, src and obj are the indices of root words. */
  datatype Op =
    | Alloc(dst: nat, tag: nat, len: nat)
    | Load(dst: nat, obj: nat, field: nat)
    | Store(obj: nat, field: nat, src: nat)
    | LoadByte(dst: nat, obj: nat, index: nat)
    | StoreByte(obj: nat, index: nat, src: nat)
    | SetLabel(obj: nat, word: nat)
    | MatchTag(dst: nat, obj: nat, tag: nat, len: nat)
    | Copy(dst: nat, src: nat)
    | Immediate(dst: nat, word: nat)

  /** The ideal machine: every object ever made, and what the roots hold. */
  datatype Machine = Machine(objects: seq<Object>, roots: map<nat, Field>)

  ghost predicate PointsTo(m: Machine, root: nat) {
    root in m.roots && m.roots[root].Ref? && m.roots[root].name < |m.objects|
  }

  ghost function Pointee(m: Machine, root: nat): Object
    requires PointsTo(m, root)
  {
    m.objects[m.roots[root].name]
  }

  ghost predicate HasField(m: Machine, root: nat, field: nat) {
    PointsTo(m, root) &&
    var o := Pointee(m, root);
      FirstField(o.header) <= field < ObjWords(o.header) && 2 <= field < |o.fields| + 2
  }

  /** A byte of a string, the zero behind it included. */
  ghost predicate HasByte(m: Machine, root: nat, index: nat) {
    PointsTo(m, root) &&
    var o := Pointee(m, root);
      Tag(o.header) == STRING_TAG && index <= Len(o.header) && index / 8 < |o.fields| && o.fields[index / 8].Raw?
  }

  /** The word before the traced fields: the tag of an S-expression, the code of a closure. */
  ghost predicate HasLabel(m: Machine, root: nat) {
    PointsTo(m, root) &&
    var o := Pointee(m, root);
      (Tag(o.header) == SEXP_TAG || (Tag(o.header) == CLOSURE_TAG && Len(o.header) > 0)) && o.fields != []
  }

  ghost predicate HoldsImmediate(m: Machine, root: nat) {
    root in m.roots && m.roots[root].Raw? && m.roots[root].word % 2 == 1
  }

  ghost predicate Legal(m: Machine, op: Op) {
    match op
    case Alloc(dst, tag, _) => dst in m.roots && IsHeader(tag) && tag < 8
    case Load(dst, obj, field) => dst in m.roots && HasField(m, obj, field)
    case Store(obj, field, src) => src in m.roots && HasField(m, obj, field)
    case LoadByte(dst, obj, index) => dst in m.roots && HasByte(m, obj, index)
    case StoreByte(obj, index, src) => HoldsImmediate(m, src) && HasByte(m, obj, index)
    case SetLabel(obj, _) => HasLabel(m, obj)
    case MatchTag(dst, obj, _, _) => dst in m.roots && (HoldsImmediate(m, obj) || PointsTo(m, obj))
    case Copy(dst, src) => dst in m.roots && src in m.roots
    case Immediate(dst, word) => dst in m.roots && word % 2 == 1
  }

  ghost predicate Matches(o: Object, tag: nat, len: nat) {
    Tag(o.header) == SEXP_TAG && Len(o.header) == len && o.fields != [] && o.fields[0] == Raw(tag)
  }

  ghost function WithFieldOf(m: Machine, root: nat, i: nat, f: Field): Machine
    requires PointsTo(m, root) && i < |Pointee(m, root).fields|
  {
    m.(objects := m.objects[m.roots[root].name := U.WithField(Pointee(m, root), i, f)])
  }

  ghost function IdealStep(m: Machine, op: Op): Machine
    requires Legal(m, op)
  {
    match op
    case Alloc(dst, tag, len) =>
      Machine(m.objects + [A.FreshObject(MakeHeader(tag, len))], m.roots[dst := Ref(|m.objects|)])
    case Load(dst, obj, field) =>
      m.(roots := m.roots[dst := Pointee(m, obj).fields[field - 2]])
    case Store(obj, field, src) =>
      WithFieldOf(m, obj, field - 2, m.roots[src])
    case LoadByte(dst, obj, index) =>
      var byte := ByteAt(Pointee(m, obj).fields[index / 8].word, index % 8);
      m.(roots := m.roots[dst := Raw(BoxWord(SignedChar(byte)))])
    case StoreByte(obj, index, src) =>
      var word := Pointee(m, obj).fields[index / 8].word;
      WithFieldOf(m, obj, index / 8, Raw(SetByte(word, index % 8, UnboxWord(m.roots[src].word) % 0x100)))
    case SetLabel(obj, word) =>
      WithFieldOf(m, obj, 0, Raw(word))
    case MatchTag(dst, obj, tag, len) =>
      var yes := m.roots[obj].Ref? && Matches(Pointee(m, obj), tag, len);
      m.(roots := m.roots[dst := Raw(BoxWord(if yes then 1 else 0))])
    case Copy(dst, src) => m.(roots := m.roots[dst := m.roots[src]])
    case Immediate(dst, word) => m.(roots := m.roots[dst := Raw(word)])
  }

  ghost predicate LegalRun(m: Machine, ops: seq<Op>)
    decreases |ops|
  {
    ops == [] || (Legal(m, ops[0]) && LegalRun(IdealStep(m, ops[0]), ops[1..]))
  }

  ghost function IdealRun(m: Machine, ops: seq<Op>): Machine
    requires LegalRun(m, ops)
    decreases |ops|
  {
    if ops == [] then m else IdealRun(IdealStep(m, ops[0]), ops[1..])
  }

  lemma NoSteps(m: Machine, ops: seq<Op>)
    ensures LegalRun(m, ops[..0]) && IdealRun(m, ops[..0]) == m
  {}

  lemma {:induction false} RunOneMore(m: Machine, ops: seq<Op>, n: nat)
    requires LegalRun(m, ops) && n < |ops|
    ensures LegalRun(m, ops[..n]) && LegalRun(m, ops[..n + 1]) && Legal(IdealRun(m, ops[..n]), ops[n])
    ensures IdealRun(m, ops[..n + 1]) == IdealStep(IdealRun(m, ops[..n]), ops[n])
    decreases n
  {
    hide Legal, IdealStep;
    if n == 0 {
      assert ops[..1][1..] == [];
    } else {
      RunOneMore(IdealStep(m, ops[0]), ops[1..], n - 1);
      assert ops[..n][1..] == ops[1..][..n - 1];
      assert ops[..n + 1][1..] == ops[1..][..n];
    }
  }

  /** The collected heap, seen as an ideal machine. */
  ghost function Abstract(c: Collector): Machine
    requires c.HeapValid()
    reads c, c.heap, c.heap.mem, c.ram
  {
    Machine(c.ideal, map i | 0 <= i < c.ram.Length && c.IsRoot(i) :: c.Look(c.ram[i]))
  }

  /** Sound, and no extra root at exactly `top`. */
  ghost predicate Running(c: Collector)
    reads c, c.heap, c.heap.mem, c.ram
  {
    Sound(c) && c.top !in c.extraRoots
  }

  lemma RootIsGood(c: Collector, i: nat)
    requires Running(c) && i in Abstract(c).roots
    ensures i < c.ram.Length && c.IsRoot(i) && c.heap.View().Good(c.ram[i])
    ensures Abstract(c).roots[i] == c.Look(c.ram[i])
  {}

  method AssignRoot(c: Collector, dst: nat, v: nat)
    requires Running(c) && dst in Abstract(c).roots && c.heap.View().Good(v)
    modifies c.ram
    ensures Running(c) && Abstract(c) == old(Abstract(c).(roots := Abstract(c).roots[dst := c.Look(v)]))
  {
    hide Chunk.Parsed, Chunk.Good, Chunk.WellPointed, Depicts, Collector.Look;
    c.SetRoot(dst, v);
  }

  lemma OddLooksRaw(c: Collector, word: nat)
    requires c.HeapValid() && word % 2 == 1
    ensures c.Look(word) == Raw(word) && c.heap.View().Good(word)
  {
    OddIsNoObject(c.heap.View(), word);
  }

  method AssignImmediate(c: Collector, dst: nat, word: nat)
    requires Running(c) && dst in Abstract(c).roots && word % 2 == 1
    modifies c.ram
    ensures Running(c) && Abstract(c) == old(Abstract(c).(roots := Abstract(c).roots[dst := Raw(word)]))
  {
    hide Chunk.Parsed, Chunk.Good, Chunk.WellPointed, Depicts, Collector.Look;
    OddLooksRaw(c, word);
    AssignRoot(c, dst, word);
  }

  /** What a root of the ideal machine points to, in the collected heap. */
  lemma TargetOfRoot(c: Collector, obj: nat)
    requires Running(c) && PointsTo(Abstract(c), obj)
    ensures obj < c.ram.Length && c.Look(c.ram[obj]) == Abstract(c).roots[obj]
    ensures c.Target(c.ram[obj]) == Pointee(Abstract(c), obj)
  {}

  lemma ImmediateOfRoot(c: Collector, src: nat)
    requires Running(c) && HoldsImmediate(Abstract(c), src)
    ensures src < c.ram.Length && Abstract(c).roots[src] == Raw(c.ram[src]) && c.ram[src] % 2 == 1
  {}

  method AllocRoot(c: Collector, dst: nat, tag: nat, len: nat) returns (ok: bool)
    requires Running(c) && Legal(Abstract(c), Alloc(dst, tag, len))
    modifies c, c.heap, c.heap.mem, c.ram
    ensures Running(c) && (c.heap.mem == old(c.heap.mem) || fresh(c.heap.mem))
    ensures !ok ==> Abstract(c) == old(Abstract(c)) && NoRoom(c, ObjWords(MakeHeader(tag, len)))
    ensures ok ==> Abstract(c) == IdealStep(old(Abstract(c)), Alloc(dst, tag, len))
  {
    hide Chunk.Parsed, Chunk.Good, Chunk.WellPointed, Depicts, Collector.Look, Collector.ReadyToCollect, ObjWords,
        A.FreshObject, NoRoom;
    ghost var m := Abstract(c);
    var obj;
    ok, obj := AllocWithMmap(c, tag, len);
    if !ok { return; }
    assert Abstract(c) == Machine(m.objects + [A.FreshObject(MakeHeader(tag, len))], m.roots);
    AssignRoot(c, dst, obj + HEADER_BYTES);
  }

  method LoadRoot(c: Collector, dst: nat, obj: nat, field: nat)
    requires Running(c) && Legal(Abstract(c), Load(dst, obj, field))
    modifies c.ram
    ensures Running(c) && Abstract(c) == IdealStep(old(Abstract(c)), Load(dst, obj, field))
  {
    hide Chunk.Parsed, Chunk.Good, Chunk.WellPointed, Depicts, Collector.Look, ObjWords, FirstField, Collector.Target;
    TargetOfRoot(c, obj);
    var v := c.LoadWord(c.ram[obj], field);
    TracedMeans(c, c.ram[obj], field, v);
    AssignRoot(c, dst, v);
  }

  lemma TracedMeans(c: Collector, v: nat, i: nat, w: nat)
    requires c.HeapValid() && c.Look(v).Ref? && FirstField(c.Target(v).header) <= i
    ensures c.Means(v, i, w) == c.Look(w)
  {}

  method StoreRoot(c: Collector, obj: nat, field: nat, src: nat)
    requires Running(c) && Legal(Abstract(c), Store(obj, field, src))
    modifies c, c.heap.mem
    ensures Running(c) && Abstract(c) == IdealStep(old(Abstract(c)), Store(obj, field, src))
  {
    hide Chunk.Parsed, Chunk.Good, Chunk.WellPointed, Depicts, Collector.Look, ObjWords, FirstField, Collector.Target;
    TargetOfRoot(c, obj);
    RootIsGood(c, src);
    TracedMeans(c, c.ram[obj], field, c.ram[src]);
    c.StoreWord(c.ram[obj], field, c.ram[src]);
  }

  // Words that are not traced

  /** Where byte `index` of a string is. */
  lemma StringWord(header: nat, index: nat)
    requires Tag(header) == STRING_TAG && index <= Len(header)
    ensures 2 <= 2 + index / 8 < ObjWords(header) == FirstField(header)
    ensures 2 + index / 8 == ObjWords(header) - 1 ==> index % 8 < LastBytes(header)
  {}

  /** A byte of a string, and the word with one byte changed, mean the same in the ideal
      object, which forgets what lies behind the string. */
  lemma ByteMeans(c: Collector, v: nat, index: nat, w: nat, b: Byte)
    requires c.HeapValid() && c.Look(v).Ref? && Tag(c.Target(v).header) == STRING_TAG
    requires index <= Len(c.Target(v).header)
    ensures !c.IsTraced(v, 2 + index / 8) && c.HasWord(v, 2 + index / 8)
    ensures c.Means(v, 2 + index / 8, w).Raw? && c.Means(v, 2 + index / 8, SetByte(w, index % 8, b)).Raw?
    ensures ByteAt(c.Means(v, 2 + index / 8, w).word, index % 8) == ByteAt(w, index % 8)
    ensures c.Means(v, 2 + index / 8, SetByte(w, index % 8, b)).word
         == SetByte(c.Means(v, 2 + index / 8, w).word, index % 8, b)
  {
    hide ObjWords, FirstField, LowBytes, LastBytes, SetByte, Collector.HeapValid, Collector.Look, Collector.Target;
    var header := c.Target(v).header;
    StringWord(header, index);
    if 2 + index / 8 == ObjWords(header) - 1 { LowBytesKeepBytes(header, w, index % 8, b); }
  }

  method LoadByteRoot(c: Collector, dst: nat, obj: nat, index: nat)
    requires Running(c) && Legal(Abstract(c), LoadByte(dst, obj, index))
    modifies c.ram
    ensures Running(c) && Abstract(c) == IdealStep(old(Abstract(c)), LoadByte(dst, obj, index))
  {
    hide ObjWords, FirstField, BoxWord, SetByte, ByteAt, Collector.HeapValid, Collector.RootsValid, Collector.Look,
      Collector.Target, Collector.Means;
    TargetOfRoot(c, obj);
    ByteMeans(c, c.ram[obj], index, 0, 0);
    var w := c.LoadWord(c.ram[obj], 2 + index / 8);
    ByteMeans(c, c.ram[obj], index, w, 0);
    AssignImmediate(c, dst, BoxWord(SignedChar(ByteAt(w, index % 8))));
  }

  method StoreByteRoot(c: Collector, obj: nat, index: nat, src: nat)
    requires Running(c) && Legal(Abstract(c), StoreByte(obj, index, src))
    modifies c, c.heap.mem
    ensures Running(c) && Abstract(c) == IdealStep(old(Abstract(c)), StoreByte(obj, index, src))
  {
    hide Chunk.Parsed, Chunk.Good, Chunk.WellPointed, Depicts, Collector.Look, Collector.Target, Collector.Means;
    hide ObjWords, FirstField, UnboxWord, SetByte, ByteAt;
    TargetOfRoot(c, obj);
    ImmediateOfRoot(c, src);
    var b := UnboxWord(c.ram[src]) % 0x100;
    ByteMeans(c, c.ram[obj], index, 0, 0);
    var w := c.LoadWord(c.ram[obj], 2 + index / 8);
    ByteMeans(c, c.ram[obj], index, w, b);
    c.StoreWord(c.ram[obj], 2 + index / 8, SetByte(w, index % 8, b));
  }

  lemma LabelMeans(c: Collector, v: nat, w: nat)
    requires c.HeapValid() && c.Look(v).Ref?
    requires var header := c.Target(v).header;
      Tag(header) == SEXP_TAG || (Tag(header) == CLOSURE_TAG && Len(header) > 0)
    ensures c.HasWord(v, 2) && !c.IsTraced(v, 2) && c.Means(v, 2, w) == Raw(w)
  {
    hide Collector.HeapValid, Collector.Look, Collector.Target;
  }

  method SetLabelRoot(c: Collector, obj: nat, word: nat)
    requires Running(c) && Legal(Abstract(c), SetLabel(obj, word))
    modifies c, c.heap.mem
    ensures Running(c) && Abstract(c) == IdealStep(old(Abstract(c)), SetLabel(obj, word))
  {
    hide Chunk.Parsed, Chunk.Good, Chunk.WellPointed, Depicts, Collector.Look, Collector.Target, Collector.Means;
    hide ObjWords, FirstField;
    TargetOfRoot(c, obj);
    LabelMeans(c, c.ram[obj], word);
    c.StoreWord(c.ram[obj], 2, word);
  }

  /** What Btag asks of an object. */
  method TagMatches(c: Collector, obj: nat, tag: nat, len: nat) returns (yes: bool)
    requires c.Valid() && c.Look(obj).Ref?
    ensures yes <==> Matches(c.Target(obj), tag, len)
  {
    hide ObjWords, FirstField, Collector.HeapValid, Collector.RootsValid, Collector.Look, Collector.Target,
      Collector.Means;
    yes := false;
    var header := c.LoadHeader(obj);
    if Tag(header) == SEXP_TAG && Len(header) == len {
      LabelMeans(c, obj, 0);
      var w := c.LoadWord(obj, 2);
      LabelMeans(c, obj, w);
      yes := w == tag;
    }
  }

  /** Btag. */
  method MatchTagRoot(c: Collector, dst: nat, obj: nat, tag: nat, len: nat)
    requires Running(c) && Legal(Abstract(c), MatchTag(dst, obj, tag, len))
    modifies c.ram
    ensures Running(c) && Abstract(c) == IdealStep(old(Abstract(c)), MatchTag(dst, obj, tag, len))
  {
    hide Matches, BoxWord, Collector.HeapValid, Collector.RootsValid, Collector.Look, Collector.Target;
    var yes := false;
    if HoldsImmediate(Abstract(c), obj) { ImmediateOfRoot(c, obj); }
    if c.ram[obj] % 2 == 0 {
      TargetOfRoot(c, obj);
      yes := TagMatches(c, c.ram[obj], tag, len);
    } else {
      ImmediateIsNoPointer(c, obj);
    }
    AssignImmediate(c, dst, BoxWord(if yes then 1 else 0));
  }

  lemma ImmediateIsNoPointer(c: Collector, obj: nat)
    requires Running(c) && obj in Abstract(c).roots && obj < c.ram.Length && c.ram[obj] % 2 == 1
    ensures Abstract(c).roots[obj] == Raw(c.ram[obj])
  {
    OddLooksRaw(c, c.ram[obj]);
  }

  // Runs

  ghost predicate OutOfMemory(c: Collector, op: Op)
    requires c.HeapValid()
    reads c, c.heap, c.heap.mem, c.ram
  {
    op.Alloc? && NoRoom(c, ObjWords(MakeHeader(op.tag, op.len)))
  }

  /** One operation.  It fails only when mmap does. */
  method Step(c: Collector, op: Op) returns (ok: bool)
    requires Running(c) && Legal(Abstract(c), op)
    modifies c, c.heap, c.heap.mem, c.ram
    ensures Running(c) && (c.heap.mem == old(c.heap.mem) || fresh(c.heap.mem))
    ensures !ok ==> Abstract(c) == old(Abstract(c)) && OutOfMemory(c, op)
    ensures ok ==> Abstract(c) == IdealStep(old(Abstract(c)), op)
  {
    hide NoRoom, Collector.HeapValid, Collector.RootsValid, Collector.Look, Legal, IdealStep;
    ok := true;
    match op
    case Alloc(dst, tag, len) => ok := AllocRoot(c, dst, tag, len);
    case Load(dst, obj, field) => LoadRoot(c, dst, obj, field);
    case Store(obj, field, src) => StoreRoot(c, obj, field, src);
    case LoadByte(dst, obj, index) => LoadByteRoot(c, dst, obj, index);
    case StoreByte(obj, index, src) => StoreByteRoot(c, obj, index, src);
    case SetLabel(obj, word) => SetLabelRoot(c, obj, word);
    case MatchTag(dst, obj, tag, len) => MatchTagRoot(c, dst, obj, tag, len);
    case Copy(dst, src) => CopyRoot(c, dst, src);
    case Immediate(dst, word) => ImmediateRoot(c, dst, word);
  }

  method CopyRoot(c: Collector, dst: nat, src: nat)
    requires Running(c) && Legal(Abstract(c), Copy(dst, src))
    modifies c.ram
    ensures Running(c) && Abstract(c) == IdealStep(old(Abstract(c)), Copy(dst, src))
  {
    hide Chunk.Parsed, Chunk.Good, Chunk.WellPointed, Depicts, Collector.Look;
    RootIsGood(c, src);
    AssignRoot(c, dst, c.ram[src]);
  }

  method ImmediateRoot(c: Collector, dst: nat, word: nat)
    requires Running(c) && Legal(Abstract(c), Immediate(dst, word))
    modifies c.ram
    ensures Running(c) && Abstract(c) == IdealStep(old(Abstract(c)), Immediate(dst, word))
  {
    hide Chunk.Parsed, Chunk.Good, Chunk.WellPointed, Depicts, Collector.Look, Running;
    AssignImmediate(c, dst, word);
  }

  /** A whole run, with a collection wherever an allocation finds no room; it ends early only
      when mmap has no address space left. */
  method Run(c: Collector, ops: seq<Op>) returns (done: nat)
    requires Running(c) && LegalRun(Abstract(c), ops)
    modifies c, c.heap, c.heap.mem, c.ram
    ensures Running(c) && done <= |ops| && LegalRun(old(Abstract(c)), ops[..done])
    ensures Abstract(c) == IdealRun(old(Abstract(c)), ops[..done])
    ensures done < |ops| ==> OutOfMemory(c, ops[done])
  {
    hide OutOfMemory, Collector.HeapValid, Collector.RootsValid, Collector.Look, Legal, IdealStep, IdealRun, LegalRun;
    ghost var m := Abstract(c);
    NoSteps(m, ops);
    done := 0;
    while done < |ops|
      invariant Running(c) && done <= |ops| && LegalRun(m, ops[..done])
      invariant Abstract(c) == IdealRun(m, ops[..done])
      invariant c.heap.mem == old(c.heap.mem) || fresh(c.heap.mem)
    {
      RunOneMore(m, ops, done);
      var ok := Step(c, ops[done]);
      if !ok { return; }
      done := done + 1;
    }
  }
}
