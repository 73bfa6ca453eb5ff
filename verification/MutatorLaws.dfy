/** What compiled code may rely on, said of runs: what was stored is what is loaded, and nothing
    else changes. */
module MutatorLaws {
  import opened Words
  import opened Objects
  import opened Collectors
  import opened Mappings
  import opened Mutators
  import A = Allocation

  lemma OneStep(m: Machine, a: Op)
    requires LegalRun(m, [a])
    ensures Legal(m, a) && IdealRun(m, [a]) == IdealStep(m, a)
  {
    hide Legal, IdealStep;
    assert [a][1..] == [];
  }

  lemma TwoSteps(m: Machine, a: Op, b: Op)
    requires LegalRun(m, [a, b])
    ensures Legal(m, a) && Legal(IdealStep(m, a), b)
    ensures IdealRun(m, [a, b]) == IdealStep(IdealStep(m, a), b)
  {
    hide Legal, IdealStep;
    assert [a, b][1..] == [b];
    OneStep(IdealStep(m, a), b);
  }

  /** The word that an operation writes to, if it writes to the heap: the pointer and the index
      among the contents. */
  ghost predicate Writes(m: Machine, op: Op, name: nat, i: nat) {
    match op
    case Store(obj, field, _) => obj in m.roots && m.roots[obj] == Ref(name) && field == i + 2
    case StoreByte(obj, index, _) => obj in m.roots && m.roots[obj] == Ref(name) && index / 8 == i
    case SetLabel(obj, _) => obj in m.roots && m.roots[obj] == Ref(name) && i == 0
    case _ => false
  }

  /** The root that an operation assigns. */
  ghost predicate Assigns(op: Op, root: nat) {
    match op
    case Store(_, _, _) => false
    case StoreByte(_, _, _) => false
    case SetLabel(_, _) => false
    case _ => op.dst == root
  }

  // Nothing else changes, over whole runs

  /** One operation leaves every other root, every other word, and every header. */
  lemma OthersStay(m: Machine, op: Op)
    requires LegalRun(m, [op])
    ensures var n := IdealRun(m, [op]);
      && n.roots.Keys == m.roots.Keys && |n.objects| >= |m.objects|
      && (forall r :: r in m.roots && !Assigns(op, r) ==> n.roots[r] == m.roots[r])
      && (forall k :: 0 <= k < |m.objects| ==>
           n.objects[k].header == m.objects[k].header && |n.objects[k].fields| == |m.objects[k].fields|)
      && forall k, i :: 0 <= k < |m.objects| && 0 <= i < |m.objects[k].fields| && !Writes(m, op, k, i) ==>
           n.objects[k].fields[i] == m.objects[k].fields[i]
  {
    hide FirstField, ObjWords, BoxWord, SetByte, ByteAt, A.FreshObject;
    OneStep(m, op);
  }

  /** No operation of the run writes to word i of the object, or assigns the root. */
  ghost predicate Spares(m: Machine, ops: seq<Op>, name: nat, i: nat, root: nat)
    requires LegalRun(m, ops)
    decreases |ops|
  {
    ops == [] ||
    (!Writes(m, ops[0], name, i) && !Assigns(ops[0], root) && Spares(IdealStep(m, ops[0]), ops[1..], name, i, root))
  }

  /** So a run that does not write to a word leaves it, and a root that is not assigned. */
  lemma {:induction false} SparedStays(m: Machine, ops: seq<Op>, name: nat, i: nat, root: nat)
    requires LegalRun(m, ops) && Spares(m, ops, name, i, root)
    requires name < |m.objects| && i < |m.objects[name].fields| && root in m.roots
    ensures var n := IdealRun(m, ops);
      && root in n.roots && n.roots[root] == m.roots[root]
      && name < |n.objects| && n.objects[name].header == m.objects[name].header
      && i < |n.objects[name].fields| && n.objects[name].fields[i] == m.objects[name].fields[i]
    decreases |ops|
  {
    hide Legal, IdealStep, Writes, Assigns;
    if ops != [] {
      assert [ops[0]][1..] == [];
      OneStep(m, ops[0]);
      OthersStay(m, ops[0]);
      SparedStays(IdealStep(m, ops[0]), ops[1..], name, i, root);
    }
  }

  // What was stored is what is loaded

  lemma {:induction false} RunsJoin(m: Machine, before: seq<Op>, op: Op)
    requires LegalRun(m, before + [op])
    ensures LegalRun(m, before) && Legal(IdealRun(m, before), op)
    ensures IdealRun(m, before + [op]) == IdealStep(IdealRun(m, before), op)
    decreases |before|
  {
    hide Legal, IdealStep;
    if before == [] {
      assert [] + [op] == [op];
      OneStep(m, op);
    } else {
      assert (before + [op])[1..] == before[1..] + [op];
      RunsJoin(IdealStep(m, before[0]), before[1..], op);
    }
  }

  /** After a store to a field, and anything that writes neither to this field nor to the root
      that leads to it, a load of the field gives the value that was stored. */
  lemma StoredIsLoaded(m: Machine, obj: nat, field: nat, src: nat, between: seq<Op>, dst: nat)
    requires LegalRun(m, [Store(obj, field, src)] + (between + [Load(dst, obj, field)]))
    requires var n := IdealRun(m, [Store(obj, field, src)]);
      && LegalRun(n, between) && obj in m.roots && m.roots[obj].Ref? && field >= 2
      && Spares(n, between, m.roots[obj].name, field - 2, obj)
    ensures var n := IdealRun(m, [Store(obj, field, src)] + (between + [Load(dst, obj, field)]));
      src in m.roots && dst in n.roots && n.roots[dst] == m.roots[src]
  {
    hide FirstField, ObjWords, Writes, Assigns;
    var first := Store(obj, field, src);
    var ops := [first] + (between + [Load(dst, obj, field)]);
    assert ops[1..] == between + [Load(dst, obj, field)] && ops[0] == first;
    var n := IdealStep(m, first);
    assert IdealRun(m, [first]) == n by { assert [first][1..] == []; }
    RunsJoin(n, between, Load(dst, obj, field));
    SparedStays(n, between, m.roots[obj].name, field - 2, obj);
  }

  // Immediates

  /** BOX and UNBOX keep 63 bits: of a number of 63 bits all, with its sign in 64. */
  lemma BoxRoundTrip(x: int)
    ensures UnboxWord(BoxWord(x)) % 0x8000_0000_0000_0000 == x % 0x8000_0000_0000_0000
    ensures -0x4000_0000_0000_0000 <= x < 0x4000_0000_0000_0000 ==>
      UnboxWord(BoxWord(x)) == if x >= 0 then x else x + ADDRESS_SPACE
    ensures 0 <= x < 0x4000_0000_0000_0000 ==> BoxWord(x) == 2 * x + 1
  {}

  lemma SignedCharOfLowByte(x: int)
    ensures 0 <= UnboxWord(BoxWord(x)) % 0x100 < 0x100
    ensures (SignedChar(UnboxWord(BoxWord(x)) % 0x100) - x) % 0x100 == 0
  {
    hide UnboxWord, BoxWord;
    LowByteOfBox(x);
    SameSignedChar(UnboxWord(BoxWord(x)) % 0x100, x);
  }

  lemma LowByteOfBox(x: int)
    ensures UnboxWord(BoxWord(x)) % 0x100 == x % 0x100
  {
    hide UnboxWord, BoxWord;
    BoxRoundTrip(x);
    LowByteOf63(UnboxWord(BoxWord(x)), x);
  }

  lemma SameSignedChar(b: nat, x: int)
    requires b == x % 0x100
    ensures (SignedChar(b) - x) % 0x100 == 0
  {
    hide SignedChar;
    var q, r := (SignedChar(b) - b) / 0x100, x / 0x100;
    assert SignedChar(b) - x == 0x100 * (q - r);
  }

  lemma LowByteOf63(w: nat, x: int)
    requires w % 0x8000_0000_0000_0000 == x % 0x8000_0000_0000_0000
    ensures w % 0x100 == x % 0x100
  {
    var p, q := 0x8000_0000_0000_0000, 0x80_0000_0000_0000;
    var i, j := w / p, x / p;
    assert w - x == p * (i - j);
    SameRest(w, x, q * (i - j));
  }

  lemma SameRest(w: int, x: int, t: int)
    requires w - x == 0x100 * t
    ensures w % 0x100 == x % 0x100
  {}

  // Bytes

  /** A byte that was stored comes back as a signed char, boxed. */
  lemma StoredByteIsLoaded(m: Machine, obj: nat, index: nat, src: nat, dst: nat, x: int)
    requires LegalRun(m, [StoreByte(obj, index, src), LoadByte(dst, obj, index)])
    requires src in m.roots && m.roots[src] == Raw(BoxWord(x))
    ensures var n := IdealRun(m, [StoreByte(obj, index, src), LoadByte(dst, obj, index)]);
      && dst in n.roots
      && exists c: int :: -0x80 <= c < 0x80 && (c - x) % 0x100 == 0 && n.roots[dst] == Raw(BoxWord(c))
  {
    hide FirstField, ObjWords, BoxWord, UnboxWord, SetByte, ByteAt, SignedChar;
    TwoSteps(m, StoreByte(obj, index, src), LoadByte(dst, obj, index));
    SignedCharOfLowByte(x);
    var c := SignedChar(UnboxWord(BoxWord(x)) % 0x100);
    assert IdealRun(m, [StoreByte(obj, index, src), LoadByte(dst, obj, index)]).roots[dst] == Raw(BoxWord(c));
  }

  /** Every other byte of every string is loaded as before. */
  lemma OtherBytesStay(m: Machine, obj: nat, index: nat, src: nat, dst: nat, other: nat, k: nat)
    requires LegalRun(m, [StoreByte(obj, index, src), LoadByte(dst, other, k)])
    requires LegalRun(m, [LoadByte(dst, other, k)])
    requires other in m.roots && obj in m.roots && (m.roots[other] != m.roots[obj] || k != index)
    ensures IdealRun(m, [StoreByte(obj, index, src), LoadByte(dst, other, k)]).roots
         == IdealRun(m, [LoadByte(dst, other, k)]).roots
  {
    hide FirstField, ObjWords, BoxWord, UnboxWord, SetByte, ByteAt, SignedChar;
    TwoSteps(m, StoreByte(obj, index, src), LoadByte(dst, other, k));
    OneStep(m, LoadByte(dst, other, k));
    SamePlace(index, k);
  }

  lemma SamePlace(i: nat, j: nat)
    ensures i / 8 == j / 8 && i % 8 == j % 8 ==> i == j
  {}

  // New objects

  /** A new object is a new one: no root led to it, its fields are zero words, and it has the
      tag and length that were asked for. */
  lemma AllocatedIsNew(m: Machine, dst: nat, tag: nat, len: nat)
    requires LegalRun(m, [Alloc(dst, tag, len)])
    ensures var n := IdealRun(m, [Alloc(dst, tag, len)]); var k := |m.objects|;
      && |n.objects| == k + 1 && n.objects[..k] == m.objects && dst in n.roots && n.roots[dst] == Ref(k)
      && Tag(n.objects[k].header) == tag && Len(n.objects[k].header) == len
      && forall i :: 0 <= i < |n.objects[k].fields| ==> n.objects[k].fields[i] == Raw(0)
  {
    hide ObjWords;
    OneStep(m, Alloc(dst, tag, len));
  }

  // Tags

  /** 3, the boxed one, for an S-expression with this tag and length, and 1 for anything else. */
  lemma MatchesTag(m: Machine, dst: nat, obj: nat, tag: nat, len: nat)
    requires LegalRun(m, [MatchTag(dst, obj, tag, len)])
    ensures var n := IdealRun(m, [MatchTag(dst, obj, tag, len)]);
      && n.objects == m.objects && dst in n.roots && obj in m.roots
      && n.roots[dst] ==
           if PointsTo(m, obj) && Pointee(m, obj).header % 8 == 5 && Pointee(m, obj).header / 8 == len
              && Pointee(m, obj).fields != [] && Pointee(m, obj).fields[0] == Raw(tag)
           then Raw(3) else Raw(1)
  {
    OneStep(m, MatchTag(dst, obj, tag, len));
    BoxRoundTrip(0);
    BoxRoundTrip(1);
  }

  /** A tag that was set is the one that matches. */
  lemma SetTagMatches(m: Machine, obj: nat, word: nat, dst: nat, tag: nat, len: nat)
    requires LegalRun(m, [SetLabel(obj, word), MatchTag(dst, obj, tag, len)])
    ensures var n := IdealRun(m, [SetLabel(obj, word), MatchTag(dst, obj, tag, len)]);
      && PointsTo(m, obj) && dst in n.roots
      && n.roots[dst] ==
           if word == tag && Pointee(m, obj).header % 8 == 5 && Pointee(m, obj).header / 8 == len
           then Raw(3) else Raw(1)
  {
    hide FirstField, ObjWords;
    TwoSteps(m, SetLabel(obj, word), MatchTag(dst, obj, tag, len));
    BoxRoundTrip(0);
    BoxRoundTrip(1);
  }

  // Roots

  lemma CopiesAndImmediates(m: Machine, op: Op)
    requires LegalRun(m, [op])
    ensures op.Copy? ==> op.src in m.roots && IdealRun(m, [op]) == m.(roots := m.roots[op.dst := m.roots[op.src]])
    ensures op.Immediate? ==> IdealRun(m, [op]) == m.(roots := m.roots[op.dst := Raw(op.word)])
  {
    OneStep(m, op);
  }

  // The same on the collected heap

  /** In the collected heap, whatever the run between does and however often it collects: the
      value that was stored is the value that is loaded. */
  method StoreThenLoad(c: Collector, obj: nat, field: nat, src: nat, between: seq<Op>, dst: nat) returns (ok: bool)
    requires Running(c)
    requires LegalRun(Abstract(c), [Store(obj, field, src)] + (between + [Load(dst, obj, field)]))
    requires var n := IdealRun(Abstract(c), [Store(obj, field, src)]);
      && LegalRun(n, between) && obj in Abstract(c).roots && Abstract(c).roots[obj].Ref? && field >= 2
      && Spares(n, between, Abstract(c).roots[obj].name, field - 2, obj)
    modifies c, c.heap, c.heap.mem, c.ram
    ensures Running(c)
    ensures ok ==> src < c.ram.Length && dst in Abstract(c).roots
    ensures ok ==> Abstract(c).roots[dst] == old(c.Look(c.ram[src]))
  {
    hide OutOfMemory, Collector.HeapValid, Collector.RootsValid, Legal, IdealStep, IdealRun, LegalRun, Spares, Abstract;
    ghost var m := Abstract(c);
    var ops := [Store(obj, field, src)] + (between + [Load(dst, obj, field)]);
    StoredIsLoaded(m, obj, field, src, between, dst);
    RootLooks(c, src);
    var done := Run(c, ops);
    ok := done == |ops|;
    if ok { assert ops[..done] == ops; }
  }

  lemma RootLooks(c: Collector, src: nat)
    requires Running(c) && src in Abstract(c).roots
    ensures src < c.ram.Length && Abstract(c).roots[src] == c.Look(c.ram[src])
  {}
}
