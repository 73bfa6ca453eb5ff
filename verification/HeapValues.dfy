/** Lcompare and Lhash over the heap (runtime/runtime.c:558-684): with the identity shortcut,
    they see no more of two values than their trees. */
module HeapValues {
  import opened Trees
  import W = Words

  /** A word of a value: an immediate, or an address, which is in the heap or not. */
  datatype Word = Imm(n: int) | Ptr(address: nat)

  datatype Cell =
    | TextCell(bytes: seq<Byte>)
    | ArrayCell(fields: seq<Word>)
    | SexpCell(tag: nat, fields: seq<Word>)
    | ClosureCell(code: nat, fields: seq<Word>)

  type Heap = map<nat, Cell>

  function Fields(c: Cell): seq<Word> {
    if c.TextCell? then [] else c.fields
  }

  /** Every object ranks above the ones it points to. */
  ghost predicate Acyclic(h: Heap, rank: map<nat, nat>) {
    h.Keys <= rank.Keys && forall a :: a in h ==> Above(h, rank, a)
  }

  ghost predicate Above(h: Heap, rank: map<nat, nat>, a: nat)
    requires a in h && h.Keys <= rank.Keys
  {
    forall k :: 0 <= k < |Fields(h[a])| ==> RankOf(h, rank, Fields(h[a])[k]) < 1 + rank[a]
  }

  ghost function RankOf(h: Heap, rank: map<nat, nat>, w: Word): nat
    requires h.Keys <= rank.Keys
  {
    if w.Ptr? && w.address in h then 1 + rank[w.address] else 0
  }

  /** The tree that a word unfolds to. */
  ghost function Unfold(h: Heap, rank: map<nat, nat>, w: Word): Tree
    requires Acyclic(h, rank)
    decreases RankOf(h, rank, w), 1
  {
    match w
    case Imm(n) => Int(n)
    case Ptr(a) =>
      if a !in h then Raw(a)
      else match h[a]
        case TextCell(bytes) => Text(bytes)
        case ArrayCell(_) => Array(UnfoldFields(h, rank, a))
        case SexpCell(tag, _) => Sexp(tag, UnfoldFields(h, rank, a))
        case ClosureCell(code, _) => Closure(code, UnfoldFields(h, rank, a))
  }

  ghost function UnfoldFields(h: Heap, rank: map<nat, nat>, a: nat): (items: seq<Tree>)
    requires Acyclic(h, rank) && a in h
    ensures |items| == |Fields(h[a])|
    decreases 1 + rank[a], 0
  {
    assert Above(h, rank, a);
    seq(|Fields(h[a])|, k requires 0 <= k < |Fields(h[a])| => Unfold(h, rank, Fields(h[a])[k]))
  }

  lemma {:induction false} StrCmpSelf(s: seq<Byte>)
    ensures StrCmp(s, s) == 0
    decreases |s|
  {
    if s != [] { StrCmpSelf(s[1..]); }
  }

  /** Why the identity shortcut changes nothing. */
  lemma {:induction false} CompareSelf(t: Tree)
    ensures Compare(t, t) == 0
    decreases t, |Items(t)| + 1
  {
    if t.Text? { StrCmpSelf(W.CString(t.bytes, 0)); }
    if IsObject(t) { CompareItemsSelf(t, 0); }
  }

  lemma {:induction false} CompareItemsSelf(t: Tree, i: nat)
    requires i <= |Items(t)|
    ensures CompareItems(t, t, i) == 0
    decreases t, |Items(t)| - i
  {
    hide Compare;
    if i < |Items(t)| {
      CompareSelf(Items(t)[i]);
      CompareItemsSelf(t, i + 1);
    }
  }

  function CellTag(c: Cell): int {
    match c
    case TextCell(_) => W.STRING_TAG
    case ArrayCell(_) => W.ARRAY_TAG
    case SexpCell(_, _) => W.SEXP_TAG
    case ClosureCell(_, _) => W.CLOSURE_TAG
  }

  function CellLabel(c: Cell): nat {
    if c.SexpCell? then c.tag else if c.ClosureCell? then c.code else 0
  }

  lemma UnfoldsTo(h: Heap, rank: map<nat, nat>, a: nat)
    requires Acyclic(h, rank) && a in h
    ensures var t := Unfold(h, rank, Ptr(a));
      && IsObject(t) && Tag(t) == CellTag(h[a]) && Label(t) == CellLabel(h[a])
      && (t.Text? <==> h[a].TextCell?) && (t.Array? <==> h[a].ArrayCell?)
      && (t.Text? ==> t.bytes == h[a].bytes)
      && |Items(t)| == |Fields(h[a])| && (!t.Text? ==> Items(t) == t.items)
      && forall k :: 0 <= k < |Items(t)| ==>
           Items(t)[k] == Unfold(h, rank, Fields(h[a])[k]) && RankOf(h, rank, Fields(h[a])[k]) < RankOf(h, rank, Ptr(a))
  {
    assert Above(h, rank, a);
  }

  method Lcompare(h: Heap, ghost rank: map<nat, nat>, p: Word, q: Word) returns (c: int)
    requires Acyclic(h, rank)
    ensures c == Compare(Unfold(h, rank, p), Unfold(h, rank, q))
    decreases RankOf(h, rank, p), 1
  {
    if p == q {
      CompareSelf(Unfold(h, rank, p));
      return 0;
    }
    if p.Imm? { return if q.Imm? then Box(p.n - q.n) else -1; }
    if q.Imm? { return 1; }
    if p.address in h && q.address in h {
      c := CompareObjects(h, rank, p.address, q.address);
    } else if p.address in h {
      c := -1;
    } else if q.address in h {
      c := 1;
    } else {
      c := Box(p.address - q.address);
    }
  }

  method CompareObjects(h: Heap, ghost rank: map<nat, nat>, a: nat, b: nat) returns (c: int)
    requires Acyclic(h, rank) && a in h && b in h
    ensures c == Compare(Unfold(h, rank, Ptr(a)), Unfold(h, rank, Ptr(b)))
    decreases 1 + rank[a], 0
  {
    hide Unfold, Box, Acyclic;
    UnfoldsTo(h, rank, a);
    UnfoldsTo(h, rank, b);
    ghost var s, t := Unfold(h, rank, Ptr(a)), Unfold(h, rank, Ptr(b));
    var x, y := h[a], h[b];
    if CellTag(x) != CellTag(y) { return Box(CellTag(x) - CellTag(y)); }
    if x.TextCell? { return StrCmp(W.CString(x.bytes, 0), W.CString(y.bytes, 0)); }
    if CellLabel(x) != CellLabel(y) { return Box(CellLabel(x) - CellLabel(y)); }
    if |x.fields| != |y.fields| { return Box(|x.fields| - |y.fields|); }
    var i := 0;
    while i < |x.fields|
      invariant 0 <= i <= |x.fields| && CompareItems(s, t, 0) == CompareItems(s, t, i)
    {
      c := Lcompare(h, rank, x.fields[i], y.fields[i]);
      if c != 0 { return; }
      i := i + 1;
    }
    c := 0;
  }

  method InnerHash(h: Heap, ghost rank: map<nat, nat>, depth: nat, acc: nat, p: Word) returns (r: nat)
    requires Acyclic(h, rank)
    ensures r == Hash(depth, acc, Unfold(h, rank, p))
    decreases RankOf(h, rank, p), 1
  {
    hide Append;
    if depth > HASH_DEPTH { return acc; }
    if p.Imm? { return Append(acc, p.n); }
    if p.address !in h { return Append(acc, p.address); }
    r := HashObject(h, rank, depth, acc, p.address);
  }

  method HashObject(h: Heap, ghost rank: map<nat, nat>, depth: nat, acc: nat, a: nat) returns (r: nat)
    requires Acyclic(h, rank) && a in h && depth <= HASH_DEPTH
    ensures r == Hash(depth, acc, Unfold(h, rank, Ptr(a)))
    decreases 1 + rank[a], 0
  {
    hide Unfold, Acyclic, Append;
    UnfoldsTo(h, rank, a);
    ghost var t := Unfold(h, rank, Ptr(a));
    var x := h[a];
    r := Append(Append(acc, CellTag(x)), CellLength(x));
    LengthUnfolds(h, rank, a);
    if x.TextCell? {
      ghost var start := r;
      var i := 0;
      while i < |x.bytes| && x.bytes[i] != 0
        invariant 0 <= i <= |x.bytes|
        invariant HashBytes(r, W.CString(x.bytes[i..], 0)) == HashBytes(start, W.CString(x.bytes, 0))
      {
        assert x.bytes[i..][1..] == x.bytes[i + 1..];
        r := Append(r, W.SignedChar(x.bytes[i]));
        i := i + 1;
      }
      return;
    }
    if !x.ArrayCell? { r := Append(r, CellLabel(x)); }
    ghost var start := r;
    var i := 0;
    while i < |x.fields|
      invariant 0 <= i <= |x.fields| && HashItems(depth, r, t, i) == HashItems(depth, start, t, 0)
    {
      r := InnerHash(h, rank, depth + 1, r, x.fields[i]);
      i := i + 1;
    }
  }

  function CellLength(c: Cell): nat {
    if c.TextCell? then |c.bytes| else |c.fields| + if c.ClosureCell? then 1 else 0
  }

  lemma LengthUnfolds(h: Heap, rank: map<nat, nat>, a: nat)
    requires Acyclic(h, rank) && a in h
    ensures Length(Unfold(h, rank, Ptr(a))) == CellLength(h[a])
  {}

  method LhashOf(h: Heap, ghost rank: map<nat, nat>, p: Word) returns (r: nat)
    requires Acyclic(h, rank)
    ensures r == Lhash(Unfold(h, rank, p))
  {
    r := InnerHash(h, rank, 0, 0, p);
    r := r % 0x40_0000;
  }
}
