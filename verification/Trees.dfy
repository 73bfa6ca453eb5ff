/** Structural comparison and hashing of values (Lcompare and inner_hash of
    runtime/runtime.c:558-684), on the trees that acyclic values unfold to. */
module Trees {
  import W = Words

  type Byte = b: int | 0 <= b < 0x100

  /** Raw is a pointer outside the heap. */
  datatype Tree =
    | Int(n: int)
    | Raw(address: nat)
    | Text(bytes: seq<Byte>)
    | Array(items: seq<Tree>)
    | Sexp(tag: nat, items: seq<Tree>)
    | Closure(code: nat, items: seq<Tree>)

  /** BOX keeps 63 bits of a difference. */
  function Box(x: int): int {
    var u := x % 0x8000_0000_0000_0000;
    if u < 0x4000_0000_0000_0000 then u else u - 0x8000_0000_0000_0000
  }

  lemma BoxOfSmall(x: int)
    requires -0x4000_0000_0000_0000 <= x < 0x4000_0000_0000_0000
    ensures Box(x) == x
  {}

  function Tag(t: Tree): int {
    match t
    case Text(_) => W.STRING_TAG
    case Array(_) => W.ARRAY_TAG
    case Sexp(_, _) => W.SEXP_TAG
    case Closure(_, _) => W.CLOSURE_TAG
    case _ => 0
  }

  predicate IsObject(t: Tree) {
    !t.Int? && !t.Raw?
  }

  function Items(t: Tree): seq<Tree> {
    if t.Array? || t.Sexp? || t.Closure? then t.items else []
  }

  /** The word that is compared before the length: code of closures, tag of S-expressions. */
  function Label(t: Tree): nat {
    if t.Sexp? then t.tag else if t.Closure? then t.code else 0
  }

  /** strcmp, of which C promises the sign only. */
  function StrCmp(a: seq<Byte>, b: seq<Byte>): int
    decreases |a|
  {
    if a == [] then (if b == [] then 0 else -1)
    else if b == [] || a[0] > b[0] then 1
    else if a[0] < b[0] then -1
    else StrCmp(a[1..], b[1..])
  }

  function Compare(a: Tree, b: Tree): int
    decreases a, |Items(a)| + 1
  {
    if a.Int? then (if b.Int? then Box(a.n - b.n) else -1)
    else if b.Int? then 1
    else if a.Raw? then (if b.Raw? then Box(a.address - b.address) else 1)
    else if b.Raw? then -1
    else if Tag(a) != Tag(b) then Box(Tag(a) - Tag(b))
    else if a.Text? then StrCmp(W.CString(a.bytes, 0), W.CString(b.bytes, 0))
    else if Label(a) != Label(b) then Box(Label(a) - Label(b))
    else if |a.items| != |b.items| then Box(|a.items| - |b.items|)
    else CompareItems(a, b, 0)
  }

  /** The first difference from item i on. */
  function CompareItems(a: Tree, b: Tree, i: nat): int
    requires |Items(a)| == |Items(b)| && i <= |Items(a)|
    decreases a, |Items(a)| - i
  {
    if i == |Items(a)| then 0
    else
      var c := Compare(Items(a)[i], Items(b)[i]);
      if c != 0 then c else CompareItems(a, b, i + 1)
  }

  // Hashing

  function Append(acc: nat, x: int): nat {
    var y := (acc + x) % 0x1_0000_0000_0000_0000;
    y % 0x1_0000_0000 * 0x1_0000_0000 + y / 0x1_0000_0000
  }

  function HashBytes(acc: nat, s: seq<Byte>): nat
    decreases |s|
  {
    if s == [] then acc else HashBytes(Append(acc, W.SignedChar(s[0])), s[1..])
  }

  const HASH_DEPTH := 3

  function Length(t: Tree): nat {
    match t
    case Text(bytes) => |bytes|
    case Array(items) => |items|
    case Sexp(_, items) => |items|
    case Closure(_, items) => |items| + 1
    case _ => 0
  }

  function Hash(depth: nat, acc: nat, t: Tree): nat
    decreases t, |Items(t)| + 1
  {
    if depth > HASH_DEPTH then acc
    else if t.Int? then Append(acc, t.n)
    else if t.Raw? then Append(acc, t.address)
    else
      var tagged := Append(Append(acc, Tag(t)), Length(t));
      if t.Text? then HashBytes(tagged, W.CString(t.bytes, 0))
      else HashItems(depth, if t.Array? then tagged else Append(tagged, Label(t)), t, 0)
  }

  function HashItems(depth: nat, acc: nat, t: Tree, i: nat): nat
    requires i <= |Items(t)|
    decreases t, |Items(t)| - i
  {
    if i == |Items(t)| then acc else HashItems(depth, Hash(depth + 1, acc, Items(t)[i]), t, i + 1)
  }

  /** Lhash keeps 22 bits. */
  function Lhash(t: Tree): nat {
    Hash(0, 0, t) % 0x40_0000
  }

  // What is promised of them

  /** Every text cut at its first zero byte. */
  function Cut(t: Tree): Tree
    decreases t
  {
    match t
    case Text(bytes) => Text(W.CString(bytes, 0))
    case Array(items) => Array(seq(|items|, k requires 0 <= k < |items| => Cut(items[k])))
    case Sexp(tag, items) => Sexp(tag, seq(|items|, k requires 0 <= k < |items| => Cut(items[k])))
    case Closure(code, items) => Closure(code, seq(|items|, k requires 0 <= k < |items| => Cut(items[k])))
    case _ => t
  }

  /** No text has a zero byte. */
  predicate Whole(t: Tree)
    decreases t
  {
    && (t.Text? ==> forall k :: 0 <= k < |t.bytes| ==> t.bytes[k] != 0)
    && forall k :: 0 <= k < |Items(t)| ==> Whole(Items(t)[k])
  }

  /** What words hold: immediates of 63 bits, lengths of 61, addresses of the lower half. */
  predicate Fits(t: Tree)
    decreases t
  {
    && (t.Int? ==> -0x4000_0000_0000_0000 <= t.n < 0x4000_0000_0000_0000)
    && (t.Raw? ==> t.address < 0x8000_0000_0000_0000)
    && Label(t) < 0x8000_0000_0000_0000 && |Items(t)| < 0x2000_0000_0000_0000
    && forall k :: 0 <= k < |Items(t)| ==> Fits(Items(t)[k])
  }

  /** Immediates of 32 bits, addresses of 62, tags of 60. */
  predicate Ordinary(t: Tree)
    decreases t
  {
    && (t.Int? ==> -0x8000_0000 <= t.n < 0x8000_0000)
    && (t.Raw? ==> t.address < 0x4000_0000_0000_0000)
    && Label(t) < (if t.Sexp? then 0x1000_0000_0000_0000 else 0x4000_0000_0000_0000)
    && |Items(t)| < 0x2000_0000_0000_0000
    && forall k :: 0 <= k < |Items(t)| ==> Ordinary(Items(t)[k])
  }

  function Sign(x: int): int {
    if x < 0 then -1 else if x > 0 then 1 else 0
  }
}
