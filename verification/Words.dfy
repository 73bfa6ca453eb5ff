/** Machine words, object headers and the forward word (runtime/runtime_common.h, runtime/gc.h).

    A word is a natural number.  The bit masks of the C macros are written as
    arithmetic: `x & 1` is `x % 2`, `x & ~3` is `x - x % 4`, and an OR of disjoint
    bits is a sum. */
module Words {

  const ADDRESS_SPACE: nat := 0x1_0000_0000_0000_0000
  const STRING_TAG := 1
  const ARRAY_TAG := 3
  const SEXP_TAG := 5
  const CLOSURE_TAG := 7
  const WORD_BYTES := 8
  const HEADER_BYTES := 16  // data_header and forward_address
  const MAX_EXTRA_ROOTS_NUMBER := 32

  function Tag(header: nat): nat { header % 8 }

  function Len(header: nat): nat { header / 8 }

  function MakeHeader(tag: nat, len: nat): nat { len * 8 + tag }

  predicate IsHeader(header: nat) {
    Tag(header) == STRING_TAG || Tag(header) == ARRAY_TAG || Tag(header) == SEXP_TAG || Tag(header) == CLOSURE_TAG
  }

  /** The size of an object in bytes, header included; a string has a final NUL,
      an s-expression one more member for its tag. */
  function ObjBytes(header: nat): (bytes: nat)
    ensures bytes >= HEADER_BYTES
  {
    if Tag(header) == STRING_TAG then HEADER_BYTES + Len(header) + 1
    else if Tag(header) == SEXP_TAG then HEADER_BYTES + WORD_BYTES * (Len(header) + 1)
    else HEADER_BYTES + WORD_BYTES * Len(header)
  }

  function BytesToWords(bytes: nat): nat
    requires bytes > 0
  {
    (bytes - 1) / WORD_BYTES + 1
  }

  function ObjWords(header: nat): (words: nat)
    ensures words >= 2
    ensures WORD_BYTES * (words - 1) < ObjBytes(header) <= WORD_BYTES * words
  {
    BytesToWords(ObjBytes(header))
  }

  lemma HeaderParts(tag: nat, len: nat)
    requires tag < 8
    ensures Tag(MakeHeader(tag, len)) == tag && Len(MakeHeader(tag, len)) == len
  {}

  /** By the kinds: header, forward word, for an s-expression its tag, and the fields; a string
      takes the words up to the one in which its final zero byte lies. */
  lemma WordsOfKinds(len: nat)
    ensures ObjWords(MakeHeader(ARRAY_TAG, len)) == len + 2
    ensures ObjWords(MakeHeader(CLOSURE_TAG, len)) == len + 2
    ensures ObjWords(MakeHeader(SEXP_TAG, len)) == len + 3
    ensures ObjWords(MakeHeader(STRING_TAG, len)) == 2 + len / 8 + 1
  {
    hide Tag, Len, MakeHeader;
    HeaderParts(ARRAY_TAG, len);
    HeaderParts(CLOSURE_TAG, len);
    HeaderParts(SEXP_TAG, len);
    HeaderParts(STRING_TAG, len);
  }

  /** The first traced field, in words from the header.  Strings have none, the
      first content word of a closure is its code and that of an s-expression its tag. */
  function FirstField(header: nat): nat {
    if Tag(header) == STRING_TAG then ObjWords(header)
    else if Tag(header) == ARRAY_TAG then 2
    else 3
  }

  lemma FirstFieldIsContent(header: nat)
    ensures FirstField(header) >= 2
  {}

  // The forward word: an address whose two low bits say "marked" and "enqueued".

  predicate IsMarked(x: nat) { x % 2 == 1 }

  predicate IsEnqueued(x: nat) { x / 2 % 2 == 1 }

  function GetForward(x: nat): nat { x - x % 4 }

  /** The two low bits of a word and the rest do not interfere. */
  lemma LowBits(quarter: nat, low: nat)
    requires low < 4
    ensures (4 * quarter + low) % 4 == low
    ensures (4 * quarter + low) % 2 == low % 2 && (4 * quarter + low) / 2 % 2 == low / 2
  {
    assert (4 * quarter + low) / 2 == 2 * quarter + low / 2;
  }

  lemma Split(x: nat)
    ensures x == 4 * (x / 4) + x % 4 && x % 2 == x % 4 % 2 && x / 2 % 2 == x % 4 / 2
  {
    LowBits(x / 4, x % 4);
  }

  function SetForward(x: nat, address: nat): (r: nat)
    requires address % 4 == 0
    ensures GetForward(r) == address && IsMarked(r) == IsMarked(x) && IsEnqueued(r) == IsEnqueued(x)
  {
    Split(x);
    LowBits(address / 4, x % 4);
    x % 4 + address
  }

  function SetMark(x: nat): (r: nat)
    ensures GetForward(r) == GetForward(x) && IsMarked(r) && IsEnqueued(r) == IsEnqueued(x)
  {
    Split(x);
    LowBits(x / 4, x % 4 - x % 2 + 1);
    x - x % 2 + 1
  }

  function ResetMark(x: nat): (r: nat)
    ensures GetForward(r) == GetForward(x) && !IsMarked(r) && IsEnqueued(r) == IsEnqueued(x)
  {
    Split(x);
    LowBits(x / 4, x % 4 - x % 2);
    x - x % 2
  }

  function MakeEnqueued(x: nat): (r: nat)
    ensures GetForward(r) == GetForward(x) && IsMarked(r) == IsMarked(x) && IsEnqueued(r)
  {
    Split(x);
    LowBits(x / 4, x % 2 + 2);
    if IsEnqueued(x) then x else x + 2
  }

  function MakeDequeued(x: nat): (r: nat)
    ensures GetForward(r) == GetForward(x) && IsMarked(r) == IsMarked(x) && !IsEnqueued(r)
  {
    Split(x);
    LowBits(x / 4, x % 2);
    if IsEnqueued(x) then x - 2 else x
  }

  // Characters

  /** The characters before the first zero. */
  function CString<T(==)>(s: seq<T>, zero: T): (r: seq<T>)
    ensures r <= s && zero !in r && (|r| < |s| ==> s[|r|] == zero)
  {
    if s == [] || s[0] == zero then [] else [s[0]] + CString(s[1..], zero)
  }

  /** A byte as a char, which is signed. */
  function SignedChar(b: int): (c: int)
    ensures 0 <= b < 0x100 ==> -0x80 <= c < 0x80 && (c - b) % 0x100 == 0
  {
    if b < 0x80 then b else b - 0x100
  }

  /** Up to position d the sequences agree; there a ends or is smaller. */
  ghost predicate DiffersAt(a: seq<int>, b: seq<int>, d: nat) {
    d <= |a| && d < |b| && a[..d] == b[..d] && (d == |a| || a[d] < b[d])
  }

  /** a is a proper prefix of b, or smaller where they first differ. */
  ghost predicate Precedes(a: seq<int>, b: seq<int>) {
    exists d: nat :: DiffersAt(a, b, d)
  }

  lemma PrecedesAfter(x: int, a: seq<int>, b: seq<int>)
    ensures Precedes([x] + a, [x] + b) <==> Precedes(a, b)
  {
    if d: nat :| DiffersAt(a, b, d) {
      assert ([x] + a)[..d + 1] == [x] + a[..d] && ([x] + b)[..d + 1] == [x] + b[..d];
      assert DiffersAt([x] + a, [x] + b, d + 1);
    }
    if d: nat :| DiffersAt([x] + a, [x] + b, d) {
      assert d > 0;
      assert a[..d - 1] == ([x] + a)[..d][1..] && b[..d - 1] == ([x] + b)[..d][1..];
      assert DiffersAt(a, b, d - 1);
    }
  }

  // A move of a number of bytes that is not a whole number of words.

  function Pow256(k: nat): (p: nat)
    ensures p > 0
  {
    if k == 0 then 1 else 256 * Pow256(k - 1)
  }

  /** The number of bytes of an object in its last word, from 1 to 8. */
  function LastBytes(header: nat): (k: nat)
    ensures 1 <= k <= WORD_BYTES
  {
    ObjBytes(header) - WORD_BYTES * (ObjWords(header) - 1)
  }

  /** What `src` becomes when only the bytes of the object in its last word count. */
  function LowBytes(header: nat, word: nat): nat {
    if LastBytes(header) == WORD_BYTES then word else word % Pow256(LastBytes(header))
  }

  /** The last word after its object's bytes were moved from `src` over `dst`. */
  function MergeLow(header: nat, src: nat, dst: nat): (r: nat)
    ensures LowBytes(header, r) == LowBytes(header, src)
  {
    if LastBytes(header) == WORD_BYTES then src
    else
      MergeAt(Pow256(LastBytes(header)), src, dst)
  }

  function MergeAt(p: nat, src: nat, dst: nat): (r: nat)
    requires p > 0
    ensures r % p == src % p
  {
    ModOfSum(src % p, dst / p, p);
    src % p + dst / p * p
  }

  // Bytes of a word, and immediates

  type Byte = b: int | 0 <= b < 0x100

  function ByteAt(w: nat, j: nat): Byte {
    if j == 0 then w % 0x100 else ByteAt(w / 0x100, j - 1)
  }

  function SetByte(w: nat, j: nat, b: Byte): (r: nat)
    ensures forall k: nat :: ByteAt(r, k) == if k == j then b else ByteAt(w, k)
    decreases j
  {
    if j == 0 then
      assert (w - w % 0x100 + b) / 0x100 == w / 0x100;
      w - w % 0x100 + b
    else
      var rest := SetByte(w / 0x100, j - 1, b);
      assert (w % 0x100 + 0x100 * rest) / 0x100 == rest;
      w % 0x100 + 0x100 * rest
  }

  /** Byte j of a word is its digit to the base 256. */
  lemma {:induction false} ByteAtIs(w: nat, j: nat)
    ensures ByteAt(w, j) == w / Pow256(j) % 0x100
    decreases j
  {
    if j > 0 {
      ByteAtIs(w / 0x100, j - 1);
      DivideTwice(w, 0x100, Pow256(j - 1));
    }
  }

  lemma DivideTwice(w: nat, a: nat, b: nat)
    requires a > 0 && b > 0
    ensures a * b > 0 && w / a / b == w / (a * b)
  {
    var q, r, s := w / a / b, w / a % b, w % a;
    assert w == a * (b * q + r) + s;
    assert a * (b * q + r) == a * b * q + a * r;
    assert a * r <= a * (b - 1);
    assert a * (b - 1) == a * b - a;
    QuotientIs(w, a * b, q, a * r + s);
  }

  lemma QuotientIs(w: nat, p: nat, q: nat, r: nat)
    requires p > 0 && w == p * q + r && r < p
    ensures w / p == q
  {
    NoMultipleBetween(w / p - q, p);
  }

  /** BOX and UNBOX of 64-bit words. */
  function BoxWord(x: int): (w: nat)
    ensures w % 2 == 1 && w < ADDRESS_SPACE
  {
    (2 * x + 1) % ADDRESS_SPACE
  }

  function UnboxWord(w: nat): nat {
    if w < ADDRESS_SPACE / 2 then w / 2 else w / 2 + ADDRESS_SPACE / 2
  }

  lemma SetByteParts(w: nat, j: nat, b: Byte)
    ensures SetByte(w, j, b) == SetByte(w, j, b) % 0x100 + 0x100 * (SetByte(w, j, b) / 0x100)
    ensures SetByte(w, j, b) % 0x100 == if j == 0 then b else w % 0x100
    ensures SetByte(w, j, b) / 0x100 == if j == 0 then w / 0x100 else SetByte(w / 0x100, j - 1, b)
  {}

  /** A word cut to its first k bytes, byte by byte. */
  lemma CutByByte(w: nat, k: nat)
    requires k > 0
    ensures w % Pow256(k) == w % 0x100 + 0x100 * (w / 0x100 % Pow256(k - 1))
  {
    var p, q := Pow256(k - 1), w / 0x100;
    var s, t := q % p, q / p;
    assert w == 0x100 * q + w % 0x100 && q == t * p + s;
    assert t * (0x100 * p) == 0x100 * (t * p);
    ModOfSum(0x100 * s + w % 0x100, t, 0x100 * p);
  }

  lemma {:induction false} ByteOfCut(w: nat, j: nat, k: nat)
    requires j < k
    ensures ByteAt(w % Pow256(k), j) == ByteAt(w, j)
    decreases k
  {
    CutByByte(w, k);
    var r := w % Pow256(k);
    assert r % 0x100 == w % 0x100 && r / 0x100 == w / 0x100 % Pow256(k - 1);
    if j > 0 { ByteOfCut(w / 0x100, j - 1, k - 1); }
  }

  lemma {:induction false} SetByteOfCut(w: nat, j: nat, b: Byte, k: nat)
    requires j < k
    ensures SetByte(w, j, b) % Pow256(k) == SetByte(w % Pow256(k), j, b)
    decreases k
  {
    hide SetByte;
    CutByByte(w, k);
    CutByByte(SetByte(w, j, b), k);
    SetByteParts(w, j, b);
    SetByteParts(w % Pow256(k), j, b);
    SameParts(w % 0x100, w / 0x100 % Pow256(k - 1), w % Pow256(k));
    if j > 0 { SetByteOfCut(w / 0x100, j - 1, b, k - 1); }
  }

  lemma SameParts(low: nat, high: nat, w: nat)
    requires low < 0x100 && w == low + 0x100 * high
    ensures w % 0x100 == low && w / 0x100 == high
  {}

  /** Of the last word of an object only its own bytes count, and they are read and set as
      in the whole word. */
  lemma LowBytesKeepBytes(header: nat, w: nat, j: nat, b: Byte)
    requires j < LastBytes(header)
    ensures ByteAt(LowBytes(header, w), j) == ByteAt(w, j)
    ensures LowBytes(header, SetByte(w, j, b)) == SetByte(LowBytes(header, w), j, b)
  {
    hide ObjBytes, ObjWords;
    ByteOfCut(w, j, LastBytes(header));
    SetByteOfCut(w, j, b, LastBytes(header));
  }

  lemma ModOfSum(a: nat, q: nat, p: nat)
    requires a < p
    ensures (a + q * p) % p == a
  {
    var z := a + q * p;
    NoMultipleBetween(z / p - q, p);
  }

  lemma NoMultipleBetween(t: int, p: int)
    requires p > 0
    ensures t * p < p && -p < t * p ==> t == 0
  {
    if t >= 1 {
      assert (t - 1) * p >= 0;
    } else if t <= -1 {
      assert (t + 1) * p <= 0;
    }
  }
}
