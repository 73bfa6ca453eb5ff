/** When values that compare as equal have equal hashes: the hash takes in the lengths of
    texts, which the comparison does not see. */
module ValueHash {
  import opened Trees
  import opened ValueOrder
  import G = Graph
  import W = Words

  const WORD: nat := 0x1_0000_0000_0000_0000
  /** The words that have one Lhash. */
  const FIBRE: nat := 0x400_0000_0000

  /** The texts that hashing looks at, down to its depth, are equally long. */
  ghost predicate SameLengths(depth: nat, a: Tree, b: Tree)
    decreases a
  {
    depth <= HASH_DEPTH ==>
      && (a.Text? && b.Text? ==> |a.bytes| == |b.bytes|)
      && forall k :: 0 <= k < |Items(a)| && k < |Items(b)| ==> SameLengths(depth + 1, Items(a)[k], Items(b)[k])
  }

  lemma {:induction false} SameLengthsSameHash(depth: nat, acc: nat, a: Tree, b: Tree)
    requires Cut(a) == Cut(b) && SameLengths(depth, a, b)
    ensures Hash(depth, acc, a) == Hash(depth, acc, b)
    decreases a, |Items(a)| + 1
  {
    hide Append;
    if IsObject(a) && !a.Text? {
      SameCutSameKind(a, b);
      if depth <= HASH_DEPTH {
        var tagged := Append(Append(acc, Tag(a)), Length(a));
        SameLengthsSameItems(depth, if a.Array? then tagged else Append(tagged, Label(a)), a, b, 0);
      }
    }
  }

  lemma {:induction false} SameLengthsSameItems(depth: nat, acc: nat, a: Tree, b: Tree, i: nat)
    requires |Items(a)| == |Items(b)| && i <= |Items(a)|
    requires forall k :: 0 <= k < |Items(a)| ==> Cut(Items(a)[k]) == Cut(Items(b)[k])
    requires forall k :: 0 <= k < |Items(a)| ==> SameLengths(depth + 1, Items(a)[k], Items(b)[k])
    ensures HashItems(depth, acc, a, i) == HashItems(depth, acc, b, i)
    decreases a, |Items(a)| - i
  {
    hide Hash, Cut, SameLengths;
    if i < |Items(a)| {
      SameLengthsSameHash(depth + 1, acc, Items(a)[i], Items(b)[i]);
      SameLengthsSameItems(depth, Hash(depth + 1, acc, Items(a)[i]), a, b, i + 1);
    }
  }

  /** Values that compare as zero, with equally long texts, hash alike. */
  lemma EqualHashAlike(a: Tree, b: Tree)
    requires Fits(a) && Fits(b) && Compare(a, b) == 0 && SameLengths(0, a, b)
    ensures Lhash(a) == Lhash(b)
  {
    hide Compare, Cut, Hash, Fits, SameLengths, Whole;
    CompareZeroIff(a, b);
    SameLengthsSameHash(0, 0, a, b);
  }

  // Hashing loses nothing of a word before its last step

  lemma AppendIsInjective(a: nat, x: int, b: nat, y: int)
    requires Append(a, x) == Append(b, y)
    ensures (a + x) % WORD == (b + y) % WORD
  {
    var u, v := (a + x) % WORD, (b + y) % WORD;
    assert u == u / 0x1_0000_0000 * 0x1_0000_0000 + u % 0x1_0000_0000;
    assert v == v / 0x1_0000_0000 * 0x1_0000_0000 + v % 0x1_0000_0000;
  }

  lemma AppendIsWord(a: nat, x: int)
    ensures Append(a, x) < WORD
  {}

  lemma SameWordAppended(a: nat, b: nat, x: int)
    requires a < WORD && b < WORD && Append(a, x) == Append(b, x)
    ensures a == b
  {
    hide Append;
    AppendIsInjective(a, x, b, x);
  }

  lemma OtherWordAppended(a: nat, x: nat, j: nat, k: nat)
    requires j < k < WORD
    ensures Append(a, x + j) != Append(a, x + k)
  {
    hide Append;
    if Append(a, x + j) == Append(a, x + k) { AppendIsInjective(a, x + j, a, x + k); }
  }

  lemma {:induction false} BytesAreInjective(a: nat, b: nat, s: seq<Byte>)
    requires a < WORD && b < WORD && a != b
    ensures HashBytes(a, s) != HashBytes(b, s) && HashBytes(a, s) < WORD && HashBytes(b, s) < WORD
    decreases |s|
  {
    hide Append;
    if s != [] {
      var x := W.SignedChar(s[0]);
      AppendIsWord(a, x);
      AppendIsWord(b, x);
      if Append(a, x) == Append(b, x) { SameWordAppended(a, b, x); }
      BytesAreInjective(Append(a, x), Append(b, x), s[1..]);
    }
  }

  lemma AppendKeepsApart(a: nat, b: nat, x: int)
    requires a < WORD && b < WORD && a != b
    ensures Append(a, x) < WORD && Append(b, x) < WORD && Append(a, x) != Append(b, x)
  {
    hide Append;
    AppendIsWord(a, x);
    AppendIsWord(b, x);
    if Append(a, x) == Append(b, x) { SameWordAppended(a, b, x); }
  }

  /** Different words stay different when the same value is hashed on top of them. */
  lemma {:induction false} HashKeepsApart(depth: nat, a: nat, b: nat, t: Tree)
    requires a < WORD && b < WORD && a != b
    ensures Hash(depth, a, t) != Hash(depth, b, t) && Hash(depth, a, t) < WORD && Hash(depth, b, t) < WORD
    decreases t, |Items(t)| + 1
  {
    hide Append;
    if depth <= HASH_DEPTH {
      if t.Int? {
        AppendKeepsApart(a, b, t.n);
      } else if t.Raw? {
        AppendKeepsApart(a, b, t.address);
      } else {
        AppendKeepsApart(a, b, Tag(t));
        AppendKeepsApart(Append(a, Tag(t)), Append(b, Tag(t)), Length(t));
        var x, y := Append(Append(a, Tag(t)), Length(t)), Append(Append(b, Tag(t)), Length(t));
        AppendKeepsApart(x, y, Label(t));
        if t.Text? { BytesAreInjective(x, y, W.CString(t.bytes, 0)); }
        else if t.Array? { ItemsKeepApart(depth, x, y, t, 0); }
        else { ItemsKeepApart(depth, Append(x, Label(t)), Append(y, Label(t)), t, 0); }
      }
    }
  }

  lemma {:induction false} ItemsKeepApart(depth: nat, a: nat, b: nat, t: Tree, i: nat)
    requires a < WORD && b < WORD && a != b && i <= |Items(t)|
    ensures HashItems(depth, a, t, i) != HashItems(depth, b, t, i)
    ensures HashItems(depth, a, t, i) < WORD && HashItems(depth, b, t, i) < WORD
    decreases t, |Items(t)| - i
  {
    hide Hash;
    if i < |Items(t)| {
      HashKeepsApart(depth + 1, a, b, Items(t)[i]);
      ItemsKeepApart(depth, Hash(depth + 1, a, Items(t)[i]), Hash(depth + 1, b, Items(t)[i]), t, i + 1);
    }
  }

  lemma HashIsWord(depth: nat, a: nat, t: Tree)
    requires a < WORD
    ensures Hash(depth, a, t) < WORD
  {
    HashKeepsApart(depth, a, if a == 0 then 1 else 0, t);
  }

  // A text that hashing looks at

  /** Hashing meets no text. */
  predicate TextFree(depth: nat, t: Tree)
    decreases t
  {
    depth > HASH_DEPTH || (!t.Text? && forall k :: 0 <= k < |Items(t)| ==> TextFree(depth + 1, Items(t)[k]))
  }

  lemma {:induction false} TextFreeSameLengths(depth: nat, a: Tree, b: Tree)
    requires TextFree(depth, a)
    ensures SameLengths(depth, a, b)
    decreases a
  {
    if depth <= HASH_DEPTH {
      forall k | 0 <= k < |Items(a)| && k < |Items(b)|
        ensures SameLengths(depth + 1, Items(a)[k], Items(b)[k])
      {
        TextFreeSameLengths(depth + 1, Items(a)[k], Items(b)[k]);
      }
    }
  }

  /** The first item from i on that has a text. */
  ghost function FirstText(depth: nat, t: Tree, i: nat): (k: nat)
    requires i <= |Items(t)| && exists k :: i <= k < |Items(t)| && !TextFree(depth, Items(t)[k])
    ensures i <= k < |Items(t)| && !TextFree(depth, Items(t)[k])
    decreases |Items(t)| - i
  {
    if !TextFree(depth, Items(t)[i]) then i else FirstText(depth, t, i + 1)
  }

  /** The value with n zero bytes behind its first text. */
  ghost function Stretch(depth: nat, t: Tree, n: nat): Tree
    requires !TextFree(depth, t)
    decreases t
  {
    if t.Text? then Text(t.bytes + seq(n, k => 0))
    else
      var i := FirstText(depth + 1, t, 0);
      t.(items := t.items[i := Stretch(depth + 1, t.items[i], n)])
  }

  lemma {:induction false} ZerosAreCut(s: seq<Byte>, n: nat)
    ensures W.CString(s + seq(n, k => 0), 0) == W.CString(s, 0)
    decreases |s|
  {
    var zeros: seq<Byte> := seq(n, k => 0);
    if s == [] {
      assert s + zeros == zeros;
      if n > 0 { assert zeros[0] == 0; }
    } else {
      ZerosAreCut(s[1..], n);
      assert (s + zeros)[1..] == s[1..] + zeros;
    }
  }

  /** A stretched value compares as the same. */
  lemma {:induction false} StretchedIsSame(depth: nat, t: Tree, n: nat)
    requires !TextFree(depth, t) && Fits(t)
    ensures Cut(Stretch(depth, t, n)) == Cut(t) && Fits(Stretch(depth, t, n))
    decreases t
  {
    if t.Text? {
      ZerosAreCut(t.bytes, n);
    } else {
      var i := FirstText(depth + 1, t, 0);
      StretchedIsSame(depth + 1, t.items[i], n);
      var u := Stretch(depth, t, n);
      assert forall k :: 0 <= k < |Items(t)| && k != i ==> Items(u)[k] == Items(t)[k];
      CutItems(u, t);
    }
  }

  /** Values stretched differently hash differently, before Lhash drops bits. */
  lemma {:induction false} StretchesHashApart(depth: nat, acc: nat, t: Tree, j: nat, n: nat)
    requires !TextFree(depth, t) && j < n < WORD && acc < WORD
    ensures Hash(depth, acc, Stretch(depth, t, j)) != Hash(depth, acc, Stretch(depth, t, n))
    decreases t
  {
    hide Append;
    var u, v := Stretch(depth, t, j), Stretch(depth, t, n);
    if t.Text? {
      ZerosAreCut(t.bytes, j);
      ZerosAreCut(t.bytes, n);
      var tagged := Append(acc, Tag(t));
      OtherWordAppended(tagged, |t.bytes|, j, n);
      AppendIsWord(tagged, Length(u));
      AppendIsWord(tagged, Length(v));
      BytesAreInjective(Append(tagged, Length(u)), Append(tagged, Length(v)), W.CString(t.bytes, 0));
    } else {
      var tagged := Append(Append(acc, Tag(t)), Length(t));
      var start := if t.Array? then tagged else Append(tagged, Label(t));
      AppendIsWord(Append(acc, Tag(t)), Length(t));
      AppendIsWord(tagged, Label(t));
      StretchedItemsHashApart(depth, start, t, j, n, 0);
    }
  }

  lemma {:induction false} StretchedItemsHashApart(depth: nat, acc: nat, t: Tree, j: nat, n: nat, i: nat)
    requires !TextFree(depth, t) && !t.Text? && j < n < WORD && acc < WORD && i <= FirstText(depth + 1, t, 0)
    ensures |Items(Stretch(depth, t, j))| == |Items(Stretch(depth, t, n))| == |Items(t)|
    ensures HashItems(depth, acc, Stretch(depth, t, j), i) != HashItems(depth, acc, Stretch(depth, t, n), i)
    decreases t, |Items(t)| - i
  {
    hide Hash;
    var u, v, first := Stretch(depth, t, j), Stretch(depth, t, n), FirstText(depth + 1, t, 0);
    if i < first {
      HashIsWord(depth + 1, acc, Items(t)[i]);
      StretchedItemsHashApart(depth, Hash(depth + 1, acc, Items(t)[i]), t, j, n, i + 1);
    } else {
      StretchesHashApart(depth + 1, acc, Items(t)[i], j, n);
      HashIsWord(depth + 1, acc, Items(u)[i]);
      HashIsWord(depth + 1, acc, Items(v)[i]);
      RestIsSame(depth, Hash(depth + 1, acc, Items(v)[i]), u, v, i + 1);
      ItemsKeepApart(depth, Hash(depth + 1, acc, Items(u)[i]), Hash(depth + 1, acc, Items(v)[i]), u, i + 1);
    }
  }

  lemma {:induction false} RestIsSame(depth: nat, acc: nat, u: Tree, v: Tree, i: nat)
    requires |Items(u)| == |Items(v)| && i <= |Items(u)| && forall k :: i <= k < |Items(u)| ==>
      Items(u)[k] == Items(v)[k]
    ensures HashItems(depth, acc, u, i) == HashItems(depth, acc, v, i)
    decreases |Items(u)| - i
  {
    hide Hash;
    if i < |Items(u)| { RestIsSame(depth, Hash(depth + 1, acc, Items(u)[i]), u, v, i + 1); }
  }

  /** Among enough ways to stretch a value there are two with different Lhash: a fibre of
      Lhash has fewer words. */
  lemma StretchesDiffer(t: Tree, c: nat)
    requires !TextFree(0, t)
    ensures exists n: nat :: Lhash(Stretch(0, t, n)) != c
  {
    hide Hash, Stretch;
    if forall n: nat :: Lhash(Stretch(0, t, n)) == c {
      var quotients := seq(FIBRE + 1, n requires 0 <= n => Hash(0, 0, Stretch(0, t, n)) / 0x40_0000);
      forall n | 0 <= n <= FIBRE ensures quotients[n] < FIBRE {
        HashIsWord(0, 0, Stretch(0, t, n));
      }
      forall i, j | 0 <= i < j <= FIBRE ensures quotients[i] != quotients[j] {
        StretchesHashApart(0, 0, t, i, j);
        assert Lhash(Stretch(0, t, i)) == Lhash(Stretch(0, t, j));
      }
      G.Pigeonhole(quotients, FIBRE);
    }
  }

  ghost predicate HashesWithEquals(a: Tree) {
    forall b :: Fits(b) && Compare(a, b) == 0 ==> Lhash(b) == Lhash(a)
  }

  /** A value hashes like every value that compares as equal to it if and only if hashing
      meets no text in it. */
  lemma HashesWithEqualsIff(a: Tree)
    requires Fits(a)
    ensures HashesWithEquals(a) <==> TextFree(0, a)
  {
    hide Compare, Cut, Hash, Fits, SameLengths, Whole, Stretch, TextFree, Lhash;
    if TextFree(0, a) {
      forall b | Fits(b) && Compare(a, b) == 0 ensures Lhash(b) == Lhash(a) {
        TextFreeSameLengths(0, a, b);
        EqualHashAlike(a, b);
      }
    } else {
      StretchesDiffer(a, Lhash(a));
      var n: nat :| Lhash(Stretch(0, a, n)) != Lhash(a);
      StretchedIsSame(0, a, n);
      CompareZeroIff(a, Stretch(0, a, n));
    }
  }

  /** One zero byte is enough: "a" and "a\0" compare as zero and have the hashes 1 and 2. */
  lemma OneZeroByteTells()
    ensures Compare(Text([97]), Text([97, 0])) == 0
    ensures Lhash(Text([97])) == 1 && Lhash(Text([97, 0])) == 2
  {
    hide Compare, Hash, Append, Whole;
    var s: seq<Byte>, u: seq<Byte> := [97], [97, 0];
    assert W.CString(s, 0) == s && W.CString(u, 0) == s by {
      assert s[1..] == [] && u[1..] == [0];
    }
    CompareZeroIff(Text(s), Text(u));
    HashOfText(s, 1);
    HashOfText(u, 2);
    assert Append(Append(Append(0, 1), 1), 97) == 0x62_0000_0001 by { AppendLetter(1); }
    assert Append(Append(Append(0, 1), 2), 97) == 0x62_0000_0002 by { AppendLetter(2); }
  }

  /** An addition that stays in the low half, which then becomes the high half. */
  lemma AppendHalves(high: nat, low: nat, x: nat)
    requires high < 0x1_0000_0000 && low + x < 0x1_0000_0000
    ensures Append(high * 0x1_0000_0000 + low, x) == (low + x) * 0x1_0000_0000 + high
  {}

  lemma AppendLetter(length: nat)
    requires length < 3
    ensures Append(Append(Append(0, 1), length), 97) == 0x62_0000_0000 + length
  {
    hide Append;
    AppendHalves(0, 0, 1);
    AppendHalves(1, 0, length);
    AppendHalves(length, 1, 97);
  }

  lemma HashOfText(bytes: seq<Byte>, length: nat)
    requires W.CString(bytes, 0) == [97] && |bytes| == length
    ensures Hash(0, 0, Text(bytes)) == Append(Append(Append(0, 1), length), 97)
  {
    hide Append;
    HashOfLetter(Append(Append(0, 1), length));
  }

  lemma HashOfLetter(acc: nat)
    ensures HashBytes(acc, [97]) == Append(acc, 97)
  {
    var s: seq<Byte> := [97];
    assert s[1..] == [];
  }

  // What is hashed, as a list of words

  /** Half of the word is exchanged with the other half after each addition. */
  lemma AppendSwapsHalves(acc: nat, x: int)
    ensures Append(acc, x) % 0x1_0000_0000 == (acc + x) % WORD / 0x1_0000_0000
    ensures Append(acc, x) / 0x1_0000_0000 == (acc + x) % WORD % 0x1_0000_0000
  {}

  function Fold(acc: nat, xs: seq<int>): nat
    decreases |xs|
  {
    if xs == [] then acc else Fold(Append(acc, xs[0]), xs[1..])
  }

  /** The number that a byte is as a signed char. */
  function Signed(b: int): int {
    if b < 128 then b else b - 256
  }

  function Chars(s: seq<Byte>): seq<int> {
    seq(|s|, k requires 0 <= k < |s| => Signed(s[k]))
  }

  /** The words that a value of so many levels feeds to the hash: of an object its kind (1, 3, 5
      or 7), its length, the tag or the code, and then characters or items. */
  ghost function Fed(levels: nat, t: Tree): seq<int>
    decreases t, |Items(t)| + 1
  {
    if levels == 0 then []
    else match t
      case Int(n) => [n]
      case Raw(address) => [address]
      case Text(bytes) => [1, |bytes|] + Chars(W.CString(bytes, 0))
      case Array(items) => [3, |items|] + FedItems(levels - 1, t, 0)
      case Sexp(tag, items) => [5, |items|, tag] + FedItems(levels - 1, t, 0)
      case Closure(code, items) => [7, |items| + 1, code] + FedItems(levels - 1, t, 0)
  }

  ghost function FedItems(levels: nat, t: Tree, i: nat): seq<int>
    requires i <= |Items(t)|
    decreases t, |Items(t)| - i
  {
    if i == |Items(t)| then [] else Fed(levels, Items(t)[i]) + FedItems(levels, t, i + 1)
  }

  lemma {:induction false} FoldBoth(acc: nat, xs: seq<int>, ys: seq<int>)
    ensures Fold(acc, xs + ys) == Fold(Fold(acc, xs), ys)
    decreases |xs|
  {
    hide Append;
    if xs == [] {
      assert xs + ys == ys;
    } else {
      FoldBoth(Append(acc, xs[0]), xs[1..], ys);
      assert (xs + ys)[1..] == xs[1..] + ys;
    }
  }

  lemma FoldTwo(acc: nat, x: int, y: int)
    ensures Fold(acc, [x, y]) == Append(Append(acc, x), y)
  {
    hide Append;
    assert [x, y][1..] == [y] && [y][1..] == [];
    assert Fold(Append(acc, x), [y]) == Fold(Append(Append(acc, x), y), []);
  }

  lemma FoldThree(acc: nat, x: int, y: int, z: int)
    ensures Fold(acc, [x, y, z]) == Append(Append(Append(acc, x), y), z)
  {
    hide Append;
    assert [x, y, z][1..] == [y, z];
    FoldTwo(Append(acc, x), y, z);
  }

  lemma {:induction false} BytesAreFolded(acc: nat, s: seq<Byte>)
    ensures HashBytes(acc, s) == Fold(acc, Chars(s))
    decreases |s|
  {
    hide Append;
    if s == [] {
      assert Chars(s) == [];
    } else {
      assert W.SignedChar(s[0]) == Chars(s)[0];
      BytesAreFolded(Append(acc, Chars(s)[0]), s[1..]);
      assert Chars(s)[1..] == Chars(s[1..]);
    }
  }

  /** Hashing feeds exactly these words, down to the fourth level. */
  lemma {:induction false} HashIsFold(depth: nat, acc: nat, t: Tree)
    requires depth <= 4
    ensures Hash(depth, acc, t) == Fold(acc, Fed(4 - depth, t))
    decreases t, |Items(t)| + 1
  {
    hide Append;
    if depth < 4 {
      match t
      case Int(n) => assert [n][1..] == [];
      case Raw(address) => assert [address][1..] == [];
      case Text(bytes) =>
        FoldBoth(acc, [1, |bytes|], Chars(W.CString(bytes, 0)));
        FoldTwo(acc, 1, |bytes|);
        BytesAreFolded(Fold(acc, [1, |bytes|]), W.CString(bytes, 0));
      case Array(items) =>
        FoldBoth(acc, [3, |items|], FedItems(3 - depth, t, 0));
        FoldTwo(acc, 3, |items|);
        ItemsAreFolded(depth, Fold(acc, [3, |items|]), t, 0);
      case Sexp(tag, items) =>
        FoldBoth(acc, [5, |items|, tag], FedItems(3 - depth, t, 0));
        FoldThree(acc, 5, |items|, tag);
        ItemsAreFolded(depth, Fold(acc, [5, |items|, tag]), t, 0);
      case Closure(code, items) =>
        FoldBoth(acc, [7, |items| + 1, code], FedItems(3 - depth, t, 0));
        FoldThree(acc, 7, |items| + 1, code);
        ItemsAreFolded(depth, Fold(acc, [7, |items| + 1, code]), t, 0);
    }
  }

  lemma {:induction false} ItemsAreFolded(depth: nat, acc: nat, t: Tree, i: nat)
    requires depth < 4 && i <= |Items(t)|
    ensures HashItems(depth, acc, t, i) == Fold(acc, FedItems(3 - depth, t, i))
    decreases t, |Items(t)| - i
  {
    hide Hash, Fed;
    if i < |Items(t)| {
      HashIsFold(depth + 1, acc, Items(t)[i]);
      ItemsAreFolded(depth, Hash(depth + 1, acc, Items(t)[i]), t, i + 1);
      FoldBoth(acc, Fed(3 - depth, Items(t)[i]), FedItems(3 - depth, t, i + 1));
    }
  }

  /** Lhash: the low 22 bits of what the words of four levels fold to. */
  lemma LhashIsFold(t: Tree)
    ensures Lhash(t) == Fold(0, Fed(4, t)) % 0x40_0000
  {
    hide Hash, Fed;
    HashIsFold(0, 0, t);
  }

  // The depth

  /** A number inside that many arrays of one. */
  function Nested(arrays: nat, n: int): Tree {
    if arrays == 0 then Int(n) else Array([Nested(arrays - 1, n)])
  }

  lemma {:induction false} NestedTells(arrays: nat, depth: nat, acc: nat, m: int, n: int)
    requires depth + arrays <= 3 && acc < WORD && (m - n) % WORD != 0
    ensures Hash(depth, acc, Nested(arrays, m)) != Hash(depth, acc, Nested(arrays, n))
    decreases arrays
  {
    hide Append;
    if arrays == 0 {
      if Append(acc, m) == Append(acc, n) {
        AppendIsInjective(acc, m, acc, n);
        SameRemainder(acc + m, acc + n);
      }
    } else {
      var tagged := Append(Append(acc, 3), 1);
      AppendIsWord(Append(acc, 3), 1);
      NestedTells(arrays - 1, depth + 1, tagged, m, n);
      OneItem(depth, tagged, Nested(arrays, m));
      OneItem(depth, tagged, Nested(arrays, n));
    }
  }

  lemma SameRemainder(x: int, y: int)
    requires x % WORD == y % WORD
    ensures (x - y) % WORD == 0
  {}

  lemma OneItem(depth: nat, acc: nat, t: Tree)
    requires |Items(t)| == 1
    ensures HashItems(depth, acc, t, 0) == Hash(depth + 1, acc, Items(t)[0])
  {
    hide Hash;
    assert HashItems(depth, Hash(depth + 1, acc, Items(t)[0]), t, 1) == Hash(depth + 1, acc, Items(t)[0]);
  }

  /** A number inside three arrays changes the hash, and inside four it does not. */
  lemma DepthIsThree(m: int, n: int)
    ensures (m - n) % WORD != 0 ==> Hash(0, 0, Nested(3, m)) != Hash(0, 0, Nested(3, n))
    ensures Hash(0, 0, Nested(4, m)) == Hash(0, 0, Nested(4, n))
  {
    hide Append;
    if (m - n) % WORD != 0 { NestedTells(3, 0, 0, m, n); }
    HashIsFold(0, 0, Nested(4, m));
    HashIsFold(0, 0, Nested(4, n));
    FedOfDeep(4, m, n);
  }

  lemma {:induction false} FedOfDeep(levels: nat, m: int, n: int)
    ensures Fed(levels, Nested(levels, m)) == Fed(levels, Nested(levels, n))
    decreases levels
  {
    if levels > 0 {
      FedOfDeep(levels - 1, m, n);
      FedOne(levels - 1, Nested(levels, m));
      FedOne(levels - 1, Nested(levels, n));
    }
  }

  lemma FedOne(levels: nat, t: Tree)
    requires |Items(t)| == 1
    ensures FedItems(levels, t, 0) == Fed(levels, Items(t)[0])
  {
    hide Fed;
    assert FedItems(levels, t, 1) == [];
  }
}
