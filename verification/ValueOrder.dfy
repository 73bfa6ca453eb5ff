/** When structural comparison is an order, and when values that it calls equal hash alike. */
module ValueOrder {
  import opened Trees
  import W = Words

  lemma {:induction false} StrCmpReversed(a: seq<Byte>, b: seq<Byte>)
    ensures StrCmp(a, b) == -StrCmp(b, a)
    decreases |a|
  {
    if a != [] && b != [] && a[0] == b[0] { StrCmpReversed(a[1..], b[1..]); }
  }

  lemma {:induction false} StrCmpZero(a: seq<Byte>, b: seq<Byte>)
    ensures -1 <= StrCmp(a, b) <= 1
    ensures StrCmp(a, b) == 0 <==> a == b
    decreases |a|
  {
    if a != [] && b != [] && a[0] == b[0] {
      StrCmpZero(a[1..], b[1..]);
      assert a == [a[0]] + a[1..] && b == [b[0]] + b[1..];
    }
  }

  lemma {:induction false} StrCmpTransitive(a: seq<Byte>, b: seq<Byte>, c: seq<Byte>)
    requires StrCmp(a, b) < 0 && StrCmp(b, c) < 0
    ensures StrCmp(a, c) < 0
    decreases |a|
  {
    if a != [] && a[0] == b[0] && b[0] == c[0] { StrCmpTransitive(a[1..], b[1..], c[1..]); }
  }

  lemma {:induction false} CStringHasNoZero(s: seq<Byte>)
    ensures forall k :: 0 <= k < |W.CString(s, 0)| ==> W.CString(s, 0)[k] != 0
    decreases |s|
  {
    if s != [] && s[0] != 0 { CStringHasNoZero(s[1..]); }
  }

  lemma {:induction false} CStringWhole(s: seq<Byte>)
    requires forall k :: 0 <= k < |s| ==> s[k] != 0
    ensures W.CString(s, 0) == s
    decreases |s|
  {
    if s != [] {
      CStringWhole(s[1..]);
      assert s == [s[0]] + s[1..];
    }
  }

  /** Cutting changes nothing exactly if there is nothing to cut. */
  lemma {:induction false} CutIsWhole(t: Tree)
    ensures Whole(Cut(t)) && (Cut(t) == t <==> Whole(t))
    decreases t
  {
    if t.Text? {
      CStringHasNoZero(t.bytes);
      if Whole(t) { CStringWhole(t.bytes); }
    } else {
      forall k | 0 <= k < |Items(t)|
        ensures Whole(Cut(Items(t)[k])) && (Cut(Items(t)[k]) == Items(t)[k] <==> Whole(Items(t)[k]))
      {
        CutIsWhole(Items(t)[k]);
      }
      assert |Items(Cut(t))| == |Items(t)|;
      assert forall k :: 0 <= k < |Items(t)| ==> Items(Cut(t))[k] == Cut(Items(t)[k]);
      if Whole(t) { assert Items(Cut(t)) == Items(t); }
    }
  }

  // The comparison over unbounded numbers

  /** What Compare boxes: the first difference, however large it is. */
  ghost function Exact(a: Tree, b: Tree): int
    decreases a, |Items(a)| + 1
  {
    if a.Int? then (if b.Int? then a.n - b.n else -1)
    else if b.Int? then 1
    else if a.Raw? then (if b.Raw? then a.address - b.address else 1)
    else if b.Raw? then -1
    else if Tag(a) != Tag(b) then Tag(a) - Tag(b)
    else if a.Text? then StrCmp(W.CString(a.bytes, 0), W.CString(b.bytes, 0))
    else if Label(a) != Label(b) then Label(a) - Label(b)
    else if |a.items| != |b.items| then |a.items| - |b.items|
    else ExactItems(a, b, 0)
  }

  ghost function ExactItems(a: Tree, b: Tree, i: nat): int
    requires |Items(a)| == |Items(b)| && i <= |Items(a)|
    decreases a, |Items(a)| - i
  {
    if i == |Items(a)| then 0
    else
      var c := Exact(Items(a)[i], Items(b)[i]);
      if c != 0 then c else ExactItems(a, b, i + 1)
  }

  lemma {:induction false} ExactReversed(a: Tree, b: Tree)
    ensures Exact(a, b) == -Exact(b, a)
    decreases a, |Items(a)| + 1
  {
    if a.Text? && b.Text? { StrCmpReversed(W.CString(a.bytes, 0), W.CString(b.bytes, 0)); }
    if |Items(a)| == |Items(b)| { ExactItemsReversed(a, b, 0); }
  }

  lemma {:induction false} ExactItemsReversed(a: Tree, b: Tree, i: nat)
    requires |Items(a)| == |Items(b)| && i <= |Items(a)|
    ensures ExactItems(a, b, i) == -ExactItems(b, a, i)
    decreases a, |Items(a)| - i
  {
    hide Exact;
    if i < |Items(a)| {
      ExactReversed(Items(a)[i], Items(b)[i]);
      ExactItemsReversed(a, b, i + 1);
    }
  }

  lemma {:induction false} ExactZero(a: Tree, b: Tree)
    ensures Exact(a, b) == 0 <==> Cut(a) == Cut(b)
    decreases a, |Items(a)| + 1
  {
    if a.Text? && b.Text? {
      StrCmpZero(W.CString(a.bytes, 0), W.CString(b.bytes, 0));
    } else if IsObject(a) && IsObject(b) {
      CutKeepsHead(a);
      CutKeepsHead(b);
      if !a.Text? && !b.Text? && Tag(a) == Tag(b) && Label(a) == Label(b) {
        CutItems(a, b);
        if |Items(a)| == |Items(b)| { ExactItemsZero(a, b, 0); }
      }
    }
  }

  lemma CutKeepsHead(t: Tree)
    ensures Tag(Cut(t)) == Tag(t) && Label(Cut(t)) == Label(t) && |Items(Cut(t))| == |Items(t)|
  {}

  lemma CutItems(a: Tree, b: Tree)
    requires IsObject(a) && IsObject(b) && !a.Text? && !b.Text? && Tag(a) == Tag(b) && Label(a) == Label(b)
    ensures Cut(a) == Cut(b) <==>
      |Items(a)| == |Items(b)| && forall k :: 0 <= k < |Items(a)| ==> Cut(Items(a)[k]) == Cut(Items(b)[k])
  {
    var x, y := Items(Cut(a)), Items(Cut(b));
    assert |x| == |Items(a)| && |y| == |Items(b)|;
    assert forall k :: 0 <= k < |x| ==> x[k] == Cut(Items(a)[k]);
    assert forall k :: 0 <= k < |y| ==> y[k] == Cut(Items(b)[k]);
    if |x| == |y| && forall k :: 0 <= k < |Items(a)| ==> Cut(Items(a)[k]) == Cut(Items(b)[k]) {
      assert x == y;
    }
    if Cut(a) == Cut(b) { assert x == y; }
  }

  lemma {:induction false} ExactItemsZero(a: Tree, b: Tree, i: nat)
    requires |Items(a)| == |Items(b)| && i <= |Items(a)|
    ensures ExactItems(a, b, i) == 0 <==> forall k :: i <= k < |Items(a)| ==> Cut(Items(a)[k]) == Cut(Items(b)[k])
    decreases a, |Items(a)| - i
  {
    hide Exact, Cut;
    if i < |Items(a)| {
      ExactZero(Items(a)[i], Items(b)[i]);
      ExactItemsZero(a, b, i + 1);
    }
  }

  /** The comparison sees of a value what is left when its texts are cut. */
  lemma {:induction false} ExactOfCut(a: Tree, b: Tree, c: Tree)
    requires Cut(a) == Cut(b)
    ensures Exact(a, c) == Exact(b, c)
    decreases a, |Items(a)| + 1
  {
    if IsObject(a) && !a.Text? && |Items(a)| == |Items(c)| {
      SameCutSameKind(a, b);
      ExactItemsOfCut(a, b, c, 0);
    } else if IsObject(a) && !a.Text? {
      SameCutSameKind(a, b);
    }
  }

  lemma SameCutSameKind(a: Tree, b: Tree)
    requires Cut(a) == Cut(b) && IsObject(a) && !a.Text?
    ensures IsObject(b) && !b.Text? && Tag(a) == Tag(b) && Label(a) == Label(b) && |Items(a)| == |Items(b)|
    ensures forall k :: 0 <= k < |Items(a)| ==> Cut(Items(a)[k]) == Cut(Items(b)[k])
  {
    CutKeepsHead(a);
    CutKeepsHead(b);
    CutItems(a, b);
  }

  lemma {:induction false} ExactItemsOfCut(a: Tree, b: Tree, c: Tree, i: nat)
    requires |Items(a)| == |Items(b)| == |Items(c)| && i <= |Items(a)|
    requires forall k :: 0 <= k < |Items(a)| ==> Cut(Items(a)[k]) == Cut(Items(b)[k])
    ensures ExactItems(a, c, i) == ExactItems(b, c, i)
    decreases a, |Items(a)| - i
  {
    hide Exact, Cut;
    if i < |Items(a)| {
      ExactOfCut(Items(a)[i], Items(b)[i], Items(c)[i]);
      ExactItemsOfCut(a, b, c, i + 1);
    }
  }

  lemma {:induction false} ExactTransitive(a: Tree, b: Tree, c: Tree)
    requires Exact(a, b) < 0 && Exact(b, c) < 0
    ensures Exact(a, c) < 0
    decreases a, |Items(a)| + 1
  {
    if a.Text? && b.Text? && c.Text? {
      StrCmpTransitive(W.CString(a.bytes, 0), W.CString(b.bytes, 0), W.CString(c.bytes, 0));
    } else if IsObject(a) && IsObject(b) && IsObject(c) && |Items(a)| == |Items(b)| == |Items(c)| {
      if ExactItems(a, b, 0) < 0 && ExactItems(b, c, 0) < 0 { ExactItemsTransitive(a, b, c, 0); }
    }
  }

  lemma {:induction false} ExactItemsTransitive(a: Tree, b: Tree, c: Tree, i: nat)
    requires |Items(a)| == |Items(b)| == |Items(c)| && i <= |Items(a)|
    requires ExactItems(a, b, i) < 0 && ExactItems(b, c, i) < 0
    ensures ExactItems(a, c, i) < 0
    decreases a, |Items(a)| - i
  {
    hide Exact, Cut;
    var x, y, z := Items(a)[i], Items(b)[i], Items(c)[i];
    if Exact(x, y) < 0 && Exact(y, z) < 0 {
      ExactTransitive(x, y, z);
    } else if Exact(x, y) == 0 {
      ExactZero(x, y);
      ExactOfCut(x, y, z);
      if Exact(y, z) == 0 { ExactItemsTransitive(a, b, c, i + 1); }
    } else {
      ExactZero(y, z);
      ExactReversed(x, y);
      ExactReversed(x, z);
      ExactOfCut(y, z, x);
    }
  }

  /** Over unbounded numbers comparison is a total preorder on all values, whose zero is
      equality up to what follows the first zero byte of a text. */
  lemma ExactIsPreorder(a: Tree, b: Tree, c: Tree)
    ensures Exact(a, b) == -Exact(b, a)
    ensures Exact(a, b) == 0 <==> Cut(a) == Cut(b)
    ensures Exact(a, b) <= 0 && Exact(b, c) <= 0 ==> Exact(a, c) <= 0
  {
    hide Exact, Cut;
    ExactReversed(a, b);
    ExactZero(a, b);
    ExactZero(b, c);
    if Exact(a, b) < 0 && Exact(b, c) < 0 {
      ExactTransitive(a, b, c);
    } else if Exact(a, b) == 0 {
      ExactOfCut(a, b, c);
    } else if Exact(b, c) == 0 {
      ExactReversed(c, a);
      ExactReversed(b, a);
      ExactOfCut(b, c, a);
    }
  }

  // What boxing does to it

  lemma BoxZero(x: int)
    requires -0x8000_0000_0000_0000 < x < 0x8000_0000_0000_0000
    ensures Box(x) == 0 <==> x == 0
  {}

  lemma BoxSign(x: int)
    requires -0x8000_0000_0000_0000 < x < 0x8000_0000_0000_0000
    ensures Sign(Box(x)) == Sign(x) <==> -0x4000_0000_0000_0000 <= x < 0x4000_0000_0000_0000
    ensures Sign(Box(x)) == -Sign(Box(-x)) <==> x != 0x4000_0000_0000_0000 && x != -0x4000_0000_0000_0000
  {}

  lemma {:induction false} CompareIsBoxed(a: Tree, b: Tree)
    requires Fits(a) && Fits(b)
    ensures -0x8000_0000_0000_0000 < Exact(a, b) < 0x8000_0000_0000_0000
    ensures Compare(a, b) == Box(Exact(a, b))
    decreases a, |Items(a)| + 1
  {
    hide Box;
    BoxOfSmall(-1);
    BoxOfSmall(0);
    BoxOfSmall(1);
    if a.Text? && b.Text? { StrCmpZero(W.CString(a.bytes, 0), W.CString(b.bytes, 0)); }
    if |Items(a)| == |Items(b)| { ItemsAreBoxed(a, b, 0); }
  }

  lemma {:induction false} ItemsAreBoxed(a: Tree, b: Tree, i: nat)
    requires |Items(a)| == |Items(b)| && i <= |Items(a)|
    requires forall k :: 0 <= k < |Items(a)| ==> Fits(Items(a)[k]) && Fits(Items(b)[k])
    ensures -0x8000_0000_0000_0000 < ExactItems(a, b, i) < 0x8000_0000_0000_0000
    ensures CompareItems(a, b, i) == Box(ExactItems(a, b, i))
    decreases a, |Items(a)| - i
  {
    hide Box, Exact, Compare, Fits;
    BoxOfSmall(0);
    if i < |Items(a)| {
      CompareIsBoxed(Items(a)[i], Items(b)[i]);
      BoxZero(Exact(Items(a)[i], Items(b)[i]));
      ItemsAreBoxed(a, b, i + 1);
    }
  }

  /** Zero means equal up to what follows a zero byte, and equal exactly where there is none. */
  lemma CompareZeroIff(a: Tree, b: Tree)
    requires Fits(a) && Fits(b)
    ensures Compare(a, b) == 0 <==> Cut(a) == Cut(b)
    ensures Whole(a) && Whole(b) ==> (Compare(a, b) == 0 <==> a == b)
  {
    hide Box, Exact, Cut, Compare, Fits, Whole;
    CompareIsBoxed(a, b);
    BoxZero(Exact(a, b));
    ExactZero(a, b);
    CutIsWhole(a);
    CutIsWhole(b);
  }

  /** The sign is right if and only if the first difference keeps to 63 bits, and it is turned
      when the values change places if and only if the difference is not exactly 2^62. */
  lemma CompareRightIff(a: Tree, b: Tree)
    requires Fits(a) && Fits(b)
    ensures Sign(Compare(a, b)) == Sign(Exact(a, b)) <==>
      -0x4000_0000_0000_0000 <= Exact(a, b) < 0x4000_0000_0000_0000
    ensures Sign(Compare(a, b)) == -Sign(Compare(b, a)) <==>
      Exact(a, b) != 0x4000_0000_0000_0000 && Exact(a, b) != -0x4000_0000_0000_0000
  {
    hide Box, Exact, Compare, Fits;
    CompareIsBoxed(a, b);
    CompareIsBoxed(b, a);
    ExactReversed(a, b);
    BoxSign(Exact(a, b));
  }

  ghost predicate OrdersInterval(lo: int, hi: int) {
    forall x, y, z :: lo <= x <= hi && lo <= y <= hi && lo <= z <= hi ==>
      && Sign(Compare(Int(x), Int(y))) == -Sign(Compare(Int(y), Int(x)))
      && (Compare(Int(x), Int(y)) <= 0 && Compare(Int(y), Int(z)) <= 0 ==> Compare(Int(x), Int(z)) <= 0)
  }

  /** The immediates of an interval are ordered if and only if it spans less than 2^62. */
  lemma IntervalOrderedIff(lo: int, hi: int)
    requires -0x4000_0000_0000_0000 <= lo <= hi < 0x4000_0000_0000_0000
    ensures OrdersInterval(lo, hi) <==> hi - lo < 0x4000_0000_0000_0000
  {
    hide Box;
    if hi - lo < 0x4000_0000_0000_0000 {
      forall x, y | lo <= x <= hi && lo <= y <= hi ensures Compare(Int(x), Int(y)) == x - y {
        BoxOfSmall(x - y);
      }
    } else {
      var y := lo + 0x4000_0000_0000_0000;
      CompareRightIff(Int(lo), Int(y));
      assert Exact(Int(lo), Int(y)) == lo - y;
    }
  }

  lemma {:induction false} OrdinaryFits(a: Tree, b: Tree)
    requires Ordinary(a) && Ordinary(b)
    ensures Fits(a) && Fits(b)
    ensures -0x4000_0000_0000_0000 < Exact(a, b) < 0x4000_0000_0000_0000
    decreases a, |Items(a)| + 1
  {
    OrdinaryIsFit(a);
    OrdinaryIsFit(b);
    if a.Text? && b.Text? { StrCmpZero(W.CString(a.bytes, 0), W.CString(b.bytes, 0)); }
    if |Items(a)| == |Items(b)| { OrdinaryItemsFit(a, b, 0); }
  }

  lemma {:induction false} OrdinaryIsFit(t: Tree)
    requires Ordinary(t)
    ensures Fits(t)
    decreases t
  {
    forall k | 0 <= k < |Items(t)| ensures Fits(Items(t)[k]) { OrdinaryIsFit(Items(t)[k]); }
  }

  lemma {:induction false} OrdinaryItemsFit(a: Tree, b: Tree, i: nat)
    requires |Items(a)| == |Items(b)| && i <= |Items(a)|
    requires forall k :: 0 <= k < |Items(a)| ==> Ordinary(Items(a)[k]) && Ordinary(Items(b)[k])
    ensures -0x4000_0000_0000_0000 < ExactItems(a, b, i) < 0x4000_0000_0000_0000
    decreases a, |Items(a)| - i
  {
    hide Exact, Ordinary, Fits;
    if i < |Items(a)| {
      OrdinaryFits(Items(a)[i], Items(b)[i]);
      OrdinaryItemsFit(a, b, i + 1);
    }
  }

  /** On ordinary values, whatever their texts hold, comparison is a total preorder. */
  lemma CompareIsTotalOrder(a: Tree, b: Tree, c: Tree)
    requires Ordinary(a) && Ordinary(b) && Ordinary(c)
    ensures Sign(Compare(a, b)) == -Sign(Compare(b, a))
    ensures Compare(a, b) == 0 <==> Cut(a) == Cut(b)
    ensures Compare(a, b) <= 0 && Compare(b, c) <= 0 ==> Compare(a, c) <= 0
  {
    hide Exact, Cut, Compare, Ordinary, Fits, Whole;
    OrdinaryFits(a, b);
    OrdinaryFits(b, c);
    OrdinaryFits(a, c);
    CompareRightIff(a, b);
    CompareRightIff(b, c);
    CompareRightIff(a, c);
    CompareZeroIff(a, b);
    ExactIsPreorder(a, b, c);
  }

  // The order by positions, without the comparison over unbounded numbers

  /** strcmp: a is a proper prefix, or smaller at the first byte in which the two differ. */
  lemma {:induction false} StrCmpIff(a: seq<Byte>, b: seq<Byte>)
    ensures StrCmp(a, b) < 0 <==> W.Precedes(a, b)
    decreases |a|
  {
    if a == [] || b == [] || a[0] != b[0] {
      if StrCmp(a, b) < 0 { assert W.DiffersAt(a, b, 0); }
    } else {
      StrCmpIff(a[1..], b[1..]);
      W.PrecedesAfter(a[0], a[1..], b[1..]);
      assert a == [a[0]] + a[1..] && b == [b[0]] + b[1..];
    }
  }

  ghost predicate SameItemsBefore(a: Tree, b: Tree, k: nat)
    requires |Items(a)| == |Items(b)| && k <= |Items(a)|
  {
    forall j :: 0 <= j < k ==> Compare(Items(a)[j], Items(b)[j]) == 0
  }

  lemma {:induction false} FirstItemDecides(a: Tree, b: Tree, i: nat, k: nat)
    requires |Items(a)| == |Items(b)| && i <= k <= |Items(a)| && SameItemsBefore(a, b, k)
    ensures CompareItems(a, b, i) == if k == |Items(a)| then 0 else CompareItems(a, b, k)
    decreases k - i
  {
    hide Compare;
    if i < k { FirstItemDecides(a, b, i + 1, k); }
  }

  /** Which comes first, of immediates and references: immediates, then strings, arrays,
      S-expressions and closures, then addresses outside the heap. */
  lemma KindsInOrder(a: Tree, b: Tree)
    ensures a.Int? && !b.Int? ==> Compare(a, b) < 0 && Compare(b, a) > 0
    ensures IsObject(a) && b.Raw? ==> Compare(a, b) < 0 && Compare(b, a) > 0
    ensures a.Text? && (b.Array? || b.Sexp? || b.Closure?) ==> Compare(a, b) < 0 && Compare(b, a) > 0
    ensures a.Array? && (b.Sexp? || b.Closure?) ==> Compare(a, b) < 0 && Compare(b, a) > 0
    ensures a.Sexp? && b.Closure? ==> Compare(a, b) < 0 && Compare(b, a) > 0
  {}

  /** Numbers compare as numbers, texts by the first byte in which they differ before a zero. */
  lemma LeavesInOrder(a: Tree, b: Tree)
    requires Ordinary(a) && Ordinary(b)
    ensures a.Int? && b.Int? ==> Sign(Compare(a, b)) == Sign(a.n - b.n)
    ensures a.Raw? && b.Raw? ==> Sign(Compare(a, b)) == Sign(a.address - b.address)
    ensures a.Text? && b.Text? ==>
      && (Compare(a, b) < 0 <==> W.Precedes(W.CString(a.bytes, 0), W.CString(b.bytes, 0)))
      && (Compare(a, b) > 0 <==> W.Precedes(W.CString(b.bytes, 0), W.CString(a.bytes, 0)))
  {
    hide Box;
    if a.Int? && b.Int? { BoxOfSmall(a.n - b.n); }
    if a.Raw? && b.Raw? { BoxOfSmall(a.address - b.address); }
    if a.Text? && b.Text? {
      StrCmpIff(W.CString(a.bytes, 0), W.CString(b.bytes, 0));
      StrCmpIff(W.CString(b.bytes, 0), W.CString(a.bytes, 0));
      StrCmpReversed(W.CString(a.bytes, 0), W.CString(b.bytes, 0));
    }
  }

  ghost predicate SameConstructor(a: Tree, b: Tree) {
    (a.Array? && b.Array?) || (a.Sexp? && b.Sexp?) || (a.Closure? && b.Closure?)
  }

  /** Two objects of a kind: the tag or the code decides, then the length, then the first item
      in which they differ. */
  lemma ObjectsInOrder(a: Tree, b: Tree)
    requires Ordinary(a) && Ordinary(b) && SameConstructor(a, b)
    ensures a.Sexp? && a.tag != b.tag ==> Sign(Compare(a, b)) == Sign(a.tag - b.tag)
    ensures a.Closure? && a.code != b.code ==> Sign(Compare(a, b)) == Sign(a.code - b.code)
    ensures (a.Sexp? ==> a.tag == b.tag) && (a.Closure? ==> a.code == b.code) && |a.items| != |b.items| ==>
      Sign(Compare(a, b)) == Sign(|a.items| - |b.items|)
    ensures (a.Sexp? ==> a.tag == b.tag) && (a.Closure? ==> a.code == b.code) && |a.items| == |b.items| ==>
      && (SameItemsBefore(a, b, |a.items|) ==> Compare(a, b) == 0)
      && forall k: nat :: k < |a.items| && SameItemsBefore(a, b, k) && Compare(a.items[k], b.items[k]) != 0 ==>
           Compare(a, b) == Compare(a.items[k], b.items[k])
  {
    hide Box, SameItemsBefore;
    BoxOfSmall(Label(a) - Label(b));
    BoxOfSmall(|a.items| - |b.items|);
    if Label(a) == Label(b) && |a.items| == |b.items| {
      if SameItemsBefore(a, b, |a.items|) { FirstItemDecides(a, b, 0, |a.items|); }
      forall k: nat | k < |a.items| && SameItemsBefore(a, b, k) && Compare(a.items[k], b.items[k]) != 0
        ensures Compare(a, b) == Compare(a.items[k], b.items[k])
      {
        FirstItemDecides(a, b, 0, k);
      }
    }
  }
}
