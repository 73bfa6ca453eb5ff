/** Sorting and counting idioms (Assignment03/src/idiom_analyzer.cpp:33-72, 155-174).

    The orders that std::sort leaves its input in are parameters: any permutation that is
    sorted by the comparator, which std::sort demands to be a strict weak order. */
module IdiomRanking {
  import opened Bytecode
  import opened InstructionGraph
  import opened IdiomProcessors
  import W = IdiomSweep
  import Words

  // The bytes of an idiom

  predicate Decodes(code: seq<Byte>, pos: nat, size: nat)
    decreases size
  {
    size == 0 ||
    (pos < |code| && Disassemble(code, pos).Ok? && Disassemble(code, pos).value >= 1
     && pos + Disassemble(code, pos).value <= |code| && Decodes(code, pos + Disassemble(code, pos).value, size - 1))
  }

  function Span(code: seq<Byte>, pos: nat, size: nat): (n: nat)
    requires Decodes(code, pos, size) && pos <= |code|
    ensures pos + n <= |code|
    decreases size
  {
    hide Disassemble;
    if size == 0 then 0
    else
      var length := Disassemble(code, pos).value;
      length + Span(code, pos + length, size - 1)
  }

  predicate Inside(code: seq<Byte>, i: Idiom) {
    i.pos <= |code| && Decodes(code, i.pos, i.size)
  }

  function Bytes(code: seq<Byte>, i: Idiom): seq<Byte>
    requires Inside(code, i)
  {
    code[i.pos..i.pos + Span(code, i.pos, i.size)]
  }

  method SpanOf(code: seq<Byte>, i: Idiom) returns (length: nat)
    requires Inside(code, i)
    ensures length == Span(code, i.pos, i.size)
  {
    hide Disassemble;
    length := 0;
    var k := 0;
    while k < i.size
      invariant 0 <= k <= i.size && i.pos + length <= |code| && Decodes(code, i.pos + length, i.size - k)
      invariant length + Span(code, i.pos + length, i.size - k) == Span(code, i.pos, i.size)
    {
      length := length + Disassemble(code, i.pos + length).value;
      k := k + 1;
    }
  }

  // The orders

  predicate LexLess(a: seq<Byte>, b: seq<Byte>)
    decreases |a|
  {
    if b == [] then false
    else if a == [] then true
    else a[0] < b[0] || (a[0] == b[0] && LexLess(a[1..], b[1..]))
  }

  predicate Less(code: seq<Byte>, i: Idiom, j: Idiom)
    requires Inside(code, i) && Inside(code, j)
  {
    i.size < j.size || (i.size == j.size && LexLess(Bytes(code, i), Bytes(code, j)))
  }

  predicate Same(code: seq<Byte>, i: Idiom, j: Idiom)
    requires Inside(code, i) && Inside(code, j)
  {
    i.size == j.size && Bytes(code, i) == Bytes(code, j)
  }

  lemma {:induction false} LexIrreflexive(a: seq<Byte>)
    ensures !LexLess(a, a)
    decreases |a|
  {
    if a != [] { LexIrreflexive(a[1..]); }
  }

  lemma {:induction false} LexTransitive(a: seq<Byte>, b: seq<Byte>, c: seq<Byte>)
    requires LexLess(a, b) && LexLess(b, c)
    ensures LexLess(a, c)
    decreases |a|
  {
    if a != [] && a[0] == b[0] && b[0] == c[0] { LexTransitive(a[1..], b[1..], c[1..]); }
  }

  lemma {:induction false} LexTotal(a: seq<Byte>, b: seq<Byte>)
    ensures LexLess(a, b) || LexLess(b, a) || a == b
    decreases |a|
  {
    if a != [] && b != [] && a[0] == b[0] {
      LexTotal(a[1..], b[1..]);
      if a[1..] == b[1..] { assert a == [a[0]] + a[1..] && b == [b[0]] + b[1..]; }
    }
  }

  /** The comparator is a strict weak order, and what it cannot tell apart is equal. */
  lemma LessIsStrictWeakOrder(code: seq<Byte>, i: Idiom, j: Idiom, k: Idiom)
    requires Inside(code, i) && Inside(code, j) && Inside(code, k)
    ensures !Less(code, i, i)
    ensures Less(code, i, j) && Less(code, j, k) ==> Less(code, i, k)
    ensures Same(code, i, j) <==> !Less(code, i, j) && !Less(code, j, i)
    ensures Less(code, i, j) && Same(code, j, k) ==> Less(code, i, k)
    ensures Same(code, i, j) && Less(code, j, k) ==> Less(code, i, k)
  {
    hide Inside, Bytes;
    LexIrreflexive(Bytes(code, i));
    LexTotal(Bytes(code, i), Bytes(code, j));
    if LexLess(Bytes(code, i), Bytes(code, j)) && LexLess(Bytes(code, j), Bytes(code, k)) {
      LexTransitive(Bytes(code, i), Bytes(code, j), Bytes(code, k));
    }
    if LexLess(Bytes(code, i), Bytes(code, j)) && LexLess(Bytes(code, j), Bytes(code, i)) {
      LexTransitive(Bytes(code, i), Bytes(code, j), Bytes(code, i));
    }
  }

  /** The order of the bytes, by positions. */
  lemma {:induction false} LexLessIff(a: seq<Byte>, b: seq<Byte>)
    ensures LexLess(a, b) <==> Words.Precedes(a, b)
    decreases |a|
  {
    if a == [] || b == [] || a[0] != b[0] {
      if LexLess(a, b) { assert Words.DiffersAt(a, b, 0); }
    } else {
      LexLessIff(a[1..], b[1..]);
      Words.PrecedesAfter(a[0], a[1..], b[1..]);
      assert a == [a[0]] + a[1..] && b == [b[0]] + b[1..];
    }
  }

  /** One or two instructions, to the end of the last. */
  lemma SpanIs(code: seq<Byte>, i: Idiom)
    requires Inside(code, i) && 1 <= i.size <= 2
    ensures i.pos < |code| && Disassemble(code, i.pos).Ok?
    ensures var next := i.pos + Disassemble(code, i.pos).value;
      && (i.size == 1 ==> i.pos + Span(code, i.pos, i.size) == next)
      && (i.size == 2 ==>
           && 0 <= next < |code| && Disassemble(code, next).Ok?
           && i.pos + Span(code, i.pos, i.size) == next + Disassemble(code, next).value)
  {
    hide Disassemble;
  }

  // Counting runs

  datatype Ranked = Ranked(frequency: nat, idiom: Idiom)

  ghost predicate AllInside(code: seq<Byte>, s: seq<Idiom>) {
    forall i :: 0 <= i < |s| ==> Inside(code, s[i])
  }

  ghost predicate Sorted(code: seq<Byte>, s: seq<Idiom>)
    requires AllInside(code, s)
  {
    forall i, j :: 0 <= i < j < |s| ==> !Less(code, s[j], s[i])
  }

  /** Neighbours that are the same are one run, represented by its last element. */
  ghost function Runs(code: seq<Byte>, s: seq<Idiom>): (r: seq<Ranked>)
    requires AllInside(code, s) && s != []
    ensures r != [] && r[|r| - 1].idiom == s[|s| - 1]
    decreases |s|
  {
    hide Inside, Same;
    var n := |s| - 1;
    if n == 0 then [Ranked(1, s[0])]
    else
      var r := Runs(code, s[..n]);
      if Same(code, s[n - 1], s[n]) then r[..|r| - 1] + [Ranked(r[|r| - 1].frequency + 1, s[n])]
      else r + [Ranked(1, s[n])]
  }

  lemma RunsExtend(code: seq<Byte>, s: seq<Idiom>, i: nat)
    requires AllInside(code, s) && 0 < i < |s|
    ensures AllInside(code, s[..i]) && AllInside(code, s[..i + 1])
    ensures var r := Runs(code, s[..i]);
      Runs(code, s[..i + 1]) ==
      if Same(code, s[i - 1], s[i])
      then r[..|r| - 1] + [Ranked(r[|r| - 1].frequency + 1, s[i])]
      else r + [Ranked(1, s[i])]
  {
    hide Inside, Same;
    assert s[..i + 1][..i] == s[..i];
  }

  lemma RunsOfOne(code: seq<Byte>, s: seq<Idiom>)
    requires AllInside(code, s) && s != []
    ensures AllInside(code, s[..1]) && Runs(code, s[..1]) == [Ranked(1, s[0])] && s[..|s|] == s
  {}

  /** Stuck: there is no last idiom to report. */
  method CountRuns(code: seq<Byte>, s: seq<Idiom>) returns (r: Result<seq<Ranked>>)
    requires AllInside(code, s)
    ensures if s == [] then r == Stuck else r == Ok(Runs(code, s))
  {
    hide Inside, Same, Runs;
    if s == [] { return Stuck; }
    RunsOfOne(code, s);
    var ranked: seq<Ranked> := [];
    var frequency, i := 1, 1;
    while i < |s|
      invariant 1 <= i <= |s| && AllInside(code, s[..i])
      invariant Runs(code, s[..i]) == ranked + [Ranked(frequency, s[i - 1])]
    {
      RunsExtend(code, s, i);
      assert s[i - 1] in s && s[i] in s;
      if Same(code, s[i - 1], s[i]) {
        frequency := frequency + 1;
      } else {
        ranked := ranked + [Ranked(frequency, s[i - 1])];
        frequency := 1;
      }
      i := i + 1;
    }
    r := Ok(ranked + [Ranked(frequency, s[|s| - 1])]);
  }

  // What the counts mean

  /** How many idioms of s are the same as i. */
  ghost function Multiplicity(code: seq<Byte>, s: seq<Idiom>, i: Idiom): nat
    requires AllInside(code, s) && Inside(code, i)
    decreases |s|
  {
    hide Inside, Same;
    if s == [] then 0
    else Multiplicity(code, s[..|s| - 1], i) + if Same(code, s[|s| - 1], i) then 1 else 0
  }

  ghost function Total(r: seq<Ranked>): nat
    decreases |r|
  {
    if r == [] then 0 else Total(r[..|r| - 1]) + r[|r| - 1].frequency
  }

  /** The runs: increasing, from s, each counted exactly, and none forgotten. */
  ghost predicate Exact(code: seq<Byte>, s: seq<Idiom>, r: seq<Ranked>)
    requires AllInside(code, s)
  {
    && (forall k :: 0 <= k < |r| ==> Inside(code, r[k].idiom) && r[k].frequency == Multiplicity(code, s, r[k].idiom))
    && (forall k, l :: 0 <= k < l < |r| ==> Less(code, r[k].idiom, r[l].idiom))
    && (forall i :: 0 <= i < |s| ==> exists k :: 0 <= k < |r| && Same(code, s[i], r[k].idiom))
    && Total(r) == |s|
  }

  lemma {:induction false} MultiplicityOfSame(code: seq<Byte>, s: seq<Idiom>, i: Idiom, j: Idiom)
    requires AllInside(code, s) && Inside(code, i) && Inside(code, j) && Same(code, i, j)
    ensures Multiplicity(code, s, i) == Multiplicity(code, s, j)
    decreases |s|
  {
    hide Inside;
    if s != [] {
      assert s[|s| - 1] in s;
      MultiplicityOfSame(code, s[..|s| - 1], i, j);
    }
  }

  lemma {:induction false} MultiplicityOfNone(code: seq<Byte>, s: seq<Idiom>, i: Idiom)
    requires AllInside(code, s) && Inside(code, i) && forall k :: 0 <= k < |s| ==> !Same(code, s[k], i)
    ensures Multiplicity(code, s, i) == 0
    decreases |s|
  {
    hide Inside, Same;
    if s != [] { MultiplicityOfNone(code, s[..|s| - 1], i); }
  }

  lemma TotalExtends(r: seq<Ranked>, x: Ranked)
    ensures Total(r + [x]) == Total(r) + x.frequency
  {
    assert (r + [x])[..|r|] == r;
  }

  lemma MultiplicityExtends(code: seq<Byte>, s: seq<Idiom>, i: Idiom)
    requires AllInside(code, s) && s != [] && Inside(code, i)
    ensures AllInside(code, s[..|s| - 1])
    ensures Multiplicity(code, s, i) == Multiplicity(code, s[..|s| - 1], i) + if Same(code, s[|s| - 1], i) then 1 else 0
  {
    hide Inside, Same;
  }

  lemma SameRun(code: seq<Byte>, s: seq<Idiom>, r: seq<Ranked>)
    requires AllInside(code, s) && |s| > 1 && r != [] && AllInside(code, s[..|s| - 1]) && Exact(code, s[..|s| - 1], r)
    requires r[|r| - 1].idiom == s[|s| - 2] && Same(code, s[|s| - 2], s[|s| - 1])
    ensures Exact(code, s, r[..|r| - 1] + [Ranked(r[|r| - 1].frequency + 1, s[|s| - 1])])
  {
    hide Inside, Same, Less, Multiplicity;
    var n, m := |s| - 1, |r| - 1;
    var p, x := s[..n], s[n];
    var t := r[..m] + [Ranked(r[m].frequency + 1, x)];
    forall k | 0 <= k < m ensures Less(code, r[k].idiom, x) && t[k].frequency == Multiplicity(code, s, t[k].idiom) {
      LessIsStrictWeakOrder(code, r[k].idiom, r[m].idiom, x);
      LessIsStrictWeakOrder(code, x, r[k].idiom, x);
      LessIsStrictWeakOrder(code, r[k].idiom, x, r[k].idiom);
      MultiplicityExtends(code, s, r[k].idiom);
    }
    LessIsStrictWeakOrder(code, x, x, x);
    MultiplicityExtends(code, s, x);
    MultiplicityOfSame(code, p, r[m].idiom, x);
    forall i | 0 <= i < |s| ensures exists k :: 0 <= k < |t| && Same(code, s[i], t[k].idiom) {
      if i == n { assert Same(code, s[i], t[m].idiom); }
      else {
        var k :| 0 <= k < |r| && Same(code, p[i], r[k].idiom);
        if k == m { SameTwice(code, s[i], r[m].idiom, x); }
        assert Same(code, s[i], t[k].idiom);
      }
    }
    TotalExtends(r[..m], t[m]);
    TotalExtends(r[..m], r[m]);
    assert r[..m] + [r[m]] == r;
  }

  lemma SameTwice(code: seq<Byte>, i: Idiom, j: Idiom, k: Idiom)
    requires Inside(code, i) && Inside(code, j) && Inside(code, k) && Same(code, i, j) && Same(code, j, k)
    ensures Same(code, i, k)
  {}

  lemma NewRun(code: seq<Byte>, s: seq<Idiom>, r: seq<Ranked>)
    requires AllInside(code, s) && |s| > 1 && r != [] && AllInside(code, s[..|s| - 1]) && Exact(code, s[..|s| - 1], r)
    requires Sorted(code, s) && r[|r| - 1].idiom == s[|s| - 2] && !Same(code, s[|s| - 2], s[|s| - 1])
    ensures Exact(code, s, r + [Ranked(1, s[|s| - 1])])
  {
    hide Inside, Same, Less, Multiplicity;
    var n, m := |s| - 1, |r| - 1;
    var p, x := s[..n], s[n];
    var t := r + [Ranked(1, x)];
    LessIsStrictWeakOrder(code, s[n - 1], x, x);
    forall i | 0 <= i < n ensures !Same(code, p[i], x) {
      Between(code, s[i], s[n - 1], x);
    }
    MultiplicityOfNone(code, p, x);
    MultiplicityExtends(code, s, x);
    LessIsStrictWeakOrder(code, x, x, x);
    forall k | 0 <= k <= m ensures Less(code, r[k].idiom, x) && r[k].frequency == Multiplicity(code, s, r[k].idiom) {
      if k < m { LessIsStrictWeakOrder(code, r[k].idiom, r[m].idiom, x); }
      LessIsStrictWeakOrder(code, x, r[k].idiom, x);
      LessIsStrictWeakOrder(code, r[k].idiom, x, r[k].idiom);
      MultiplicityExtends(code, s, r[k].idiom);
    }
    forall i | 0 <= i < |s| ensures exists k :: 0 <= k < |t| && Same(code, s[i], t[k].idiom) {
      if i == n { assert Same(code, s[i], t[m + 1].idiom); }
      else {
        var k :| 0 <= k < |r| && Same(code, p[i], r[k].idiom);
        assert Same(code, s[i], t[k].idiom);
      }
    }
    TotalExtends(r, t[m + 1]);
  }

  /** What is no greater than j is not the same as k, if j is less than k. */
  lemma Between(code: seq<Byte>, i: Idiom, j: Idiom, k: Idiom)
    requires Inside(code, i) && Inside(code, j) && Inside(code, k) && (i == j || !Less(code, j, i)) && Less(code, j, k)
    ensures !Same(code, i, k)
  {
    hide Inside, Bytes;
    LexIrreflexive(Bytes(code, k));
  }

  /** Counting the runs of a sorted list counts every idiom exactly. */
  lemma {:induction false} RunsAreExact(code: seq<Byte>, s: seq<Idiom>)
    requires AllInside(code, s) && s != [] && Sorted(code, s)
    ensures Exact(code, s, Runs(code, s))
    decreases |s|
  {
    hide Inside, Same, Less;
    var n := |s| - 1;
    if n == 0 {
      OneRun(code, s);
    } else {
      RunsAreExact(code, s[..n]);
      if Same(code, s[n - 1], s[n]) { SameRun(code, s, Runs(code, s[..n])); }
      else { NewRun(code, s, Runs(code, s[..n])); }
    }
  }

  lemma OneRun(code: seq<Byte>, s: seq<Idiom>)
    requires AllInside(code, s) && |s| == 1
    ensures Exact(code, s, [Ranked(1, s[0])])
  {
    hide Inside, Same, Less;
    var r := [Ranked(1, s[0])];
    LessIsStrictWeakOrder(code, s[0], s[0], s[0]);
    MultiplicityExtends(code, s, s[0]);
    TotalExtends([], r[0]);
    assert [] + [r[0]] == r;
    assert Same(code, s[0], r[0].idiom);
  }

  // The report

  predicate RankedLess(code: seq<Byte>, x: Ranked, y: Ranked)
    requires Inside(code, x.idiom) && Inside(code, y.idiom)
  {
    x.frequency > y.frequency || (x.frequency == y.frequency && Less(code, x.idiom, y.idiom))
  }

  /** What sort_idioms returns: the runs of some sorted order, themselves sorted. */
  ghost predicate Report(code: seq<Byte>, idioms: seq<Idiom>, sorted: seq<Idiom>, report: seq<Ranked>) {
    && AllInside(code, idioms) && AllInside(code, sorted) && sorted != []
    && multiset(sorted) == multiset(idioms) && Sorted(code, sorted)
    && multiset(report) == multiset(Runs(code, sorted))
    && (forall k :: 0 <= k < |report| ==> Inside(code, report[k].idiom))
    && forall k, l :: 0 <= k < l < |report| ==> !RankedLess(code, report[l], report[k])
  }

  lemma RemoveLast<T>(s: seq<T>, t: seq<T>) returns (k: nat)
    requires multiset(s) == multiset(t) && s != []
    ensures |s| == |t| && k < |t| && t[k] == s[|s| - 1] && multiset(s[..|s| - 1]) == multiset(t[..k] + t[k + 1..])
  {
    var x := s[|s| - 1];
    assert |s| == |multiset(s)| == |multiset(t)| == |t|;
    assert x in multiset(t);
    k :| 0 <= k < |t| && t[k] == x;
    assert s == s[..|s| - 1] + [x];
    assert t == t[..k] + [x] + t[k + 1..];
    assert multiset(s) == multiset(s[..|s| - 1]) + multiset{x};
    assert multiset(t) == multiset(t[..k] + t[k + 1..]) + multiset{x};
    assert multiset(s[..|s| - 1]) == multiset(s) - multiset{x};
    assert multiset(t[..k] + t[k + 1..]) == multiset(t) - multiset{x};
  }

  lemma {:induction false} MultiplicityPermutes(code: seq<Byte>, s: seq<Idiom>, t: seq<Idiom>, i: Idiom)
    requires AllInside(code, s) && AllInside(code, t) && Inside(code, i) && multiset(s) == multiset(t)
    ensures Multiplicity(code, s, i) == Multiplicity(code, t, i)
    decreases |s|
  {
    hide Inside, Same;
    if s == [] {
      assert |t| == |multiset(t)| == 0;
    } else {
      var k := RemoveLast(s, t);
      MultiplicityWithout(code, t, k, i);
      MultiplicityPermutes(code, s[..|s| - 1], t[..k] + t[k + 1..], i);
    }
  }

  lemma {:induction false} MultiplicityWithout(code: seq<Byte>, t: seq<Idiom>, k: nat, i: Idiom)
    requires AllInside(code, t) && k < |t| && Inside(code, i)
    ensures AllInside(code, t[..k] + t[k + 1..])
    ensures Multiplicity(code, t, i) ==
      Multiplicity(code, t[..k] + t[k + 1..], i) + if Same(code, t[k], i) then 1 else 0
    decreases |t|
  {
    hide Inside, Same;
    var n := |t| - 1;
    if k == n {
      assert t[..k] + t[k + 1..] == t[..n];
    } else {
      MultiplicityWithout(code, t[..n], k, i);
      assert (t[..k] + t[k + 1..])[..n - 1] == t[..n][..k] + t[..n][k + 1..];
    }
  }

  lemma {:induction false} TotalPermutes(r: seq<Ranked>, t: seq<Ranked>)
    requires multiset(r) == multiset(t)
    ensures Total(r) == Total(t)
    decreases |r|
  {
    if r == [] {
      assert |t| == |multiset(t)| == 0;
    } else {
      var k := RemoveLast(r, t);
      TotalWithout(t, k);
      TotalPermutes(r[..|r| - 1], t[..k] + t[k + 1..]);
    }
  }

  lemma {:induction false} TotalWithout(t: seq<Ranked>, k: nat)
    requires k < |t|
    ensures Total(t) == Total(t[..k] + t[k + 1..]) + t[k].frequency
    decreases |t|
  {
    var n := |t| - 1;
    if k == n {
      assert t[..k] + t[k + 1..] == t[..n];
    } else {
      TotalWithout(t[..n], k);
      assert (t[..k] + t[k + 1..])[..n - 1] == t[..n][..k] + t[..n][k + 1..];
    }
  }

  /** The positions in a list at which the bytes of an idiom stand. */
  ghost function Occurrences(code: seq<Byte>, s: seq<Idiom>, i: Idiom): set<nat>
    requires AllInside(code, s) && Inside(code, i)
  {
    set j: nat | j < |s| && s[j].size == i.size &&
      code[s[j].pos..s[j].pos + Span(code, s[j].pos, s[j].size)] == code[i.pos..i.pos + Span(code, i.pos, i.size)]
  }

  lemma {:induction false} MultiplicityCounts(code: seq<Byte>, s: seq<Idiom>, i: Idiom)
    requires AllInside(code, s) && Inside(code, i)
    ensures Multiplicity(code, s, i) == |Occurrences(code, s, i)|
    decreases |s|
  {
    hide Inside, Same, Occurrences;
    if s == [] {
      NoOccurrence(code, i);
    } else {
      var n := |s| - 1;
      MultiplicityCounts(code, s[..n], i);
      OneMoreOccurrence(code, s, i);
      MultiplicityExtends(code, s, i);
    }
  }

  lemma NoOccurrence(code: seq<Byte>, i: Idiom)
    requires Inside(code, i)
    ensures Occurrences(code, [], i) == {}
  {}

  lemma OneMoreOccurrence(code: seq<Byte>, s: seq<Idiom>, i: Idiom)
    requires AllInside(code, s) && Inside(code, i) && s != []
    ensures var n := |s| - 1;
      && n !in Occurrences(code, s[..n], i)
      && Occurrences(code, s, i) == Occurrences(code, s[..n], i) + if Same(code, s[n], i) then {n} else {}
  {
    hide Inside, Span;
  }

  /** The more frequent first, then the shorter, then the one whose bytes come first. */
  ghost predicate InOrder(code: seq<Byte>, x: Ranked, y: Ranked)
    requires Inside(code, x.idiom) && Inside(code, y.idiom)
  {
    var i, j := x.idiom, y.idiom;
    && x.frequency >= y.frequency
    && (x.frequency == y.frequency ==> i.size <= j.size)
    && (x.frequency == y.frequency && i.size == j.size ==>
         Words.Precedes(code[i.pos..i.pos + Span(code, i.pos, i.size)], code[j.pos..j.pos + Span(code, j.pos, j.size)]))
  }

  lemma RankedLessInOrder(code: seq<Byte>, x: Ranked, y: Ranked)
    requires Inside(code, x.idiom) && Inside(code, y.idiom) && RankedLess(code, x, y)
    ensures InOrder(code, x, y)
  {
    hide Inside;
    LexLessIff(Bytes(code, x.idiom), Bytes(code, y.idiom));
  }

  /** Whatever sorted orders were picked: the reported idioms are pairwise different, with
      exactly their multiplicities among the collected ones, which add up to all of them;
      every collected idiom is reported; most frequent first, then in the comparator's order. */
  lemma ReportIsCorrect(code: seq<Byte>, idioms: seq<Idiom>, sorted: seq<Idiom>, report: seq<Ranked>)
    requires Report(code, idioms, sorted, report)
    ensures forall k, l :: 0 <= k < l < |report| ==> !Same(code, report[k].idiom, report[l].idiom)
    ensures forall k :: 0 <= k < |report| ==> report[k].frequency == |Occurrences(code, idioms, report[k].idiom)|
    ensures Total(report) == |idioms|
    ensures forall i :: 0 <= i < |idioms| ==> exists k :: 0 <= k < |report| && Same(code, idioms[i], report[k].idiom)
    ensures forall k, l :: 0 <= k < l < |report| ==> InOrder(code, report[k], report[l])
  {
    hide Inside, Same, Less, Multiplicity, Runs, InOrder, Occurrences;
    var runs := Runs(code, sorted);
    RunsAreExact(code, sorted);
    TotalPermutes(report, runs);
    assert |sorted| == |multiset(sorted)| == |multiset(idioms)| == |idioms|;
    forall k | 0 <= k < |report|
      ensures report[k].frequency == |Occurrences(code, idioms, report[k].idiom)|
    {
      assert report[k] in multiset(runs);
      MultiplicityPermutes(code, sorted, idioms, report[k].idiom);
      MultiplicityCounts(code, idioms, report[k].idiom);
    }
    forall i | 0 <= i < |idioms| ensures exists k :: 0 <= k < |report| && Same(code, idioms[i], report[k].idiom) {
      assert idioms[i] in multiset(sorted);
      var j :| 0 <= j < |sorted| && sorted[j] == idioms[i];
      var l :| 0 <= l < |runs| && Same(code, sorted[j], runs[l].idiom);
      assert runs[l] in multiset(report);
      var k :| 0 <= k < |report| && report[k] == runs[l];
      assert Same(code, idioms[i], report[k].idiom);
    }
    forall k, l | 0 <= k < l < |report|
      ensures !Same(code, report[k].idiom, report[l].idiom) && InOrder(code, report[k], report[l])
    {
      DifferentRuns(code, runs, report, k, l);
      LessIsStrictWeakOrder(code, report[k].idiom, report[l].idiom, report[k].idiom);
      RankedLessInOrder(code, report[k], report[l]);
    }
  }

  lemma TwoOf<T>(s: seq<T>, k: nat, l: nat)
    requires k < l < |s| && s[k] == s[l]
    ensures multiset(s)[s[k]] >= 2
  {
    assert s == s[..k] + [s[k]] + s[k + 1..l] + [s[l]] + s[l + 1..];
  }

  lemma {:induction false} OneOf<T>(s: seq<T>, x: T)
    requires forall i, j :: 0 <= i < j < |s| ==> s[i] != s[j]
    ensures multiset(s)[x] <= 1
    decreases |s|
  {
    if s != [] {
      assert s == s[..|s| - 1] + [s[|s| - 1]];
      OneOf(s[..|s| - 1], x);
    }
  }

  lemma DifferentRuns(code: seq<Byte>, runs: seq<Ranked>, report: seq<Ranked>, k: nat, l: nat)
    requires (forall i :: 0 <= i < |runs| ==> Inside(code, runs[i].idiom)) && multiset(report) == multiset(runs)
    requires forall i, j :: 0 <= i < j < |runs| ==> Less(code, runs[i].idiom, runs[j].idiom)
    requires k < l < |report|
    ensures Inside(code, report[k].idiom) && Inside(code, report[l].idiom)
    ensures !Same(code, report[k].idiom, report[l].idiom)
  {
    hide Inside, Same, Less;
    assert report[k] in multiset(runs) && report[l] in multiset(runs);
    var i :| 0 <= i < |runs| && runs[i] == report[k];
    var j :| 0 <= j < |runs| && runs[j] == report[l];
    forall a, b | 0 <= a < b < |runs| ensures runs[a] != runs[b] {
      LessIsStrictWeakOrder(code, runs[a].idiom, runs[b].idiom, runs[a].idiom);
    }
    if i == j {
      TwoOf(report, k, l);
      OneOf(runs, runs[i]);
    } else {
      LessIsStrictWeakOrder(code, runs[i].idiom, runs[j].idiom, runs[i].idiom);
    }
  }

  lemma InstructionDecodes(code: seq<Byte>, reached: set<nat>, p: nat)
    requires Sweepable(code, reached) && p in reached
    ensures Decodes(code, p, 1) && p + LengthAt(code, p) < |code|
  {
    hide Disassemble, Sweepable;
    LengthInside(code, reached, p);
  }

  /** What the sweep collects can be compared. */
  lemma SweptIdiomsAreInside(code: seq<Byte>, reached: set<nat>, targets: set<nat>)
    requires Sweepable(code, reached)
    ensures AllInside(code, Sweep(code, reached, targets, 0))
  {
    hide Sweepable, Disassemble, Sweep;
    var s := Sweep(code, reached, targets, 0);
    forall k | 0 <= k < |s| ensures Inside(code, s[k]) {
      W.CollectedFrom(code, reached, targets, 0, s[k]);
      InstructionDecodes(code, reached, s[k].pos);
      LengthInside(code, reached, s[k].pos);
      if s[k].size == 2 { InstructionDecodes(code, reached, s[k].pos + LengthAt(code, s[k].pos)); }
    }
  }
}
