/** The chunk after a collection: it parses, and its objects are the live ones. */
module Compaction {
  import opened Words
  import opened Chunks
  import opened Sliding
  import opened Objects
  import R = References
  import M = Relocation

  /** Objects `c` at `newBase`, after references were updated and objects slid. */
  ghost predicate Compacted(c: Chunk, live: set<nat>, updated: seq<nat>, d: Chunk) {
    && R.Ready(c, live) && |c.words| <= |updated| == |d.words|
    && R.Done(c, live, d.base, updated, c.Count(), 0)
    && M.Slid(c, live, updated, d.words, c.Count())
    && d.starts == NewStarts(c.starts, live, c.Count())
    && d.base % 8 == 0 && d.base > 0 && d.base + 8 * |d.words| < ADDRESS_SPACE
  }

  lemma CompactedMeans(c: Chunk, live: set<nat>, updated: seq<nat>, d: Chunk)
    requires Compacted(c, live, updated, d)
    ensures c.Parsed() && Increasing(c.starts) && R.Ready(c, live) && |c.words| <= |updated| == |d.words|
    ensures R.Done(c, live, d.base, updated, c.Count(), 0) && M.Slid(c, live, updated, d.words, c.Count())
    ensures d.starts == NewStarts(c.starts, live, c.Count())
    ensures |d.starts| == Rank(live, c.Count()) + 1 && Increasing(d.starts)
  {
    NewStartsIncrease(c.starts, live, c.Count());
  }

  /** The object of rank r is live object k = LiveList[r], at its destination. */
  lemma BlockOfRank(c: Chunk, live: set<nat>, updated: seq<nat>, d: Chunk, k: nat)
    requires Compacted(c, live, updated, d) && k < c.Count() && k in live
    ensures |d.starts| == Rank(live, c.Count()) + 1 && Increasing(c.starts)
    ensures Rank(live, k) < Rank(live, c.Count())
    ensures d.starts[Rank(live, k)] == Dest(c.starts, live, k)
    ensures d.starts[Rank(live, k) + 1] == Dest(c.starts, live, k) + ObjWords(c.words[c.starts[k]]) <= |c.words|
    ensures c.Block(k) && M.Moves(c, live, updated, d.words, k)
    ensures d.words[Dest(c.starts, live, k)] == c.words[c.starts[k]]
    ensures IsHeader(c.words[c.starts[k]])
  {
    hide Chunk.Parsed, R.Ready, R.Done, Dest, Rank, NewStarts;
    CompactedMeans(c, live, updated, d);
    var n := c.Count();
    RankOfLive(live, n, k);
    StartOfRank(c.starts, live, k, n);
    StartOfRank(c.starts, live, k + 1, n);
    NextRank(live, k);
    DestAtMostStart(c.starts, live, k);
    DestAtMostStart(c.starts, live, k + 1);
    M.Room(c, live, k);
    R.HeadersStay(c, live, d.base, updated, n, 0, k);
    assert M.Moves(c, live, updated, d.words, k);
    assert M.WordArrived(c.words[c.starts[k]], updated, c.starts[k], d.words, Dest(c.starts, live, k), 0);
  }

  lemma NextRank(live: set<nat>, k: nat)
    ensures Rank(live, k + 1) == Rank(live, k) + if k in live then 1 else 0
  {}

  /** The compacted chunk parses into the live objects in their old order. */
  lemma CompactedParses(c: Chunk, live: set<nat>, updated: seq<nat>, d: Chunk)
    requires Compacted(c, live, updated, d)
    ensures d.Parsed() && d.Count() == Rank(live, c.Count())
    ensures d.Current() == Dest(c.starts, live, c.Count()) <= c.Current()
  {
    hide Chunk.Parsed, R.Ready, R.Done, M.Slid, Dest, Rank, NewStarts;
    CompactedMeans(c, live, updated, d);
    var n := c.Count();
    DestAtMostStart(c.starts, live, n);
    CurrentFits(c);
    forall r | 0 <= r < d.Count()
      ensures d.Block(r)
    {
      LiveOfRank(live, n, r);
      BlockOfRank(c, live, updated, d, LiveList(live, n)[r]);
    }
    ParsedFrom(d);
  }

  lemma CurrentFits(c: Chunk)
    requires c.Parsed()
    ensures c.Current() <= |c.words|
  {}

  lemma ParsedFrom(d: Chunk)
    requires Increasing(d.starts) && d.starts[|d.starts| - 1] <= |d.words|
    requires forall r :: 0 <= r < |d.starts| - 1 ==> d.Block(r)
    requires d.base % 8 == 0 && d.base > 0 && d.base + 8 * |d.words| < ADDRESS_SPACE
    ensures d.Parsed()
  {}

  // The words of a moved object

  lemma FieldsAreWhole(header: nat)
    requires IsHeader(header) && FirstField(header) < ObjWords(header)
    ensures LastBytes(header) == WORD_BYTES
  {}

  lemma WordOfRank(c: Chunk, live: set<nat>, updated: seq<nat>, d: Chunk, k: nat, i: nat)
    requires Compacted(c, live, updated, d) && k < c.Count() && k in live && c.Block(k)
    requires 2 <= i < ObjWords(c.words[c.starts[k]]) && Increasing(c.starts)
    ensures Dest(c.starts, live, k) + i < |d.words|
    ensures var header, word := c.words[c.starts[k]], d.words[Dest(c.starts, live, k) + i];
      if FirstField(header) <= i then word == R.Moved(c, live, d.base, c.words[c.starts[k] + i])
      else if i == ObjWords(header) - 1 then LowBytes(header, word) == LowBytes(header, c.words[c.starts[k] + i])
      else word == c.words[c.starts[k] + i]
  {
    hide Chunk.Parsed, R.Ready, M.Slid, Dest, Rank, NewStarts, R.Moved, LastBytes, ObjWords;
    CompactedMeans(c, live, updated, d);
    BlockOfRank(c, live, updated, d, k);
    var header, p := c.words[c.starts[k]], c.starts[k] + i;
    assert M.WordArrived(header, updated, c.starts[k], d.words, Dest(c.starts, live, k), i);
    assert R.Within(c, k, p);
    assert c.Traced(k, p) <==> FirstField(header) <= i;
    if FirstField(header) <= i { FieldsAreWhole(header); }
  }

  lemma ForwardOfRank(c: Chunk, live: set<nat>, updated: seq<nat>, d: Chunk, k: nat)
    requires Compacted(c, live, updated, d) && k < c.Count() && k in live
    ensures d.Parsed() && Rank(live, k) < d.Count() && c.Parsed()
    ensures d.Forwards()[Rank(live, k)] == ResetMark(c.Forwards()[k])
  {
    hide Chunk.Parsed, R.Ready, R.Done, M.Slid, Dest, Rank, NewStarts, ResetMark;
    CompactedMeans(c, live, updated, d);
    CompactedParses(c, live, updated, d);
    BlockOfRank(c, live, updated, d, k);
    R.HeadersStay(c, live, d.base, updated, c.Count(), 0, k);
    d.ForwardAt(Rank(live, k));
    assert M.WordArrived(c.words[c.starts[k]], updated, c.starts[k], d.words, Dest(c.starts, live, k), 1);
  }

  /** No mark and no enqueued bit survives the collection. */
  lemma CompactedIsUnmarked(c: Chunk, live: set<nat>, updated: seq<nat>, d: Chunk)
    requires Compacted(c, live, updated, d) && c.Parsed() && c.Enqueued() == {}
    ensures d.Parsed() && d.Marked() == {} && d.Enqueued() == {}
  {
    hide Chunk.Parsed, R.Ready, R.Done, M.Slid, Dest, Rank, NewStarts, ResetMark, Compacted;
    CompactedMeans(c, live, updated, d);
    CompactedParses(c, live, updated, d);
    forall r | 0 <= r < d.Count()
      ensures !IsMarked(d.Forwards()[r]) && !IsEnqueued(d.Forwards()[r])
    {
      LiveOfRank(live, c.Count(), r);
      var k := LiveList(live, c.Count())[r];
      ForwardOfRank(c, live, updated, d, k);
      assert k !in c.Enqueued();
    }
  }

  // Pointers and names

  /** v is no pointer to anything in a new chunk at newBase (it may be an old object). */
  ghost predicate Outside(c: Chunk, newBase: nat, capacity: nat, v: nat)
    requires |c.starts| >= 1
  {
    c.IsObject(v) || v % 2 == 1 || v < newBase || v > newBase + 8 * capacity
  }

  ghost predicate FieldsOutside(c: Chunk, newBase: nat, capacity: nat)
    requires c.Parsed()
  {
    forall j: nat, p: nat :: j < c.Count() && c.Block(j) && c.Traced(j, p) ==> Outside(c, newBase, capacity, c.words[p])
  }

  /** A pointer to a live object becomes a pointer to the same object; other words stay
      what they were and still point to no object. */
  lemma MovedPoints(c: Chunk, live: set<nat>, updated: seq<nat>, d: Chunk, v: nat)
    requires Compacted(c, live, updated, d) && c.Parsed() && Increasing(c.starts)
    requires Outside(c, d.base, |d.words|, v) && (c.IsObject(v) ==> c.IndexOf(v) in live)
    ensures d.Parsed() && d.Count() == Rank(live, c.Count()) && d.Good(R.Moved(c, live, d.base, v))
    ensures d.IsObject(R.Moved(c, live, d.base, v)) == c.IsObject(v)
    ensures c.IsObject(v) ==>
      && Rank(live, c.IndexOf(v)) < d.Count()
      && R.Moved(c, live, d.base, v) == d.Content(Rank(live, c.IndexOf(v)))
      && d.IndexOf(R.Moved(c, live, d.base, v)) == Rank(live, c.IndexOf(v))
  {
    hide Chunk.Parsed, R.Ready, R.Done, M.Slid, Dest, Rank, NewStarts;
    CompactedMeans(c, live, updated, d);
    CompactedParses(c, live, updated, d);
    if c.IsObject(v) {
      var k := c.IndexOf(v);
      BlockOfRank(c, live, updated, d, k);
      d.OneTarget(Rank(live, k));
    } else if d.IsObject(v) {
      d.ObjectInRange(v);
      CurrentFits(d);
    }
  }

  /** A word that a root may hold while its chunk is collected. */
  ghost predicate Rooted(c: Chunk, live: set<nat>, newBase: nat, capacity: nat, v: nat)
    requires |c.starts| >= 1
  {
    && c.Good(v) && Outside(c, newBase, capacity, v)
    && (c.IsObject(v) ==> c.IndexOf(v) in live)
  }

  ghost predicate ApartFrom(c: Chunk, newBase: nat, capacity: nat) {
    newBase >= c.base + 8 * |c.words| || newBase + 8 * capacity <= c.base
  }

  lemma GoodRoot(c: Chunk, live: set<nat>, newBase: nat, v: nat)
    requires c.Parsed() && Increasing(c.starts) && c.Good(v)
    ensures c.InRange(v) <==> c.IsObject(v)
    ensures !c.IsObject(v) ==> R.Moved(c, live, newBase, v) == v
  {
    c.GoodInRange(v);
  }

  lemma OddRoot(c: Chunk, live: set<nat>, newBase: nat, v: nat)
    requires c.Parsed() && Increasing(c.starts) && newBase % 8 == 0
    ensures v % 2 == 1 <==> R.Moved(c, live, newBase, v) % 2 == 1
    ensures v % 2 == 1 ==> R.Moved(c, live, newBase, v) == v
  {
    if c.IsObject(v) {
      c.ObjectInRange(v);
      Aligned(newBase, Dest(c.starts, live, c.IndexOf(v)));
    }
  }

  /** A word that was fixed is not fixed again: it no longer points into the old chunk. */
  lemma MovedIsNotOld(c: Chunk, live: set<nat>, newBase: nat, capacity: nat, v: nat)
    requires R.Ready(c, live) && Increasing(c.starts) && c.Parsed()
    requires Rooted(c, live, newBase, capacity, v) && ApartFrom(c, newBase, capacity)
    requires Dest(c.starts, live, c.Count()) < capacity
    ensures !c.InRange(R.Moved(c, live, newBase, v))
  {
    hide R.Ready, Dest, Chunk.Parsed;
    c.GoodInRange(v);
    CurrentFits(c);
    if c.IsObject(v) {
      var k := c.IndexOf(v);
      DestBlocksAreDisjoint(c.starts, live, k, c.Count());
      M.Room(c, live, k);
    }
  }

  // Locating the live objects changes none of these conditions

  lemma ShapeKeepsIndex(c: Chunk, d: Chunk, v: nat)
    requires c.Parsed() && c.SameShape(d)
    ensures d.starts == c.starts && d.base == c.base && |d.words| == |c.words|
    ensures d.IsObject(v) == c.IsObject(v) && d.Good(v) == c.Good(v)
    ensures c.IsObject(v) ==> d.IndexOf(v) == c.IndexOf(v)
  {
    c.ShapeKeepsObjects(d, v);
    if c.IsObject(v) {
      assert c.Content(d.IndexOf(v)) == d.Content(d.IndexOf(v));
      c.ContentIsInjective(c.IndexOf(v), d.IndexOf(v));
    }
  }

  lemma ShapeKeepsRooted(c: Chunk, d: Chunk, live: set<nat>, newBase: nat, capacity: nat, v: nat)
    requires c.Parsed() && c.SameShape(d)
    ensures d.starts == c.starts && Rooted(d, live, newBase, capacity, v) == Rooted(c, live, newBase, capacity, v)
  {
    hide Chunk.Parsed, Chunk.SameShape, Chunk.Good, Chunk.IsObject;
    ShapeKeepsIndex(c, d, v);
  }

  lemma ShapeKeepsOutside(c: Chunk, d: Chunk, newBase: nat, capacity: nat)
    requires c.Parsed() && c.SameShape(d) && FieldsOutside(c, newBase, capacity)
    ensures d.Parsed() && FieldsOutside(d, newBase, capacity)
  {
    hide Chunk.Parsed, Chunk.SameShape, Chunk.Good, Chunk.IsObject;
    c.ShapeKeepsLayout(d);
    c.ShapeParses(d);
    c.FirstStart();
    forall j: nat, p: nat | j < d.Count() && d.Block(j) && d.Traced(j, p)
      ensures Outside(d, newBase, capacity, d.words[p])
    {
      c.ShapeKeepsFields(d, j);
      assert c.Traced(j, p) && Outside(c, newBase, capacity, c.words[p]);
      ShapeKeepsIndex(c, d, c.words[p]);
    }
  }

  lemma ShapeKeepsObjectAt(c: Chunk, d: Chunk, names: seq<nat>, k: nat)
    requires c.Parsed() && d.Parsed() && c.SameShape(d) && |c.starts| == |names| + 1 == |d.starts| && k < c.Count()
    ensures ObjectAt(d, names, k) == ObjectAt(c, names, k)
  {
    hide Chunk.Parsed, Chunk.SameShape, Chunk.Good, Chunk.IsObject, LowBytes, ObjWords, FirstField;
    c.FieldsAt(d, k);
    assert d.Block(k);
    forall i | 2 <= i < ObjWords(c.words[c.starts[k]])
      ensures FieldAt(d, names, k, i) == FieldAt(c, names, k, i)
    {
      ShapeKeepsIndex(c, d, c.words[c.starts[k] + i]);
    }
  }

  lemma ShapeKeepsDepiction(c: Chunk, d: Chunk, names: seq<nat>, ideal: seq<Object>)
    requires c.Parsed() && c.SameShape(d) && Depicts(c, names, ideal)
    ensures d.Parsed() && Depicts(d, names, ideal)
  {
    hide Chunk.Parsed, Chunk.SameShape, ObjectAt;
    c.ShapeParses(d);
    c.ShapeKeepsLayout(d);
    forall k | 0 <= k < |names|
      ensures ObjectAt(d, names, k) == ideal[names[k]]
    {
      ShapeKeepsObjectAt(c, d, names, k);
    }
  }

  /** The names of the live objects, in their new order. */
  ghost function Carry(names: seq<nat>, live: set<nat>): (carried: seq<nat>)
    ensures |carried| == Rank(live, |names|)
  {
    seq(Rank(live, |names|), r requires 0 <= r < Rank(live, |names|) =>
      LiveOfRank(live, |names|, r);
      names[LiveList(live, |names|)[r]])
  }

  lemma CarriedName(names: seq<nat>, live: set<nat>, k: nat)
    requires k < |names| && k in live
    ensures Rank(live, k) < |Carry(names, live)| && Carry(names, live)[Rank(live, k)] == names[k]
  {
    RankOfLive(live, |names|, k);
  }

  lemma MovedKeepsName(c: Chunk, live: set<nat>, updated: seq<nat>, d: Chunk, names: seq<nat>, v: nat)
    requires Compacted(c, live, updated, d) && c.Parsed() && Increasing(c.starts) && |names| == c.Count()
    requires Outside(c, d.base, |d.words|, v) && (c.IsObject(v) ==> c.IndexOf(v) in live)
    ensures d.Parsed() && |d.starts| == |Carry(names, live)| + 1
    ensures Named(d, Carry(names, live), R.Moved(c, live, d.base, v)) == Named(c, names, v)
  {
    hide Chunk.Parsed, R.Ready, R.Done, M.Slid, Dest, Rank, NewStarts, Compacted, Carry;
    MovedPoints(c, live, updated, d, v);
    if c.IsObject(v) { CarriedName(names, live, c.IndexOf(v)); }
  }

  /** Object k and its new place agree on their headers. */
  ghost predicate SamePlace(c: Chunk, live: set<nat>, d: Chunk, names: seq<nat>, k: nat, i: nat)
    requires c.Parsed() && Increasing(c.starts) && d.Parsed()
  {
    && |names| == c.Count() && |d.starts| == |Carry(names, live)| + 1
    && k < c.Count() && k in live && c.Block(k) && 2 <= i < ObjWords(c.words[c.starts[k]])
    && Rank(live, k) < d.Count() && d.Block(Rank(live, k))
    && d.starts[Rank(live, k)] == Dest(c.starts, live, k)
    && d.words[Dest(c.starts, live, k)] == c.words[c.starts[k]]
  }

  lemma TracedFieldSurvives(c: Chunk, live: set<nat>, updated: seq<nat>, d: Chunk, names: seq<nat>, k: nat, i: nat)
    requires Compacted(c, live, updated, d) && c.Parsed() && Increasing(c.starts) && d.Parsed()
    requires FieldsOutside(c, d.base, |d.words|) && SamePlace(c, live, d, names, k, i)
    requires FirstField(c.words[c.starts[k]]) <= i
    ensures Dest(c.starts, live, k) + i < |d.words|
    ensures var word := d.words[Dest(c.starts, live, k) + i];
      d.Good(word) && Named(d, Carry(names, live), word) == Named(c, names, c.words[c.starts[k] + i])
  {
    hide Chunk.Parsed, R.Ready, R.Done, M.Slid, Dest, Rank, NewStarts, Compacted, Carry, Named, R.Moved;
    hide ObjWords, FirstField, Outside;
    CompactedMeans(c, live, updated, d);
    WordOfRank(c, live, updated, d, k, i);
    var p := c.starts[k] + i;
    assert c.Traced(k, p);
    R.ChildIsLive(c, live, k, p);
    MovedKeepsName(c, live, updated, d, names, c.words[p]);
    MovedPoints(c, live, updated, d, c.words[p]);
  }

  lemma FieldSurvives(c: Chunk, live: set<nat>, updated: seq<nat>, d: Chunk, names: seq<nat>, k: nat, i: nat)
    requires Compacted(c, live, updated, d) && c.Parsed() && Increasing(c.starts) && d.Parsed()
    requires FieldsOutside(c, d.base, |d.words|) && SamePlace(c, live, d, names, k, i)
    ensures FieldAt(d, Carry(names, live), Rank(live, k), i) == FieldAt(c, names, k, i)
    ensures d.Traced(Rank(live, k), d.starts[Rank(live, k)] + i) ==> d.Good(d.words[d.starts[Rank(live, k)] + i])
  {
    hide Chunk.Parsed, R.Ready, R.Done, M.Slid, Dest, Rank, NewStarts, Compacted, Carry, Named, LowBytes, R.Moved;
    hide ObjWords, FirstField, FieldsOutside, Chunk.Good;
    WordOfRank(c, live, updated, d, k, i);
    if FirstField(c.words[c.starts[k]]) <= i {
      TracedFieldSurvives(c, live, updated, d, names, k, i);
    }
  }

  /** The isomorphism: under any naming, every live object looks as it did. */
  lemma ObjectSurvives(c: Chunk, live: set<nat>, updated: seq<nat>, d: Chunk, names: seq<nat>, k: nat)
    requires Compacted(c, live, updated, d) && c.Parsed() && |names| == c.Count()
    requires FieldsOutside(c, d.base, |d.words|)
    requires k < c.Count() && k in live
    ensures d.Parsed() && |d.starts| == |Carry(names, live)| + 1 && Rank(live, k) < d.Count()
    ensures ObjectAt(d, Carry(names, live), Rank(live, k)) == ObjectAt(c, names, k)
  {
    hide Chunk.Parsed, R.Ready, R.Done, M.Slid, Dest, Rank, NewStarts, Compacted, Carry, FieldAt, ObjWords,
      FieldsOutside;
    CompactedMeans(c, live, updated, d);
    CompactedParses(c, live, updated, d);
    BlockOfRank(c, live, updated, d, k);
    var r := Rank(live, k);
    assert d.Block(r);
    forall i | 2 <= i < ObjWords(c.words[c.starts[k]])
      ensures FieldAt(d, Carry(names, live), r, i) == FieldAt(c, names, k, i)
    {
      FieldSurvives(c, live, updated, d, names, k, i);
    }
  }

  lemma CompactedIsWellPointed(c: Chunk, live: set<nat>, updated: seq<nat>, d: Chunk)
    requires Compacted(c, live, updated, d) && c.Parsed() && FieldsOutside(c, d.base, |d.words|)
    ensures d.Parsed() && d.WellPointed()
  {
    hide Chunk.Parsed, R.Ready, R.Done, M.Slid, Dest, Rank, NewStarts, Compacted, Carry, FieldAt, ObjWords,
      FieldsOutside;
    CompactedMeans(c, live, updated, d);
    CompactedParses(c, live, updated, d);
    var names := seq(c.Count(), k => k);
    forall r: nat, p: nat | r < d.Count() && d.Block(r) && d.Traced(r, p)
      ensures d.Good(d.words[p])
    {
      LiveOfRank(live, c.Count(), r);
      var k := LiveList(live, c.Count())[r];
      BlockOfRank(c, live, updated, d, k);
      FirstFieldIsContent(d.words[d.starts[r]]);
      FieldSurvives(c, live, updated, d, names, k, p - d.starts[r]);
    }
  }

  /** A collection is invisible: the new chunk depicts the same ideal objects. */
  lemma CompactedDepicts(c: Chunk, live: set<nat>, updated: seq<nat>, d: Chunk, names: seq<nat>, ideal: seq<Object>)
    requires Compacted(c, live, updated, d) && c.Parsed() && FieldsOutside(c, d.base, |d.words|)
    requires Depicts(c, names, ideal)
    ensures Depicts(d, Carry(names, live), ideal)
  {
    hide Chunk.Parsed, R.Ready, R.Done, M.Slid, Dest, Rank, NewStarts, Compacted, FieldAt, ObjWords, FieldsOutside,
      ObjectAt;
    CompactedMeans(c, live, updated, d);
    CompactedParses(c, live, updated, d);
    var carried := Carry(names, live);
    forall r | 0 <= r < |carried|
      ensures carried[r] < |ideal| && ObjectAt(d, carried, r) == ideal[carried[r]]
    {
      LiveOfRank(live, |names|, r);
      ObjectSurvives(c, live, updated, d, names, LiveList(live, |names|)[r]);
    }
    forall i, j | 0 <= i < j < |carried|
      ensures carried[i] != carried[j]
    {
      LiveOfRank(live, |names|, i);
      LiveOfRank(live, |names|, j);
    }
  }

  /** Everything a collection keeps of the heap; `c0` is the chunk before marking. */
  lemma CollectedHeap(c0: Chunk, c: Chunk, live: set<nat>, updated: seq<nat>, d: Chunk, names: seq<nat>,
      ideal: seq<Object>)
    requires c0.Parsed() && c0.SameShape(c) && Compacted(c, live, updated, d)
    requires c.Parsed() && c.Enqueued() == {} && FieldsOutside(c0, d.base, |d.words|)
    requires Depicts(c0, names, ideal)
    ensures d.Parsed() && d.WellPointed() && d.Marked() == {} && d.Enqueued() == {}
    ensures d.Current() == Dest(c.starts, live, c.Count()) && Depicts(d, Carry(names, live), ideal)
  {
    hide Chunk.Parsed, Chunk.SameShape, Chunk.WellPointed, Chunk.Marked, Chunk.Enqueued, FieldsOutside, Compacted,
      Depicts;
    ShapeKeepsOutside(c0, c, d.base, |d.words|);
    ShapeKeepsDepiction(c0, c, names, ideal);
    CompactedParses(c, live, updated, d);
    CompactedIsUnmarked(c, live, updated, d);
    CompactedIsWellPointed(c, live, updated, d);
    CompactedDepicts(c, live, updated, d, names, ideal);
  }

  lemma CompactedCount(c0: Chunk, c: Chunk, live: set<nat>, updated: seq<nat>, d: Chunk, names: seq<nat>)
    requires c0.Parsed() && c0.SameShape(c) && Compacted(c, live, updated, d) && |names| == c0.Count()
    ensures d.Parsed() && |d.starts| == |Carry(names, live)| + 1 && |c0.starts| == |names| + 1
  {
    hide Chunk.Parsed, Chunk.SameShape, Compacted;
    c0.ShapeKeepsLayout(c);
    CompactedParses(c, live, updated, d);
  }

  /** A root word that was fixed looks the same afterwards. */
  lemma CollectedRoot(c0: Chunk, c: Chunk, live: set<nat>, updated: seq<nat>, d: Chunk, names: seq<nat>, v: nat)
    requires c0.Parsed() && c0.SameShape(c) && Compacted(c, live, updated, d)
    requires c.Parsed() && Increasing(c.starts) && |names| == c0.Count()
    requires Rooted(c0, live, d.base, |d.words|, v)
    ensures d.Parsed() && |d.starts| == |Carry(names, live)| + 1 && |c0.starts| == |names| + 1
    ensures d.Good(R.Moved(c, live, d.base, v))
    ensures Named(d, Carry(names, live), R.Moved(c, live, d.base, v)) == Named(c0, names, v)
  {
    hide Chunk.Parsed, Chunk.SameShape, Compacted, R.Moved, Chunk.Good, Chunk.IsObject;
    ShapeKeepsIndex(c0, c, v);
    MovedPoints(c, live, updated, d, v);
    MovedKeepsName(c, live, updated, d, names, v);
  }

  /** A root word that was not fixed looks the same only if it was no pointer. */
  lemma UnfixedRoot(c0: Chunk, c: Chunk, live: set<nat>, updated: seq<nat>, d: Chunk, names: seq<nat>, v: nat)
    requires c0.Parsed() && c0.SameShape(c) && Compacted(c, live, updated, d) && |names| == c0.Count()
    requires Outside(c0, d.base, |d.words|, v) && ApartFrom(c0, d.base, |d.words|)
    ensures d.Parsed() && |d.starts| == |Carry(names, live)| + 1 && |c0.starts| == |names| + 1
    ensures Named(d, Carry(names, live), v) == Named(c0, names, v) <==> !c0.IsObject(v)
    ensures !c0.IsObject(v) ==> d.Good(v)
  {
    hide Chunk.Parsed, Chunk.SameShape, Compacted, Carry;
    CompactedCount(c0, c, live, updated, d, names);
    if d.IsObject(v) {
      d.ObjectInRange(v);
      CurrentFits(d);
      d.OneTarget(d.IndexOf(v));
    }
    if c0.IsObject(v) {
      c0.ObjectInRange(v);
      CurrentFits(c0);
    }
  }
}
