/** A chunk after one object was placed at its end. */
module Allocation {
  import opened Words
  import opened Chunks
  import opened Objects

  /** The object that an allocation makes: its contents are zero. */
  ghost function FreshObject(header: nat): Object {
    Object(header, seq(ObjWords(header) - 2, i => Raw(0)))
  }

  ghost predicate Appended(c: Chunk, header: nat, d: Chunk)
    requires c.Parsed()
  {
    && IsHeader(header) && d.base == c.base && |d.words| == |c.words|
    && d.starts == c.starts + [c.Current() + ObjWords(header)]
    && c.Current() + ObjWords(header) <= |c.words|
    && (forall p :: 0 <= p < c.Current() ==> d.words[p] == c.words[p])
    && d.words[c.Current()] == header
    && forall p :: c.Current() < p < c.Current() + ObjWords(header) ==> d.words[p] == 0
  }

  lemma AppendedParses(c: Chunk, header: nat, d: Chunk)
    requires c.Parsed() && Appended(c, header, d)
    ensures d.Parsed() && d.Count() == c.Count() + 1 && d.Content(c.Count()) == c.base + 8 * c.Current() + HEADER_BYTES
  {
    forall k | 0 <= k < d.Count()
      ensures d.Block(k)
    {
      if k < c.Count() {
        assert c.Block(k);
        c.StartsInOrder(k + 1, c.Count());
      }
    }
    forall i | 0 <= i < c.Count() + 1
      ensures d.starts[i] + 2 <= d.starts[c.Count() + 1]
    {
      c.StartsInOrder(i, c.Count());
    }
  }

  lemma OldBlock(c: Chunk, header: nat, d: Chunk, k: nat)
    requires c.Parsed() && Appended(c, header, d) && k < c.Count()
    ensures c.Block(k) && k + 1 < |d.starts| && d.Block(k) && d.Content(k) == c.Content(k)
    ensures d.starts[k] == c.starts[k] && d.starts[k + 1] == c.starts[k + 1] <= c.Current()
    ensures forall p :: c.starts[k] <= p < c.starts[k + 1] ==> d.words[p] == c.words[p]
  {
    assert c.Block(k);
    c.StartsInOrder(k + 1, c.Count());
  }

  lemma NewBlock(c: Chunk, header: nat, d: Chunk)
    requires c.Parsed() && Appended(c, header, d)
    ensures var k := c.Count(); k + 1 < |d.starts| && d.Block(k) && d.starts[k] == c.Current()
    ensures d.starts[c.Count() + 1] == c.Current() + ObjWords(header)
  {}

  lemma AppendedIsUnmarked(c: Chunk, header: nat, d: Chunk)
    requires c.Parsed() && Appended(c, header, d) && c.Marked() == {} && c.Enqueued() == {}
    ensures d.Parsed() && d.Marked() == {} && d.Enqueued() == {}
  {
    hide Chunk.Parsed, Appended;
    AppendedParses(c, header, d);
    forall k | 0 <= k < d.Count()
      ensures !IsMarked(d.Forwards()[k]) && !IsEnqueued(d.Forwards()[k])
    {
      d.ForwardAt(k);
      if k < c.Count() {
        OldBlock(c, header, d, k);
        c.ForwardAt(k);
        assert k !in c.Marked() && k !in c.Enqueued();
      } else {
        NewBlock(c, header, d);
        FirstWord(c, header, d);
      }
    }
  }

  lemma FirstWord(c: Chunk, header: nat, d: Chunk)
    requires c.Parsed() && Appended(c, header, d)
    ensures c.Current() + 1 < |d.words| && d.words[c.Current() + 1] == 0 && d.words[c.Current()] == header
  {}

  /** Old pointers still point to the same objects, and nothing old to the new one. */
  lemma GoodStays(c: Chunk, header: nat, d: Chunk, v: nat)
    requires c.Parsed() && Appended(c, header, d) && c.Good(v)
    ensures d.Parsed() && d.Good(v) && d.IsObject(v) == c.IsObject(v)
    ensures c.IsObject(v) ==> d.IndexOf(v) == c.IndexOf(v)
  {
    hide Chunk.Parsed;
    AppendedParses(c, header, d);
    if c.IsObject(v) {
      OldBlock(c, header, d, c.IndexOf(v));
      assert d.Content(c.IndexOf(v)) == v;
      d.ContentIsInjective(c.IndexOf(v), d.IndexOf(v));
    } else if d.IsObject(v) {
      d.ObjectInRange(v);
    }
  }

  lemma AppendedIsWellPointed(c: Chunk, header: nat, d: Chunk)
    requires c.Parsed() && Appended(c, header, d) && c.WellPointed()
    ensures d.Parsed() && d.WellPointed()
  {
    hide Chunk.Parsed, Chunk.Good, Appended, ObjWords, FirstField;
    AppendedParses(c, header, d);
    forall k: nat, p: nat | k < d.Count() && d.Block(k) && d.Traced(k, p)
      ensures d.Good(d.words[p])
    {
      if k < c.Count() {
        OldBlock(c, header, d, k);
        FirstFieldIsContent(c.words[c.starts[k]]);
        assert c.Traced(k, p);
        GoodStays(c, header, d, c.words[p]);
      } else {
        NewBlock(c, header, d);
        FirstWord(c, header, d);
        FirstFieldIsContent(header);
        ZeroField(c, header, d, p);
      }
    }
  }

  lemma ZeroField(c: Chunk, header: nat, d: Chunk, p: nat)
    requires c.Parsed() && Appended(c, header, d) && c.Current() + 2 <= p < c.Current() + ObjWords(header)
    ensures p < |d.words| && d.words[p] == 0 && d.Parsed() && d.Good(0) && !d.IsObject(0)
  {
    AppendedParses(c, header, d);
    if d.IsObject(0) { d.ObjectInRange(0); }
  }

  lemma OldObjectStays(c: Chunk, header: nat, d: Chunk, names: seq<nat>, name: nat, k: nat)
    requires c.Parsed() && Appended(c, header, d) && c.WellPointed() && |names| == c.Count() && k < c.Count()
    ensures d.Parsed() && |d.starts| == |names + [name]| + 1
    ensures ObjectAt(d, names + [name], k) == ObjectAt(c, names, k)
  {
    hide Chunk.Parsed, Chunk.Good, Appended, ObjWords, FirstField, Chunk.IsObject, LowBytes;
    AppendedParses(c, header, d);
    OldBlock(c, header, d, k);
    FirstFieldIsContent(c.words[c.starts[k]]);
    forall i | 2 <= i < ObjWords(c.words[c.starts[k]])
      ensures FieldAt(d, names + [name], k, i) == FieldAt(c, names, k, i)
    {
      if FirstField(c.words[c.starts[k]]) <= i {
        assert c.Traced(k, c.starts[k] + i);
        GoodStays(c, header, d, c.words[c.starts[k] + i]);
      }
    }
  }

  lemma LowBytesOfZero(header: nat)
    ensures LowBytes(header, 0) == 0
  {}

  /** An allocation adds one zeroed object, under a new name. */
  lemma AppendedDepicts(c: Chunk, header: nat, d: Chunk, names: seq<nat>, ideal: seq<Object>)
    requires c.Parsed() && Appended(c, header, d) && c.WellPointed() && Depicts(c, names, ideal)
    ensures Depicts(d, names + [|ideal|], ideal + [FreshObject(header)])
  {
    hide Chunk.Parsed, Chunk.Good, Chunk.WellPointed, Appended, ObjWords, FirstField, Chunk.IsObject, LowBytes,
      ObjectAt;
    AppendedParses(c, header, d);
    var named := names + [|ideal|];
    forall k | 0 <= k < |named|
      ensures ObjectAt(d, named, k) == (ideal + [FreshObject(header)])[named[k]]
    {
      if k < |names| {
        OldObjectStays(c, header, d, names, |ideal|, k);
      } else {
        NewObjectIsFresh(c, header, d, named);
      }
    }
  }

  lemma NewObjectIsFresh(c: Chunk, header: nat, d: Chunk, named: seq<nat>)
    requires c.Parsed() && Appended(c, header, d) && |named| == c.Count() + 1
    ensures d.Parsed() && |d.starts| == |named| + 1 && ObjectAt(d, named, c.Count()) == FreshObject(header)
  {
    hide Chunk.Parsed, Chunk.Good, Appended, ObjWords, FirstField, Chunk.IsObject, LowBytes;
    AppendedParses(c, header, d);
    NewBlock(c, header, d);
    FirstWord(c, header, d);
    LowBytesOfZero(header);
    forall i | 2 <= i < ObjWords(header)
      ensures FieldAt(d, named, c.Count(), i) == Raw(0)
    {
      ZeroField(c, header, d, c.Current() + i);
    }
  }

  /** Every word that was good looks the same, and the new address is the new name. */
  lemma LooksAfterAppend(c: Chunk, header: nat, d: Chunk, names: seq<nat>, name: nat)
    requires c.Parsed() && Appended(c, header, d) && |names| == c.Count()
    ensures d.Parsed() && |d.starts| == |names + [name]| + 1 && |c.starts| == |names| + 1
    ensures forall v :: c.Good(v) ==> d.Good(v) && Named(d, names + [name], v) == Named(c, names, v)
    ensures var v := c.base + 8 * c.Current() + HEADER_BYTES;
      d.Good(v) && Named(d, names + [name], v) == Ref(name)
  {
    hide Chunk.Parsed, Appended, Chunk.Good, Chunk.IsObject;
    AppendedParses(c, header, d);
    forall v | c.Good(v)
      ensures d.Good(v) && Named(d, names + [name], v) == Named(c, names, v)
    {
      GoodStays(c, header, d, v);
    }
    NewBlock(c, header, d);
    d.OneTarget(c.Count());
    ObjectIsGood(d, d.Content(c.Count()));
  }

  lemma ObjectIsGood(d: Chunk, v: nat)
    requires |d.starts| >= 1 && d.IsObject(v)
    ensures d.Good(v)
  {}
}
