/** Reading and writing a word of an object, seen through names. */
module Mutation {
  import opened Words
  import opened Chunks
  import opened Objects

  ghost function WithField(o: Object, i: nat, f: Field): Object
    requires i < |o.fields|
  {
    o.(fields := o.fields[i := f])
  }

  /** Word i of object k belongs to its contents. */
  ghost predicate IsWord(c: Chunk, k: nat, i: nat)
    requires c.Parsed() && k < c.Count()
  {
    c.Block(k) && 2 <= i < ObjWords(c.words[c.starts[k]])
  }

  /** A word may be stored there: a traced field takes good words only. */
  ghost predicate MayHold(c: Chunk, k: nat, i: nat, v: nat)
    requires c.Parsed() && k < c.Count()
  {
    c.Block(k) && (FirstField(c.words[c.starts[k]]) <= i ==> c.Good(v))
  }

  lemma WordIsInside(c: Chunk, k: nat, i: nat)
    requires c.Parsed() && k < c.Count() && IsWord(c, k, i)
    ensures c.Block(k) && c.starts[k] + i < |c.words| && i >= 2 && c.base % 8 == 0
    ensures FirstField(c.words[c.starts[k]]) <= i ==> c.Traced(k, c.starts[k] + i)
    ensures c.starts[k] + i < c.starts[k + 1] == c.starts[k] + ObjWords(c.words[c.starts[k]]) <= c.Current()
  {
    c.StartsInOrder(k + 1, c.Count());
  }

  lemma WordMeans(c: Chunk, names: seq<nat>, k: nat, i: nat)
    requires c.Parsed() && c.WellPointed() && |c.starts| == |names| + 1 && k < c.Count() && IsWord(c, k, i)
    ensures c.starts[k] + i < |c.words| && 2 <= i && MayHold(c, k, i, c.words[c.starts[k] + i])
    ensures i - 2 < |ObjectAt(c, names, k).fields|
    ensures ObjectAt(c, names, k).fields[i - 2] == Meaning(c, names, c.words[c.starts[k]], i, c.words[c.starts[k] + i])
  {
    WordIsInside(c, k, i);
  }

  /** The chunk after word i of object k was set to v. */
  ghost function Stored(c: Chunk, k: nat, i: nat, v: nat): Chunk
    requires k < |c.starts| && c.starts[k] + i < |c.words|
  {
    Chunk(c.words[c.starts[k] + i := v], c.starts, c.base)
  }

  lemma StoredWords(c: Chunk, k: nat, i: nat, v: nat, j: nat)
    requires c.Parsed() && k < c.Count() && IsWord(c, k, i) && j < c.Count()
    ensures c.starts[k] + i < |c.words| && c.Block(j)
    ensures var d := Stored(c, k, i, v);
      && d.words[c.starts[j]] == c.words[c.starts[j]] && d.words[c.starts[j] + 1] == c.words[c.starts[j] + 1]
      && d.Block(j)
      && forall p :: c.starts[j] <= p < c.starts[j + 1] && !(j == k && p == c.starts[k] + i) ==>
        d.words[p] == c.words[p]
  {
    WordIsInside(c, k, i);
    assert c.Block(j);
    c.StartsInOrder(if j < k then j else k, if j < k then k else j);
  }

  lemma StoredParses(c: Chunk, k: nat, i: nat, v: nat)
    requires c.Parsed() && k < c.Count() && IsWord(c, k, i)
    ensures c.starts[k] + i < |c.words|
    ensures Stored(c, k, i, v).Parsed() && Stored(c, k, i, v).Forwards() == c.Forwards()
  {
    hide IsWord;
    WordIsInside(c, k, i);
    var d := Stored(c, k, i, v);
    forall j | 0 <= j < c.Count()
      ensures d.Block(j)
    {
      StoredWords(c, k, i, v, j);
    }
    assert d.Parsed();
    forall j | 0 <= j < c.Count()
      ensures d.Forwards()[j] == c.Forwards()[j]
    {
      StoredWords(c, k, i, v, j);
      c.ForwardAt(j);
      d.ForwardAt(j);
    }
  }

  lemma SamePointers(c: Chunk, k: nat, i: nat, v: nat, w: nat)
    requires c.Parsed() && k < |c.starts| && c.starts[k] + i < |c.words|
    ensures var d := Stored(c, k, i, v);
      && d.IsObject(w) == c.IsObject(w) && d.Good(w) == c.Good(w)
      && (c.IsObject(w) ==> d.IndexOf(w) == c.IndexOf(w))
  {
    var d := Stored(c, k, i, v);
    c.ShapeKeepsObjects(d, w);
    if c.IsObject(w) {
      assert c.Content(d.IndexOf(w)) == d.Content(d.IndexOf(w));
      c.ContentIsInjective(c.IndexOf(w), d.IndexOf(w));
    }
  }

  lemma StoredIsWellPointed(c: Chunk, k: nat, i: nat, v: nat)
    requires c.Parsed() && c.WellPointed() && k < c.Count() && IsWord(c, k, i) && MayHold(c, k, i, v)
    ensures c.starts[k] + i < |c.words|
    ensures Stored(c, k, i, v).Parsed() && Stored(c, k, i, v).WellPointed()
  {
    hide Chunk.Parsed, Chunk.Good, Chunk.IsObject, IsWord, ObjWords, FirstField;
    WordIsInside(c, k, i);
    StoredParses(c, k, i, v);
    var d := Stored(c, k, i, v);
    forall j: nat, p: nat | j < d.Count() && d.Block(j) && d.Traced(j, p)
      ensures d.Good(d.words[p])
    {
      FirstFieldIsContent(d.words[d.starts[j]]);
      StoredWords(c, k, i, v, j);
      assert c.Traced(j, p);
      SamePointers(c, k, i, v, d.words[p]);
    }
  }

  /** What v means where it is stored. */
  ghost function StoredMeaning(c: Chunk, names: seq<nat>, k: nat, i: nat, v: nat): Field
    requires c.Parsed() && |c.starts| == |names| + 1 && k < c.Count()
  {
    assert c.Block(k);
    Meaning(c, names, c.words[c.starts[k]], i, v)
  }

  lemma StoredObject(c: Chunk, names: seq<nat>, k: nat, i: nat, v: nat, j: nat)
    requires c.Parsed() && |c.starts| == |names| + 1 && k < c.Count() && IsWord(c, k, i) && j < c.Count()
    ensures c.starts[k] + i < |c.words| && 2 <= i && i - 2 < |ObjectAt(c, names, k).fields|
    ensures Stored(c, k, i, v).Parsed()
    ensures ObjectAt(Stored(c, k, i, v), names, j) ==
      if j == k
      then WithField(ObjectAt(c, names, k), i - 2, StoredMeaning(c, names, k, i, v))
      else ObjectAt(c, names, j)
  {
    hide Chunk.Parsed, Chunk.Good, Chunk.IsObject, ObjWords, FirstField, LowBytes;
    WordIsInside(c, k, i);
    StoredParses(c, k, i, v);
    StoredWords(c, k, i, v, j);
    var d := Stored(c, k, i, v);
    var header := c.words[c.starts[j]];
    BlockWords(c, j);
    forall n | 2 <= n < ObjWords(header)
      ensures FieldAt(d, names, j, n) ==
        if j == k && n == i then StoredMeaning(c, names, k, i, v) else FieldAt(c, names, j, n)
    {
      SamePointers(c, k, i, v, d.words[d.starts[j] + n]);
    }
  }

  lemma BlockWords(c: Chunk, j: nat)
    requires c.Parsed() && j < c.Count()
    ensures c.Block(j) && c.starts[j + 1] == c.starts[j] + ObjWords(c.words[c.starts[j]]) <= |c.words|
    ensures c.base % 8 == 0
  {
    assert c.Block(j);
  }

  /** A store changes one word of one ideal object and nothing else. */
  lemma StoredDepicts(c: Chunk, names: seq<nat>, ideal: seq<Object>, k: nat, i: nat, v: nat)
    requires Depicts(c, names, ideal) && k < c.Count() && IsWord(c, k, i)
    ensures c.starts[k] + i < |c.words| && 2 <= i && names[k] < |ideal| && i - 2 < |ideal[names[k]].fields|
    ensures var stored := WithField(ideal[names[k]], i - 2, StoredMeaning(c, names, k, i, v));
      Depicts(Stored(c, k, i, v), names, ideal[names[k] := stored])
  {
    hide Chunk.Parsed, ObjectAt, IsWord, WithField;
    StoredObject(c, names, k, i, v, k);
    var stored := WithField(ideal[names[k]], i - 2, StoredMeaning(c, names, k, i, v));
    var d, after := Stored(c, k, i, v), ideal[names[k] := stored];
    forall j | 0 <= j < |names|
      ensures ObjectAt(d, names, j) == after[names[j]]
    {
      StoredObject(c, names, k, i, v, j);
    }
  }
}
