/** update_references: what every word becomes when pointers are carried to the new chunk. */
module References {
  import opened Words
  import opened Chunks
  import opened Sliding
  import G = Graph
  import L = Locations

  /** The new value of a word: a pointer to a live object becomes its new address. */
  ghost function Moved(c: Chunk, live: set<nat>, newBase: nat, v: nat): nat
    requires Increasing(c.starts)
  {
    if c.IsObject(v) && c.IndexOf(v) in live
    then newBase + 8 * Dest(c.starts, live, c.IndexOf(v)) + HEADER_BYTES
    else v
  }

  ghost predicate Within(c: Chunk, j: nat, p: nat)
    requires j + 1 < |c.starts|
  {
    c.starts[j] <= p < c.starts[j + 1]
  }

  /** The pointer fields of the live objects before k, and those of k below p, are done. */
  ghost predicate Done(c: Chunk, live: set<nat>, newBase: nat, words: seq<nat>, k: nat, upTo: nat)
    requires c.Parsed() && Increasing(c.starts)
  {
    && |c.words| <= |words|
    && forall j: nat, p: nat :: j < c.Count() && Within(c, j, p) ==>
         c.Block(j) && p < |c.words| && words[p] ==
           if j in live && c.Traced(j, p) && (j < k || (j == k && p < upTo))
           then Moved(c, live, newBase, c.words[p]) else c.words[p]
  }

  lemma StartUpdating(c: Chunk, live: set<nat>, newBase: nat, words: seq<nat>)
    requires c.Parsed() && Increasing(c.starts)
    requires c.words <= words
    ensures Done(c, live, newBase, words, 0, 0)
  {
    forall j: nat, p: nat | j < c.Count() && Within(c, j, p)
      ensures c.Block(j) && p < |c.words| && words[p] == c.words[p]
    {
      assert c.Block(j);
    }
  }

  /** Headers and forward words are still those of the old chunk. */
  lemma HeadersStay(c: Chunk, live: set<nat>, newBase: nat, words: seq<nat>, k: nat, upTo: nat, j: nat)
    requires c.Parsed() && Increasing(c.starts) && Done(c, live, newBase, words, k, upTo) && j < c.Count()
    ensures c.starts[j] + 2 <= c.starts[j + 1] <= |c.words| <= |words|
    ensures c.starts[j + 1] == c.starts[j] + ObjWords(c.words[c.starts[j]])
    ensures words[c.starts[j]] == c.words[c.starts[j]]
    ensures words[c.starts[j] + 1] == c.words[c.starts[j] + 1] == c.Forwards()[j]
  {
    assert c.Block(j);
    c.ForwardAt(j);
    assert Within(c, j, c.starts[j]) && Within(c, j, c.starts[j] + 1);
  }

  lemma BlocksAreApart(c: Chunk, i: nat, j: nat, p: nat)
    requires c.Parsed() && i < c.Count() && j < c.Count() && Within(c, i, p) && Within(c, j, p)
    ensures i == j
  {
    c.StartsInOrder(if i < j then i else j, if i < j then j else i);
  }

  lemma UpdateOne(c: Chunk, live: set<nat>, newBase: nat, words: seq<nat>, k: nat, p: nat)
    requires c.Parsed() && Increasing(c.starts) && Done(c, live, newBase, words, k, p)
    requires k < c.Count() && k in live && c.Block(k) && c.Traced(k, p)
    ensures p < |words| && words[p] == c.words[p]
    ensures Done(c, live, newBase, words[p := Moved(c, live, newBase, c.words[p])], k, p + 1)
  {
    assert Within(c, k, p);
    var after := words[p := Moved(c, live, newBase, c.words[p])];
    forall j: nat, q: nat | j < c.Count() && Within(c, j, q)
      ensures c.Block(j) && q < |c.words| && after[q] ==
           if j in live && c.Traced(j, q) && (j < k || (j == k && q < p + 1))
           then Moved(c, live, newBase, c.words[q]) else c.words[q]
    {
      if q == p { BlocksAreApart(c, j, k, p); }
    }
  }

  lemma SkipOdd(c: Chunk, live: set<nat>, newBase: nat, words: seq<nat>, k: nat, p: nat, q: nat)
    requires c.Parsed() && Increasing(c.starts) && Done(c, live, newBase, words, k, p)
    requires k < c.Count() && c.Block(k) && p <= q
    requires forall i :: p <= i < q && i < c.starts[k + 1] ==> words[i] % 2 == 1
    ensures Done(c, live, newBase, words, k, q)
  {
    forall j: nat, i: nat | j < c.Count() && Within(c, j, i)
      ensures c.Block(j) && i < |c.words| && words[i] ==
           if j in live && c.Traced(j, i) && (j < k || (j == k && i < q))
           then Moved(c, live, newBase, c.words[i]) else c.words[i]
    {
      if j == k && p <= i < q {
        assert words[i] == c.words[i];
        OddIsUnmoved(c, live, newBase, c.words[i]);
      }
    }
  }

  lemma OddIsUnmoved(c: Chunk, live: set<nat>, newBase: nat, v: nat)
    requires c.Parsed() && Increasing(c.starts) && v % 2 == 1
    ensures Moved(c, live, newBase, v) == v
  {
    if c.IsObject(v) { c.ObjectInRange(v); }
  }

  lemma NextObjectToUpdate(c: Chunk, live: set<nat>, newBase: nat, words: seq<nat>, k: nat, upTo: nat)
    requires c.Parsed() && Increasing(c.starts) && Done(c, live, newBase, words, k, upTo)
    requires k < c.Count() && (k in live ==> c.starts[k + 1] <= upTo)
    ensures Done(c, live, newBase, words, k + 1, 0)
  {}

  /** The word at which a field starts to be a field: nothing before it is traced. */
  lemma FirstFieldToUpdate(c: Chunk, live: set<nat>, newBase: nat, words: seq<nat>, k: nat)
    requires c.Parsed() && Increasing(c.starts) && Done(c, live, newBase, words, k, 0)
    requires k < c.Count() && c.Block(k)
    ensures Done(c, live, newBase, words, k, c.starts[k] + FirstField(c.words[c.starts[k]]))
  {}

  /** The address arithmetic of the fix: old header address to new content address. */
  lemma FixedPointer(c: Chunk, live: set<nat>, newBase: nat, capacity: nat, k: nat)
    requires c.Parsed() && Increasing(c.starts) && k < c.Count() && k in live
    requires L.Located(c.Forwards(), c.starts, live, c.base, c.Count())
    requires newBase + 8 * capacity < ADDRESS_SPACE && |c.words| <= capacity
    ensures GetForward(c.Forwards()[k]) >= c.base
    ensures (newBase + (GetForward(c.Forwards()[k]) - c.base) + HEADER_BYTES) % ADDRESS_SPACE
         == Moved(c, live, newBase, c.Content(k))
  {
    hide Chunk.Parsed, GetForward, Dest;
    c.OneTarget(k);
    DestAtMostStart(c.starts, live, k);
    c.ForwardIsApart(k, k);
    WithinAddressSpace(newBase + 8 * Dest(c.starts, live, k) + HEADER_BYTES);
  }

  lemma WithinAddressSpace(a: nat)
    requires a < ADDRESS_SPACE
    ensures a % ADDRESS_SPACE == a
  {}

  /** An old chunk whose live objects know where they go. */
  ghost predicate Ready(c: Chunk, live: set<nat>) {
    && c.Parsed() && c.WellPointed() && Increasing(c.starts)
    && live == c.Marked() && G.Closed(c.Graph(), live)
    && L.Located(c.Forwards(), c.starts, live, c.base, c.Count())
  }

  lemma ReadyMeans(c: Chunk, live: set<nat>)
    requires Ready(c, live)
    ensures c.Parsed() && c.WellPointed() && Increasing(c.starts) && G.Closed(c.Graph(), live)
    ensures L.Located(c.Forwards(), c.starts, live, c.base, c.Count())
    ensures c.base % 8 == 0
  {}

  lemma LiveMeansMarked(c: Chunk, live: set<nat>, k: nat)
    requires Ready(c, live) && k < c.Count()
    ensures k in live <==> IsMarked(c.Forwards()[k])
  {}

  /** The target of a pointer field of a live object is live. */
  lemma ChildIsLive(c: Chunk, live: set<nat>, k: nat, p: nat)
    requires Ready(c, live) && k < c.Count() && k in live && c.Block(k) && c.Traced(k, p)
    ensures c.InRange(c.words[p]) <==> c.IsObject(c.words[p])
    ensures c.IsObject(c.words[p]) ==> c.IndexOf(c.words[p]) in live
  {
    hide Chunk.Parsed, Chunk.WellPointed, Chunk.Graph;
    c.FieldIsEdge(k, p);
  }
}
