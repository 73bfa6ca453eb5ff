/** compute_locations on forward words: which bits it keeps and which addresses it sets. */
module Locations {
  import opened Words
  import opened Chunks
  import opened Sliding

  lemma ParsedIncreases(c: Chunk)
    requires c.Parsed()
    ensures Increasing(c.starts)
  {}

  ghost predicate SameBits(f: seq<nat>, g: seq<nat>) {
    && |g| == |f|
    && forall k :: 0 <= k < |f| ==> IsMarked(g[k]) == IsMarked(f[k]) && IsEnqueued(g[k]) == IsEnqueued(f[k])
  }

  /** The first `upTo` live objects know the address of their new header. */
  ghost predicate Located(f: seq<nat>, s: seq<nat>, live: set<nat>, base: nat, upTo: nat)
    requires Increasing(s) && |s| == |f| + 1
  {
    forall k :: 0 <= k < upTo && k < |f| && k in live ==> GetForward(f[k]) == base + 8 * Dest(s, live, k)
  }

  lemma SameBitsSameMarks(f: seq<nat>, g: seq<nat>)
    requires SameBits(f, g)
    ensures Marks(g) == Marks(f) && Enqueueds(g) == Enqueueds(f)
  {}

  lemma StartLocating(c: Chunk, live: set<nat>)
    requires c.Parsed()
    ensures Increasing(c.starts) && SameBits(c.Forwards(), c.Forwards()) && c.starts[0] == 0
    ensures Dest(c.starts, live, 0) == 0 && Located(c.Forwards(), c.starts, live, c.base, 0)
  {}

  lemma LocateOne(f: seq<nat>, g: seq<nat>, s: seq<nat>, live: set<nat>, base: nat, k: nat)
    requires Increasing(s) && |s| == |f| + 1 && k < |f| && base % 8 == 0
    requires SameBits(f, g) && live == Marks(f) && Located(g, s, live, base, k)
    ensures (base + 8 * Dest(s, live, k)) % 4 == 0
    ensures IsMarked(g[k]) <==> k in live
    ensures k in live ==>
      var h := g[k := SetForward(g[k], base + 8 * Dest(s, live, k))];
      SameBits(f, h) && Located(h, s, live, base, k + 1)
    ensures k !in live ==> Located(g, s, live, base, k + 1)
    ensures Dest(s, live, k + 1) == Dest(s, live, k) + if k in live then s[k + 1] - s[k] else 0
  {
    MultipleOf8(base / 8 + Dest(s, live, k));
    assert base + 8 * Dest(s, live, k) == 8 * (base / 8 + Dest(s, live, k));
  }
}
