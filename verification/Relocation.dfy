/** physically_relocate: sliding the live objects down, in address order. */
module Relocation {
  import opened Words
  import opened Chunks
  import opened Sliding
  import R = References

  /** Word i of an object with this header has arrived: the mark is reset, and of the
      last word only the bytes that belong to the object count. */
  ghost predicate Arrived(header: nat, i: nat, src: nat, dst: nat) {
    if i == 1 then dst == ResetMark(src)
    else if i == ObjWords(header) - 1 then LowBytes(header, dst) == LowBytes(header, src)
    else dst == src
  }

  ghost predicate ObjectArrived(header: nat, src: seq<nat>, from: nat, dst: seq<nat>, to: nat)
    requires from + ObjWords(header) <= |src| && to + ObjWords(header) <= |dst|
  {
    forall i :: 0 <= i < ObjWords(header) ==> WordArrived(header, src, from, dst, to, i)
  }

  ghost predicate WordArrived(header: nat, src: seq<nat>, from: nat, dst: seq<nat>, to: nat, i: nat)
    requires from + i < |src| && to + i < |dst|
  {
    Arrived(header, i, src[from + i], dst[to + i])
  }

  /** Word p of `moved` comes from word i of the object that starts at `from`. */
  ghost predicate WordCopied(header: nat, before: seq<nat>, from: nat, moved: seq<nat>, to: nat, i: nat)
    requires from + i < |before| == |moved| && to + i < |moved|
  {
    moved[to + i] ==
      if i == ObjWords(header) - 1 then MergeLow(header, before[from + i], before[to + i]) else before[from + i]
  }

  ghost predicate Moves(c: Chunk, live: set<nat>, src: seq<nat>, dst: seq<nat>, j: nat)
    requires c.Parsed() && Increasing(c.starts) && j < c.Count() && |c.words| <= |src| == |dst|
  {
    DestAtMostStart(c.starts, live, j);
    assert c.Block(j);
    ObjectArrived(c.words[c.starts[j]], src, c.starts[j], dst, Dest(c.starts, live, j))
  }

  /** The live objects before k have arrived; nothing from object k on has changed. */
  ghost predicate Slid(c: Chunk, live: set<nat>, src: seq<nat>, dst: seq<nat>, k: nat)
    requires c.Parsed() && Increasing(c.starts) && k <= c.Count() && |c.words| <= |src|
  {
    && |dst| == |src|
    && (forall p :: c.starts[k] <= p < |src| ==> dst[p] == src[p])
    && forall j :: 0 <= j < k && j in live ==> Moves(c, live, src, dst, j)
  }

  /** What memmove of one object and unmark_object do to the words. */
  ghost predicate OneMoved(header: nat, before: seq<nat>, from: nat, after: seq<nat>, to: nat)
    requires from + ObjWords(header) <= |before| && to <= from
  {
    && |after| == |before|
    && ObjectArrived(header, before, from, after, to)
    && forall p :: 0 <= p < |before| && !(to <= p < to + ObjWords(header)) ==> after[p] == before[p]
  }

  lemma Room(c: Chunk, live: set<nat>, k: nat)
    requires c.Parsed() && Increasing(c.starts) && k < c.Count()
    ensures c.Block(k) && c.starts[k + 1] == c.starts[k] + ObjWords(c.words[c.starts[k]]) <= |c.words|
    ensures Dest(c.starts, live, k) <= c.starts[k]
  {
    assert c.Block(k);
    DestAtMostStart(c.starts, live, k);
  }

  lemma ArrivedStay(header: nat, src: seq<nat>, from: nat, before: seq<nat>, after: seq<nat>, to: nat)
    requires from + ObjWords(header) <= |src| && to + ObjWords(header) <= |before| == |after|
    requires ObjectArrived(header, src, from, before, to)
    requires forall p :: to <= p < to + ObjWords(header) ==> after[p] == before[p]
    ensures ObjectArrived(header, src, from, after, to)
  {
    forall i | 0 <= i < ObjWords(header)
      ensures WordArrived(header, src, from, after, to, i)
    {
      assert WordArrived(header, src, from, before, to, i);
    }
  }

  lemma ArrivedFrom(header: nat, src: seq<nat>, before: seq<nat>, from: nat, after: seq<nat>, to: nat)
    requires from + ObjWords(header) <= |src| == |before| == |after| && to + ObjWords(header) <= |after|
    requires forall p :: from <= p < |src| ==> before[p] == src[p]
    requires ObjectArrived(header, before, from, after, to)
    ensures ObjectArrived(header, src, from, after, to)
  {
    forall i | 0 <= i < ObjWords(header)
      ensures WordArrived(header, src, from, after, to, i)
    {
      assert WordArrived(header, before, from, after, to, i);
    }
  }

  /** Moving object k leaves the objects before it where they are and those after it alone. */
  lemma SlideOne(c: Chunk, live: set<nat>, src: seq<nat>, before: seq<nat>, after: seq<nat>, k: nat)
    requires c.Parsed() && Increasing(c.starts) && k < c.Count() && k in live && |c.words| <= |src|
    requires Slid(c, live, src, before, k)
    requires c.starts[k] + ObjWords(c.words[c.starts[k]]) <= |before| && Dest(c.starts, live, k) <= c.starts[k]
    requires OneMoved(c.words[c.starts[k]], before, c.starts[k], after, Dest(c.starts, live, k))
    ensures Slid(c, live, src, after, k + 1)
  {
    hide Chunk.Parsed, Arrived, ObjWords, ObjectArrived;
    Room(c, live, k);
    forall j | 0 <= j < k + 1 && j in live
      ensures Moves(c, live, src, after, j)
    {
      Room(c, live, j);
      if j < k {
        DestBlocksAreDisjoint(c.starts, live, j, k);
        assert Moves(c, live, src, before, j);
        ArrivedStay(c.words[c.starts[j]], src, c.starts[j], before, after, Dest(c.starts, live, j));
      } else {
        ArrivedFrom(c.words[c.starts[k]], src, before, c.starts[k], after, Dest(c.starts, live, k));
      }
    }
  }

  lemma SlideNone(c: Chunk, live: set<nat>, src: seq<nat>, dst: seq<nat>, k: nat)
    requires c.Parsed() && Increasing(c.starts) && k < c.Count() && k !in live && |c.words| <= |src|
    requires Slid(c, live, src, dst, k)
    ensures Slid(c, live, src, dst, k + 1)
  {
    c.StartsInOrder(k, k + 1);
  }

  lemma SlidLength(c: Chunk, live: set<nat>, src: seq<nat>, dst: seq<nat>, k: nat)
    requires c.Parsed() && Increasing(c.starts) && k <= c.Count() && |c.words| <= |src|
    requires Slid(c, live, src, dst, k)
    ensures |dst| == |src|
  {}

  lemma SlideStart(c: Chunk, live: set<nat>, src: seq<nat>)
    requires c.Parsed() && Increasing(c.starts) && |c.words| <= |src|
    ensures Slid(c, live, src, src, 0)
  {}

  /** The move of one object as bytes: whole words, then the bytes of the last one. */
  lemma MovedBytes(header: nat, before: seq<nat>, from: nat, moved: seq<nat>, after: seq<nat>, to: nat)
    requires from + ObjWords(header) <= |before| && to <= from && |moved| == |before|
    requires forall i :: 0 <= i < ObjWords(header) ==> WordCopied(header, before, from, moved, to, i)
    requires forall p :: 0 <= p < |before| && !(to <= p < to + ObjWords(header)) ==> moved[p] == before[p]
    requires after == moved[to + 1 := ResetMark(moved[to + 1])]
    ensures OneMoved(header, before, from, after, to)
  {
    hide MergeLow, ResetMark;
    if ObjWords(header) == 2 { WholeLastWord(header, before[from + 1], before[to + 1]); }
    forall i | 0 <= i < ObjWords(header)
      ensures WordArrived(header, before, from, after, to, i)
    {
      assert WordCopied(header, before, from, moved, to, i);
    }
  }

  lemma WholeLastWord(header: nat, src: nat, dst: nat)
    requires ObjWords(header) == 2
    ensures MergeLow(header, src, dst) == src
  {}

  /** Where object k goes, as the code computes it from the forward word. */
  lemma DestinationWord(c: Chunk, live: set<nat>, src: seq<nat>, dst: seq<nat>, newBase: nat, k: nat)
    requires R.Ready(c, live) && k < c.Count() && |c.words| <= |src|
    requires R.Done(c, live, newBase, src, c.Count(), 0) && Slid(c, live, src, dst, k)
    ensures c.starts[k] + 2 <= |dst| && dst[c.starts[k]] == c.words[c.starts[k]]
    ensures k in live <==> IsMarked(dst[c.starts[k] + 1])
    ensures k in live ==>
      && GetForward(dst[c.starts[k] + 1]) >= c.base
      && (GetForward(dst[c.starts[k] + 1]) - c.base) / WORD_BYTES == Dest(c.starts, live, k)
  {
    hide Chunk.Parsed, Chunk.WellPointed, Chunk.Graph, Moves, R.Done, GetForward, IsMarked, R.Ready;
    R.ReadyMeans(c, live);
    R.HeadersStay(c, live, newBase, src, c.Count(), 0, k);
    R.LiveMeansMarked(c, live, k);
    MultipleOf8(Dest(c.starts, live, k));
  }
}
