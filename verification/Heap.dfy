/** The collected heap of runtime/gc.c: bump allocation, object and field iterators,
    and the marking of everything reachable from a root. */
module Heaps {
  import opened Words
  import opened Chunks
  import G = Graph
  import Q = MarkQueue
  import L = Locations
  import S = Sliding
  import R = References
  import M = Relocation
  import A = Allocation

  class Heap {
    var mem: array<nat>     // the words of [heap.begin, heap.end)
    var base: nat           // heap.begin as an address
    var current: nat        // heap.current, as a word offset from heap.begin
    ghost var starts: seq<nat>

    /** __init: an empty heap in a fresh region at `region`. */
    constructor (region: nat, capacity: nat)
      requires region % 8 == 0 && region > 0 && region + WORD_BYTES * capacity < ADDRESS_SPACE
      ensures fresh(mem) && mem.Length == capacity && base == region && current == 0
      ensures Parsed() && View().Count() == 0
    {
      mem := new nat[capacity](_ => 0);
      base := region;
      current := 0;
      starts := [0];
    }

    ghost function View(): Chunk
      reads this, mem
    {
      Chunk(mem[..], starts, base)
    }

    ghost predicate Parsed()
      reads this, mem
    {
      View().Parsed() && View().Current() == current
    }

    predicate IsValidHeapPointer(v: nat)
      reads this
    {
      v % 2 == 0 && base <= v <= base + WORD_BYTES * current
    }

    // Reading and writing forward words

    function ForwardCell(obj: nat): int
      reads this
    {
      (obj - base) / WORD_BYTES - 1
    }

    method ReadForward(obj: nat, ghost k: nat) returns (x: nat)
      requires k < |starts| && starts[k] + 1 < mem.Length && base % 8 == 0 && obj == View().Content(k)
      ensures x == mem[starts[k] + 1]
    {
      Aligned(base, starts[k]);
      x := mem[ForwardCell(obj)];
    }

    method WriteForward(obj: nat, x: nat, ghost k: nat)
      requires k < |starts| && starts[k] + 1 < mem.Length && base % 8 == 0 && obj == View().Content(k)
      modifies mem
      ensures View() == old(View().WithForward(k, x))
    {
      Aligned(base, starts[k]);
      mem[ForwardCell(obj)] := x;
    }

    method ReadWord(obj: nat, i: nat, ghost k: nat) returns (x: nat)
      requires k < |starts| && starts[k] + i < mem.Length && base % 8 == 0 && obj == View().Content(k)
      ensures x == mem[starts[k] + i]
    {
      Aligned(base, starts[k]);
      x := mem[(obj - base) / WORD_BYTES - 2 + i];
    }

    method WriteWord(obj: nat, i: nat, x: nat, ghost k: nat)
      requires k < |starts| && starts[k] + i < mem.Length && base % 8 == 0 && obj == View().Content(k)
      modifies mem
      ensures mem[..] == old(mem[..])[starts[k] + i := x]
    {
      Aligned(base, starts[k]);
      mem[(obj - base) / WORD_BYTES - 2 + i] := x;
    }

    // Iterators

    function NextObject(pos: nat): nat
      requires pos < mem.Length
      reads this, mem
    {
      pos + ObjWords(mem[pos])
    }

    /** The first word from `from` on that holds a pointer, or the end of the object. */
    method SkipImmediates(from: nat, end: nat) returns (p: nat)
      requires end <= mem.Length
      ensures from <= p && (from < end ==> p <= end) && (p < end ==> mem[p] % 2 == 0)
      ensures forall q :: from <= q < p && q < end ==> mem[q] % 2 == 1
    {
      p := from;
      while p < end && mem[p] % 2 == 1
        invariant from <= p && (from < end ==> p <= end)
        invariant forall q :: from <= q < p && q < end ==> mem[q] % 2 == 1
      {
        p := p + 1;
      }
    }

    // Bump allocation (runtime/gc.c:189-197)

    /** Takes and zeroes `size` words after the objects, if the chunk has them. */
    method AllocOnExistingHeap(size: nat) returns (ok: bool, p: nat)
      requires current <= mem.Length
      modifies `current, mem
      ensures ok <==> old(current) + size <= mem.Length
      ensures p == base + WORD_BYTES * old(current)
      ensures current == old(current) + if ok then size else 0
      ensures !ok ==> unchanged(`current) && unchanged(mem)
      ensures forall i :: 0 <= i < mem.Length ==> mem[i] == if old(current) <= i < current then 0 else old(mem[i])
    {
      p := base + WORD_BYTES * current;
      ok := current + size <= mem.Length;
      if ok {
        forall i | current <= i < current + size {
          mem[i] := 0;
        }
        current := current + size;
      }
    }

    /** The header of a new block: it becomes the last object of the chunk. */
    method WriteHeader(p: nat, header: nat, ghost at: nat, ghost c: Chunk)
      requires IsHeader(header) && p == base + WORD_BYTES * at && current == at + ObjWords(header) <= mem.Length
      requires c.Parsed() && c.Current() == at && c.starts == starts && c.base == base && |c.words| == mem.Length
      requires forall i :: 0 <= i < at ==> mem[i] == c.words[i]
      requires forall i :: at <= i < current ==> mem[i] == 0
      modifies `starts, mem
      ensures A.Appended(c, header, View()) && current == View().Current()
      ensures View().Parsed()
    {
      hide Chunk.Parsed, ObjWords;
      MultipleOf8(at);
      mem[(p - base) / WORD_BYTES] := header;
      mem[(p - base) / WORD_BYTES + 1] := 0;
      starts := starts + [current];
      A.AppendedParses(c, header, View());
    }

    // Marking (runtime/gc.c:507-554)

    method QueueEnqueue(tail: nat, obj: nat, ghost t: nat, ghost k: nat) returns (next: nat)
      requires View().Parsed() && t < View().Count() && k < View().Count()
      requires tail == starts[t] && obj == View().Content(k)
      modifies mem
      ensures View() == Q.EnqueueIn(old(View()), t, k)
      ensures next == starts[t + 1]
    {
      hide Chunk.Parsed, Chunk.Block, SetForward, MakeEnqueued;
      ghost var c := View();
      c.ShapeIsReflexive();
      c.FieldsAt(c, t);
      c.FieldsAt(c, k);
      c.BaseIsAligned();
      c.ForwardIsApart(t, t);
      c.ForwardIsApart(k, t);
      Aligned(base, starts[k]);
      var tailContent := base + WORD_BYTES * tail + HEADER_BYTES;
      var x := ReadForward(tailContent, t);
      WriteForward(tailContent, SetForward(x, obj), t);
      ghost var d := c.WithForward(t, SetForward(x, obj));
      assert View() == d;
      x := ReadForward(obj, k);
      WriteForward(obj, MakeEnqueued(x), k);
      next := NextObject(tail);
    }

    method QueueDequeue(head: nat, ghost h: nat, ghost k: nat) returns (obj: nat, next: nat)
      requires View().Parsed() && h < View().Count() && k < View().Count()
      requires head == starts[h] && GetForward(View().Forwards()[h]) == View().Content(k)
      modifies mem
      ensures obj == View().Content(k) && next == starts[h + 1]
      ensures View() == old(View().WithForward(k, MakeDequeued(View().Forwards()[k])))
    {
      assert View().Block(h) && View().Block(k);
      View().ForwardIsApart(k, h);
      var x := ReadForward(base + WORD_BYTES * head + HEADER_BYTES, h);
      obj := GetForward(x);
      x := ReadForward(obj, k);
      WriteForward(obj, MakeDequeued(x), k);
      next := NextObject(head);
    }

    method MarkObject(obj: nat, ghost k: nat)
      requires k < |starts| && starts[k] + 1 < mem.Length && base % 8 == 0 && obj == View().Content(k)
      modifies mem
      ensures View() == old(View().WithForward(k, SetMark(mem[starts[k] + 1])))
    {
      var x := ReadForward(obj, k);
      WriteForward(obj, SetMark(x), k);
    }

    /** What the marking has reached: the chunk differs from `c` in forward words only,
        and its forward words hold the queue. */
    ghost predicate Marking(c: Chunk, marked: set<nat>, history: seq<nat>, head: nat)
      requires c.Parsed()
      reads this, mem
    {
      && c.SameShape(View()) && View().Parsed() && c.Current() == current
      && head <= |history| <= c.Count()
      && Q.State(View().Forwards(), c.Contents(), marked, history, head)
    }

    /** One queue cell per object, so the tail stays inside the heap. */
    method EnqueueObject(tail: nat, obj: nat, ghost k: nat, ghost c: Chunk, ghost marked: set<nat>,
        ghost history: seq<nat>, ghost head: nat)
      returns (next: nat)
      requires c.Parsed() && Marking(c, marked, history, head)
      requires k < c.Count() && obj == c.Content(k)
      requires k !in marked && k !in history
      requires tail == starts[|history|]
      modifies mem
      ensures |history| < c.Count() && Marking(c, marked, history + [k], head)
      ensures next == c.starts[|history| + 1]
    {
      hide Chunk.Parsed, Chunk.SameShape, Q.State, Chunk.Forwards, Chunk.Contents, Q.Enqueue, Q.EnqueueIn;
      ghost var d := View();
      c.FieldsAt(d, k);
      c.SameContents(d);
      Q.FreshObject(d.Forwards(), c.Contents(), marked, history, head, k);
      Q.EnqueueInChunk(d, |history|, k);
      Q.EnqueueAppends(d.Forwards(), c.Contents(), marked, history, head, k);
      next := QueueEnqueue(tail, obj, |history|, k);
      c.ShapeIsTransitive(d, View());
    }

    ghost predicate FieldsSeen(c: Chunk, k: nat, end: nat, seen: set<nat>)
      requires c.Parsed() && k < c.Count() && c.Block(k)
    {
      forall q: nat, j: nat :: c.Traced(k, q) && q < end && j < c.Count() && c.words[q] == c.Content(j) ==> j in seen
    }

    /** The field loop of mark: every unseen child of object k joins the queue. */
    method EnqueueFields(pos: nat, tail: nat, ghost k: nat, ghost c: Chunk, ghost marked: set<nat>,
        ghost history: seq<nat>, ghost head: nat)
      returns (next: nat, ghost longer: seq<nat>)
      requires c.Parsed() && c.WellPointed() && Marking(c, marked, history, head)
      requires k < c.Count() && c.Block(k) && pos == c.starts[k] && tail == c.starts[|history|]
      modifies mem
      ensures Marking(c, marked, longer, head) && next == c.starts[|longer|]
      ensures history <= longer
      ensures forall i :: |history| <= i < |longer| ==> longer[i] in c.Graph()[k]
      ensures c.Graph()[k] <= marked + Q.Elements(longer)
    {
      hide Chunk.Parsed, Chunk.SameShape, Chunk.WellPointed, Chunk.Block, Chunk.Graph, Q.State;
      c.FieldsAt(View(), k);
      var end := NextObject(pos);
      var p := SkipImmediates(pos + FirstField(mem[pos]), end);
      next, longer := tail, history;
      ImmediatesSeen(c, k, pos + FirstField(mem[pos]), p, marked + Q.Elements(longer));
      while p < end
        invariant Marking(c, marked, longer, head) && next == c.starts[|longer|]
        invariant pos + FirstField(c.words[pos]) <= p && (p < end ==> c.words[p] % 2 == 0)
        invariant history <= longer
        invariant forall i :: |history| <= i < |longer| ==> longer[i] in c.Graph()[k]
        invariant FieldsSeen(c, k, p, marked + Q.Elements(longer))
      {
        c.FieldsAt(View(), k);
        c.FieldIsEdge(k, p);
        var v := mem[p];
        ghost var seen := marked + Q.Elements(longer);
        if IsValidHeapPointer(v) {
          ghost var j := c.IndexOf(v);
          next, longer := EnqueueUnseen(next, v, j, c, marked, longer, head);
        }
        FieldSeen(c, k, p, seen, marked + Q.Elements(longer));
        ghost var seenTo := p + 1;
        c.FieldsAt(View(), k);
        p := SkipImmediates(p + 1, end);
        ImmediatesSeen(c, k, seenTo, p, marked + Q.Elements(longer));
      }
      AllFieldsSeen(c, k, marked + Q.Elements(longer));
    }

    lemma FieldSeen(c: Chunk, k: nat, p: nat, before: set<nat>, seen: set<nat>)
      requires c.Parsed() && k < c.Count() && c.Block(k) && c.Traced(k, p)
      requires FieldsSeen(c, k, p, before) && before <= seen
      requires c.IsObject(c.words[p]) ==> c.IndexOf(c.words[p]) in seen
      ensures FieldsSeen(c, k, p + 1, seen)
    {
      forall j: nat | j < c.Count() && c.words[p] == c.Content(j)
        ensures j in seen
      {
        c.ContentIsInjective(j, c.IndexOf(c.words[p]));
      }
    }

    lemma ImmediatesSeen(c: Chunk, k: nat, from: nat, to: nat, seen: set<nat>)
      requires c.Parsed() && k < c.Count() && c.Block(k) && FieldsSeen(c, k, from, seen)
      requires forall q :: from <= q < to && q < c.starts[k + 1] ==> c.words[q] % 2 == 1
      ensures FieldsSeen(c, k, to, seen)
    {
      forall q: nat, j: nat | c.Traced(k, q) && q < to && j < c.Count() && c.words[q] == c.Content(j)
        ensures j in seen
      {
        Aligned(c.base, c.starts[j]);
      }
    }

    lemma AllFieldsSeen(c: Chunk, k: nat, seen: set<nat>)
      requires c.Parsed() && k < c.Count() && c.Block(k) && FieldsSeen(c, k, c.starts[k + 1], seen)
      ensures c.Graph()[k] <= seen
    {
      forall j | j in c.Graph()[k]
        ensures j in seen
      {
        assert c.Edge(k, j);
        var p: nat :| c.Traced(k, p) && c.words[p] == c.Content(j);
      }
    }

    method EnqueueUnseen(tail: nat, obj: nat, ghost k: nat, ghost c: Chunk, ghost marked: set<nat>,
        ghost history: seq<nat>, ghost head: nat)
      returns (next: nat, ghost longer: seq<nat>)
      requires c.Parsed() && Marking(c, marked, history, head)
      requires k < c.Count() && obj == c.Content(k) && tail == c.starts[|history|]
      modifies mem
      ensures Marking(c, marked, longer, head) && next == c.starts[|longer|]
      ensures longer == history || longer == history + [k]
      ensures k in marked + Q.Elements(longer)
    {
      hide Chunk.Parsed, Chunk.SameShape, Q.State;
      c.ForwardCell(View(), k);
      Q.SeenObject(View().Forwards(), c.Contents(), marked, history, head, k);
      next, longer := tail, history;
      var x := ReadForward(obj, k);
      if !IsMarked(x) && !IsEnqueued(x) {
        next := EnqueueObject(tail, obj, k, c, marked, history, head);
        longer := history + [k];
      }
    }

    /** Marks everything reachable from the object `obj` points to, if it points to one. */
    method Mark(obj: nat)
      requires Parsed() && View().WellPointed() && View().Good(obj)
      requires View().Enqueued() == {} && G.Closed(View().Graph(), View().Marked())
      modifies mem
      ensures Parsed() && old(View()).SameShape(View())
      ensures View().Enqueued() == {} && G.Closed(View().Graph(), View().Marked())
      ensures View().Marked() == old(View().Marked() + G.Reach(View().Graph(), View().Targets([obj])))
    {
      hide Chunk.SameShape, Chunk.WellPointed, Chunk.Block, Chunk.Graph, Q.State, G.Reach, G.Closed;
      ghost var c, marked := View(), View().Marked();
      c.GoodInRange(obj);
      if !IsValidHeapPointer(obj) {
        c.ShapeIsReflexive();
        c.NoTargets(obj);
        G.ReachLeast(c.Graph(), {}, {});
        assert G.Reach(c.Graph(), {}) == {};
        return;
      }
      ghost var root := c.IndexOf(obj);
      c.OneTarget(root);
      c.ShapeIsReflexive();
      c.ForwardCell(c, root);
      var x := ReadForward(obj, root);
      if IsMarked(x) {
        assert root in marked;
        c.GraphIsWellFormed();
        G.ReachLeast(c.Graph(), {root}, marked);
        assert marked == marked + G.Reach(c.Graph(), {root});
        return;
      }
      MarkFrom(obj, root, c, marked);
      c.ShapeKeepsGraph(View());
    }

    method MarkFrom(obj: nat, ghost root: nat, ghost c: Chunk, ghost marked: set<nat>)
      requires View() == c && Parsed() && c.WellPointed()
      requires c.Enqueued() == {} && marked == c.Marked() && G.Closed(c.Graph(), marked)
      requires root < c.Count() && obj == c.Content(root) && root !in marked
      modifies mem
      ensures Parsed() && c.SameShape(View())
      ensures View().Enqueued() == {}
      ensures View().Marked() == marked + G.Reach(c.Graph(), {root})
      ensures G.Closed(c.Graph(), View().Marked())
    {
      hide Chunk.Parsed, Chunk.SameShape, Chunk.WellPointed, Chunk.Block, Chunk.Graph, Chunk.Forwards, Chunk.Contents;
      hide Q.State, G.Reach, G.Closed, G.WellFormed;
      ghost var g := c.Graph();
      c.GraphIsWellFormed();
      c.ShapeIsReflexive();
      Q.EmptyQueue(c.Forwards(), c.Contents(), marked);
      c.FirstStart();
      var head, tail := 0, 0;
      tail := EnqueueObject(tail, obj, root, c, marked, [], 0);
      ghost var history: seq<nat>, done := [root], 0;
      G.ReachRoot(g, {root}, root);
      assert [] + [root] == history;
      while head != tail
        invariant Marking(c, marked, history, done)
        invariant head == c.starts[done] && tail == c.starts[|history|]
        invariant Q.Explored(g, marked, history, done, root)
        decreases c.Count() - done
      {
        head, tail, history := MarkNext(head, tail, c, marked, history, done, root);
        done := done + 1;
      }
      c.StartsDiffer(done, |history|);
      Q.DrainedQueue(View().Forwards(), c.Contents(), marked, history);
      Q.ExploredAll(g, marked, history, root);
    }

    /** One turn of the outer loop of mark. */
    method MarkNext(head: nat, tail: nat, ghost c: Chunk, ghost marked: set<nat>, ghost history: seq<nat>,
        ghost done: nat, ghost root: nat)
      returns (nextHead: nat, nextTail: nat, ghost longer: seq<nat>)
      requires c.Parsed() && c.WellPointed() && Marking(c, marked, history, done)
      requires done < |history| && head == c.starts[done] && tail == c.starts[|history|]
      requires Q.Explored(c.Graph(), marked, history, done, root)
      modifies mem
      ensures Marking(c, marked, longer, done + 1)
      ensures nextHead == c.starts[done + 1] && nextTail == c.starts[|longer|]
      ensures Q.Explored(c.Graph(), marked, longer, done + 1, root)
    {
      hide Chunk.Parsed, Chunk.SameShape, Chunk.WellPointed, Chunk.Block, Chunk.Graph, Chunk.Forwards, Chunk.Contents;
      hide Q.State, G.Reach, G.Closed, G.WellFormed, Q.DequeueAndMark;
      ghost var d := View();
      c.ShapeKeepsLayout(d);
      Q.Oldest(d.Forwards(), c.Contents(), marked, history, done);
      ghost var k := history[done];
      c.ForwardCell(d, k);
      d.SameContents(c);
      c.ContentAt(k);
      Q.DequeueTakesOldest(d.Forwards(), c.Contents(), marked, history, done);
      Q.DequeueInChunk(d, k);
      var obj;
      obj, nextHead := QueueDequeue(head, done, k);
      MarkObject(obj, k);
      assert View() == Q.DequeueAndMarkIn(d, k);
      c.ShapeIsTransitive(d, View());
      c.FieldsAt(View(), k);
      nextTail, longer := EnqueueFields((obj - base) / WORD_BYTES - 2, tail, k, c, marked, history, done + 1);
      c.GraphIsWellFormed();
      Q.ExploreOne(c.Graph(), marked, history, longer, done, root);
    }

    // Compaction (runtime/gc.c:276-328, 423-499)

    /** Every live object learns the address of its new header; returns the live words. */
    method ComputeLocations(ghost live: set<nat>) returns (liveWords: nat)
      requires Parsed() && live == View().Marked()
      modifies mem
      ensures Parsed() && old(View()).SameShape(View())
      ensures L.SameBits(old(View().Forwards()), View().Forwards())
      ensures S.Increasing(starts) && L.Located(View().Forwards(), starts, live, base, View().Count())
      ensures liveWords == S.Dest(starts, live, View().Count())
    {
      hide Chunk.Parsed, Chunk.SameShape, Chunk.Block, Chunk.Forwards, L.SameBits, L.Located, S.Increasing, S.Dest;
      ghost var c, f, k := View(), View().Forwards(), 0;
      c.ShapeIsReflexive();
      L.StartLocating(c, live);
      var pos := 0;
      liveWords := 0;
      while pos < current
        invariant k <= c.Count() && c.SameShape(View()) && View().Parsed() && current == c.Current()
        invariant pos == c.starts[k]
        invariant S.Increasing(c.starts) && liveWords == S.Dest(c.starts, live, k)
        invariant L.SameBits(f, View().Forwards()) && |View().Forwards()| == c.Count()
        invariant L.Located(View().Forwards(), c.starts, live, base, k)
        decreases c.Count() - k
      {
        pos, liveWords := LocateNext(pos, liveWords, k, c, f, live);
        k := k + 1;
      }
    }

    method LocateNext(pos: nat, liveWords: nat, ghost k: nat, ghost c: Chunk, ghost f: seq<nat>, ghost live: set<nat>)
      returns (nextPos: nat, nextWords: nat)
      requires c.Parsed() && k < c.Count() && c.SameShape(View()) && View().Parsed() && pos == c.starts[k]
      requires f == c.Forwards() && live == c.Marked()
      requires S.Increasing(c.starts) && liveWords == S.Dest(c.starts, live, k)
      requires L.SameBits(f, View().Forwards()) && L.Located(View().Forwards(), c.starts, live, base, k)
      modifies mem
      ensures c.SameShape(View()) && View().Parsed() && |View().Forwards()| == c.Count()
      ensures nextPos == c.starts[k + 1] && nextWords == S.Dest(c.starts, live, k + 1)
      ensures L.SameBits(f, View().Forwards()) && L.Located(View().Forwards(), c.starts, live, base, k + 1)
    {
      hide Chunk.Parsed, Chunk.SameShape, Chunk.Block, Chunk.Forwards, L.SameBits, L.Located, S.Increasing, S.Dest;
      hide SetForward, GetForward, IsMarked, ObjWords;
      c.FieldsAt(View(), k);
      c.ForwardCell(View(), k);
      L.LocateOne(f, View().Forwards(), c.starts, live, base, k);
      var obj := base + WORD_BYTES * pos + HEADER_BYTES;
      var x := ReadForward(obj, k);
      var words := ObjWords(mem[pos]);
      nextPos, nextWords := pos + words, liveWords;
      if IsMarked(x) {
        ghost var d, y := View(), SetForward(x, base + WORD_BYTES * liveWords);
        d.ForwardWritten(k, y);
        WriteForward(obj, SetForward(x, base + WORD_BYTES * liveWords), k);
        c.ShapeIsTransitive(d, View());
        nextWords := liveWords + words;
      }
    }

    /** mmap of a larger region and memcpy of the old chunk into it. */
    method Remap(region: nat, capacity: nat)
      requires mem.Length <= capacity
      modifies this
      ensures fresh(mem) && mem.Length == capacity && base == region
      ensures old(mem[..]) == mem[..old(mem.Length)]
      ensures starts == old(starts) && current == old(current)
    {
      var chunk := new nat[capacity](_ => 0);
      forall i | 0 <= i < mem.Length {
        chunk[i] := mem[i];
      }
      mem, base := chunk, region;
    }

    /** The heap now ends after the live objects. */
    method Finish(liveWords: nat, ghost newStarts: seq<nat>)
      modifies this
      ensures mem == old(mem) && base == old(base) && current == liveWords && starts == newStarts
    {
      current, starts := liveWords, newStarts;
    }

    /** The new value of a pointer into the chunk that started at `oldBase`. */
    function Fixed(v: nat, oldBase: nat): nat
      requires 0 <= (v - oldBase) / WORD_BYTES - 1 < mem.Length
      reads this, mem
    {
      (base + (GetForward(mem[(v - oldBase) / WORD_BYTES - 1]) - oldBase) + HEADER_BYTES) % ADDRESS_SPACE
    }

    /** This heap holds a copy of chunk `c`, which is being updated to the new base. */
    ghost predicate Updating(c: Chunk, live: set<nat>, k: nat, upTo: nat)
      reads this, mem
    {
      && R.Ready(c, live)
      && starts == c.starts && current == c.Current() && |c.words| <= mem.Length
      && IsBase(base) && base + WORD_BYTES * mem.Length < ADDRESS_SPACE
      && R.Done(c, live, base, mem[..], k, upTo)
    }

    lemma FixedIsMoved(c: Chunk, live: set<nat>, k: nat, upTo: nat, target: nat)
      requires Updating(c, live, k, upTo) && target < c.Count()
      ensures 0 <= (c.Content(target) - c.base) / WORD_BYTES - 1 < mem.Length
      ensures target in live ==> Fixed(c.Content(target), c.base) == R.Moved(c, live, base, c.Content(target))
    {
      hide Chunk.Parsed, R.Moved, R.Done, L.Located, GetForward, S.Dest, R.Ready;
      R.ReadyMeans(c, live);
      Aligned(c.base, c.starts[target]);
      R.HeadersStay(c, live, base, mem[..], k, upTo, target);
      if target in live {
        R.FixedPointer(c, live, base, mem.Length, target);
      }
    }

    method UpdateField(p: nat, oldBase: nat, oldCurrent: nat, ghost k: nat, ghost c: Chunk, ghost live: set<nat>)
      requires Updating(c, live, k, p) && oldBase == c.base && oldCurrent == c.Current()
      requires k < c.Count() && k in live && c.Block(k) && c.Traced(k, p)
      requires p < mem.Length && mem[p] % 2 == 0
      modifies mem
      ensures Updating(c, live, k, p + 1)
    {
      hide Chunk.Parsed, Chunk.WellPointed, Chunk.Graph, R.Ready, R.Done, Chunk.Block, Chunk.Traced;
      R.ReadyMeans(c, live);
      R.ChildIsLive(c, live, k, p);
      R.UpdateOne(c, live, base, mem[..], k, p);
      var v := mem[p];
      if oldBase <= v <= oldBase + WORD_BYTES * oldCurrent {
        FixedIsMoved(c, live, k, p, c.IndexOf(v));
        mem[p] := Fixed(v, oldBase);
      } else {
        assert mem[..] == mem[..][p := v];
      }
    }

    method UpdateFields(pos: nat, oldBase: nat, oldCurrent: nat, ghost k: nat, ghost c: Chunk, ghost live: set<nat>)
      requires Updating(c, live, k, 0) && oldBase == c.base && oldCurrent == c.Current()
      requires k < c.Count() && k in live && pos == c.starts[k]
      modifies mem
      ensures Updating(c, live, k + 1, 0)
    {
      hide Chunk.Parsed, Chunk.WellPointed, Chunk.Graph, R.Ready, R.Done, Chunk.Block, Chunk.SameShape, ObjWords,
          FirstField, IsBase;
      R.ReadyMeans(c, live);
      R.HeadersStay(c, live, base, mem[..], k, 0, k);
      M.Room(c, live, k);
      FirstFieldIsContent(mem[pos]);
      R.FirstFieldToUpdate(c, live, base, mem[..], k);
      var end := NextObject(pos);
      var p := NextPointerToUpdate(pos + FirstField(mem[pos]), end, k, c, live);
      while p < end
        invariant Updating(c, live, k, p)
        invariant pos + FirstField(c.words[pos]) <= p && (p < end ==> mem[p] % 2 == 0)
      {
        UpdateField(p, oldBase, oldCurrent, k, c, live);
        p := NextPointerToUpdate(p + 1, end, k, c, live);
      }
      R.NextObjectToUpdate(c, live, base, mem[..], k, p);
    }

    method NextPointerToUpdate(from: nat, end: nat, ghost k: nat, ghost c: Chunk, ghost live: set<nat>) returns (p: nat)
      requires Updating(c, live, k, from) && k < c.Count() && c.Block(k) && end == c.starts[k + 1] <= mem.Length
      ensures from <= p && (p < end ==> mem[p] % 2 == 0) && Updating(c, live, k, p)
    {
      hide Chunk.Parsed, Chunk.WellPointed, Chunk.Graph, R.Ready, R.Done, Chunk.Block, IsBase;
      R.ReadyMeans(c, live);
      p := SkipImmediates(from, end);
      R.SkipOdd(c, live, base, mem[..], k, from, p);
    }

    /** One object of the pass; the next one begins behind it. */
    method UpdateNext(pos: nat, oldBase: nat, oldCurrent: nat, ghost k: nat, ghost c: Chunk, ghost live: set<nat>)
      returns (next: nat)
      requires Updating(c, live, k, 0) && oldBase == c.base && oldCurrent == c.Current()
      requires k < c.Count() && pos == c.starts[k]
      modifies mem
      ensures Updating(c, live, k + 1, 0) && next == c.starts[k + 1]
    {
      hide Chunk.Parsed, Chunk.WellPointed, Chunk.Graph, R.Ready, R.Done, Chunk.Block, ObjWords, FirstField, L.Located;
      R.ReadyMeans(c, live);
      c.ShapeIsReflexive();
      c.FieldsAt(c, k);
      R.HeadersStay(c, live, base, mem[..], k, 0, k);
      R.LiveMeansMarked(c, live, k);
      next := NextObject(pos);
      if IsMarked(mem[pos + 1]) {
        UpdateFields(pos, oldBase, oldCurrent, k, c, live);
      } else {
        R.NextObjectToUpdate(c, live, base, mem[..], k, 0);
      }
    }

    /** The heap part of update_references. */
    method UpdateReferences(oldBase: nat, oldCurrent: nat, ghost c: Chunk, ghost live: set<nat>)
      requires Updating(c, live, 0, 0) && oldBase == c.base && oldCurrent == c.Current()
      modifies mem
      ensures Updating(c, live, c.Count(), 0)
    {
      hide Chunk.Parsed, Chunk.WellPointed, Chunk.Graph, R.Ready, R.Done, Chunk.Block, ObjWords, L.Located;
      R.ReadyMeans(c, live);
      c.FirstStart();
      var pos := 0;
      ghost var k := 0;
      while pos < current
        invariant k <= c.Count() && pos == c.starts[k] && Updating(c, live, k, 0)
        decreases c.Count() - k
      {
        pos := UpdateNext(pos, oldBase, oldCurrent, k, c, live);
        k := k + 1;
      }
      c.StartsInOrder(k, c.Count());
    }

    /** memmove of the bytes of one object: source and destination may overlap. */
    method MoveObject(to: nat, from: nat)
      requires from < mem.Length && from + ObjWords(mem[from]) <= mem.Length && to <= from
      modifies mem
      ensures var header := old(mem[from]);
        forall i :: 0 <= i < ObjWords(header) ==> M.WordCopied(header, old(mem[..]), from, mem[..], to, i)
      ensures forall p :: 0 <= p < mem.Length && !(to <= p < to + old(ObjWords(mem[from]))) ==> mem[p] == old(mem[p])
    {
      hide MergeLow;
      var header := mem[from];
      var last := ObjWords(header) - 1;
      var lastWord := MergeLow(header, mem[from + last], mem[to + last]);
      forall i | 0 <= i < last {
        mem[to + i] := mem[from + i];
      }
      mem[to + last] := lastWord;
    }

    /** Slides the live objects down to their new addresses and clears their marks. */
    method PhysicallyRelocate(oldBase: nat, ghost c: Chunk, ghost live: set<nat>)
      requires R.Ready(c, live) && Updating(c, live, c.Count(), 0) && oldBase == c.base
      modifies mem
      ensures R.Ready(c, live) && M.Slid(c, live, old(mem[..]), mem[..], c.Count())
    {
      hide Chunk.Parsed, Chunk.WellPointed, Chunk.Graph, R.Ready, R.Done, Chunk.Block, M.Slid, M.OneMoved;
      R.ReadyMeans(c, live);
      c.FirstStart();
      ghost var src, k := mem[..], 0;
      M.SlideStart(c, live, src);
      var pos := 0;
      while pos < current
        invariant k <= c.Count() && pos == c.starts[k] && M.Slid(c, live, src, mem[..], k)
        decreases c.Count() - k
      {
        pos := RelocateNext(pos, oldBase, k, c, live, src);
        k := k + 1;
      }
      c.StartsInOrder(k, c.Count());
    }

    method RelocateNext(pos: nat, oldBase: nat, ghost k: nat, ghost c: Chunk, ghost live: set<nat>, ghost src: seq<nat>)
      returns (next: nat)
      requires R.Ready(c, live) && k < c.Count() && pos == c.starts[k] && oldBase == c.base && starts == c.starts
      requires |c.words| <= |src| && R.Done(c, live, base, src, c.Count(), 0) && M.Slid(c, live, src, mem[..], k)
      modifies mem
      ensures next == c.starts[k + 1] && M.Slid(c, live, src, mem[..], k + 1)
    {
      hide Chunk.Parsed, Chunk.WellPointed, Chunk.Graph, R.Ready, R.Done, Chunk.Block, M.Slid, M.OneMoved;
      hide ObjWords, GetForward, IsMarked, ResetMark, M.WordCopied;
      R.ReadyMeans(c, live);
      M.SlidLength(c, live, src, mem[..], k);
      M.Room(c, live, k);
      M.DestinationWord(c, live, src, mem[..], base, k);
      next := NextObject(pos);
      if IsMarked(mem[pos + 1]) {
        ghost var before := mem[..];
        var to := (GetForward(mem[pos + 1]) - oldBase) / WORD_BYTES;
        MoveObject(to, pos);
        ghost var moved := mem[..];
        mem[to + 1] := ResetMark(mem[to + 1]);
        M.MovedBytes(before[pos], before, pos, moved, mem[..], to);
        M.SlideOne(c, live, src, before, mem[..], k);
      } else {
        M.SlideNone(c, live, src, mem[..], k);
      }
    }
  }
}
