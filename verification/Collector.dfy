/** The collector: roots, mark_phase, compact_phase and allocation (runtime/gc.c:58-80, 189-475).

    `ram` is the memory outside the heap.  The virtual stack is the window [top, bottom)
    of it and each extra root is the index of a word of it. */
module Collectors {
  import opened Words
  import opened Chunks
  import opened Heaps
  import opened Objects
  import G = Graph
  import S = Sliding
  import L = Locations
  import R = References
  import M = Relocation
  import C = Compaction
  import A = Allocation
  import U = Mutation

  const EXTRA_ROOM_HEAP_COEFFICIENT := 2
  const MINIMUM_HEAP_CAPACITY := 64

  function Max(x: nat, y: nat): nat { if x > y then x else y }

  /** The size of the next chunk: room for twice the live words and the request, and
      never less than before. */
  function NextCapacity(liveWords: nat, additional: nat, size: nat): (capacity: nat)
    ensures liveWords + additional <= capacity && liveWords < capacity
    ensures 2 * liveWords + additional <= capacity && 64 <= capacity && size <= capacity
    ensures capacity == 2 * liveWords + additional || capacity == 64 || capacity == size
  {
    Max(Max(liveWords * EXTRA_ROOM_HEAP_COEFFICIENT + additional, MINIMUM_HEAP_CAPACITY), size)
  }

  lemma TargetsOfMore(c: Chunk, vs: seq<nat>, v: nat)
    requires c.Parsed()
    ensures c.Targets(vs + [v]) == c.Targets(vs) + c.Targets([v])
  {}

  class Collector {
    const heap: Heap
    const ram: array<nat>
    var top: nat       // __gc_stack_top
    var bottom: nat    // __gc_stack_bottom
    var extraRoots: seq<nat>
    ghost var names: seq<nat>     // the name of every object of the heap
    ghost var ideal: seq<Object>  // every object ever made, by name: a heap without collections

    /** __init with a stack that is a window of `memory`. */
    constructor (region: nat, memory: array<nat>, stackTop: nat, stackBottom: nat)
      requires region % 8 == 0 && region > 0 && region + WORD_BYTES * MINIMUM_HEAP_CAPACITY < ADDRESS_SPACE
      requires stackTop <= stackBottom < memory.Length
      requires forall i :: 0 <= i < memory.Length ==>
        memory[i] % 2 == 1 || memory[i] < region || memory[i] > region + WORD_BYTES * MINIMUM_HEAP_CAPACITY
      ensures Valid() && names == [] && ideal == []
      ensures fresh(heap) && fresh(heap.mem) && ram == memory
      ensures top == stackTop && bottom == stackBottom && extraRoots == []
      ensures heap.Parsed() && heap.View().Count() == 0
      ensures heap.mem.Length == MINIMUM_HEAP_CAPACITY && heap.current == 0 && heap.base == region
    {
      heap := new Heap(region, MINIMUM_HEAP_CAPACITY);
      ram, top, bottom, extraRoots := memory, stackTop, stackBottom, [];
      names, ideal := [], [];
    }

    ghost predicate RootsInBounds()
      reads `top, `bottom, `extraRoots
    {
      top <= bottom < ram.Length && forall r :: r in extraRoots ==> r < ram.Length
    }

    /** The words that marking looks at, in its order. */
    ghost function RootWords(): seq<nat>
      requires RootsInBounds()
      reads `top, `bottom, `extraRoots, ram
    {
      StackWords(bottom) + ExtraWords(|extraRoots|)
    }

    ghost function StackWords(upTo: nat): seq<nat>
      requires RootsInBounds() && upTo <= bottom
      reads `top, `bottom, `extraRoots, ram
    {
      if top < upTo then ram[top + 1..upTo] else []
    }

    ghost function ExtraWords(n: nat): (ws: seq<nat>)
      requires RootsInBounds() && n <= |extraRoots|
      reads `top, `bottom, `extraRoots, ram
      ensures |ws| == n
      ensures forall j :: 0 <= j < n ==> extraRoots[j] < ram.Length && ws[j] == ram[extraRoots[j]]
    {
      if n == 0 then [] else
        assert extraRoots[n - 1] in extraRoots;
        ExtraWords(n - 1) + [ram[extraRoots[n - 1]]]
    }

    /** Marking so far: `seen` are the root words looked at. */
    ghost predicate MarkedFrom(c: Chunk, seen: seq<nat>)
      requires c.Parsed()
      reads heap, heap.mem
    {
      && heap.Parsed() && c.SameShape(heap.View())
      && heap.View().Enqueued() == {}
      && heap.View().Marked() == G.Reach(c.Graph(), c.Targets(seen))
    }

    method MarkRoot(v: nat, ghost c: Chunk, ghost seen: seq<nat>)
      requires c.Parsed() && c.WellPointed() && MarkedFrom(c, seen) && c.Good(v)
      modifies heap.mem
      ensures MarkedFrom(c, seen + [v])
    {
      hide Chunk.Parsed, Chunk.WellPointed, Chunk.SameShape, Chunk.Graph, Chunk.Marked, Chunk.Enqueued, Chunk.Targets;
      hide Chunk.Good, G.Reach, G.WellFormed, G.Closed;
      ghost var d := heap.View();
      c.ShapeKeepsGraph(d);
      c.ShapeKeepsLayout(d);
      c.ShapeKeepsObjects(d, v);
      c.SameTargets(d, [v]);
      c.GraphIsWellFormed();
      G.ReachClosed(c.Graph(), c.Targets(seen));
      heap.Mark(v);
      c.ShapeIsTransitive(d, heap.View());
      TargetsOfMore(c, seen, v);
      G.ReachUnion(c.Graph(), c.Targets(seen), c.Targets([v]));
    }

    /** gc_root_scan_stack. */
    method ScanStack(ghost c: Chunk)
      requires c.Parsed() && c.WellPointed() && MarkedFrom(c, []) && RootsInBounds() && ram != heap.mem
      requires forall v :: v in StackWords(bottom) ==> c.Good(v)
      modifies heap.mem
      ensures MarkedFrom(c, StackWords(bottom))
    {
      hide Chunk.Parsed, Chunk.WellPointed, Chunk.Good, MarkedFrom;
      var p := top + 1;
      assert StackWords(if p < bottom then p else bottom) == [];
      while p < bottom
        invariant top + 1 <= p && (top < bottom ==> p <= bottom)
        invariant MarkedFrom(c, StackWords(if p < bottom then p else bottom))
      {
        assert ram[p] in StackWords(bottom);
        assert StackWords(p + 1) == StackWords(p) + [ram[p]];
        MarkRoot(ram[p], c, StackWords(p));
        p := p + 1;
      }
    }

    method ScanExtraRoots(ghost c: Chunk)
      requires RootsInBounds() && ram != heap.mem
      requires c.Parsed() && c.WellPointed() && MarkedFrom(c, StackWords(bottom))
      requires forall v :: v in ExtraWords(|extraRoots|) ==> c.Good(v)
      modifies heap.mem
      ensures MarkedFrom(c, RootWords())
    {
      hide Chunk.Parsed, Chunk.WellPointed, Chunk.Good, MarkedFrom;
      ghost var stackWords := StackWords(bottom);
      assert stackWords + ExtraWords(0) == stackWords;
      for i := 0 to |extraRoots|
        invariant MarkedFrom(c, stackWords + ExtraWords(i))
      {
        assert extraRoots[i] in extraRoots;
        assert ExtraWords(|extraRoots|)[i] == ram[extraRoots[i]];
        assert ExtraWords(i + 1) == ExtraWords(i) + [ram[extraRoots[i]]];
        assert stackWords + ExtraWords(i + 1) == stackWords + ExtraWords(i) + [ram[extraRoots[i]]];
        MarkRoot(ram[extraRoots[i]], c, stackWords + ExtraWords(i));
      }
    }

    /** mark_phase: afterwards exactly what the roots reach is marked. */
    method MarkPhase()
      requires heap.Parsed() && heap.View().WellPointed() && RootsInBounds() && ram != heap.mem
      requires heap.View().Marked() == {} && heap.View().Enqueued() == {}
      requires forall v :: v in RootWords() ==> heap.View().Good(v)
      modifies heap.mem
      ensures heap.Parsed() && old(heap.View()).SameShape(heap.View())
      ensures heap.View().Enqueued() == {}
      ensures heap.View().Marked() == old(G.Reach(heap.View().Graph(), heap.View().Targets(RootWords())))
    {
      hide Chunk.Parsed, Chunk.WellPointed, Chunk.SameShape, Chunk.Graph, Chunk.Marked, Chunk.Enqueued, Chunk.Targets;
      hide Chunk.Good, G.Reach, StackWords, ExtraWords;
      ghost var c := heap.View();
      c.ShapeIsReflexive();
      NothingMarked(c);
      assert forall v :: v in StackWords(bottom) ==> v in RootWords();
      assert forall v :: v in ExtraWords(|extraRoots|) ==> v in RootWords();
      ScanStack(c);
      ScanExtraRoots(c);
    }

    lemma NothingMarked(c: Chunk)
      requires c.Parsed()
      ensures G.Reach(c.Graph(), c.Targets([])) == {}
    {
      assert c.Targets([]) == {};
      G.ReachLeast(c.Graph(), {}, {});
    }

    // Fixing the roots (runtime/gc.c:330-421)

    /** One word of memory outside the heap: a pointer into the old chunk is carried over. */
    method FixWord(p: nat, oldBase: nat, oldCurrent: nat, ghost c: Chunk, ghost live: set<nat>)
      requires p < ram.Length && ram != heap.mem
      requires R.Ready(c, live) && heap.Updating(c, live, c.Count(), 0) && oldBase == c.base
      requires oldCurrent == c.Current()
      requires c.InRange(ram[p]) ==> c.IsObject(ram[p])
      modifies ram
      ensures forall i :: 0 <= i < ram.Length && i != p ==> ram[i] == old(ram[i])
      ensures !c.InRange(old(ram[p])) ==> ram[p] == old(ram[p])
      ensures c.InRange(old(ram[p])) && c.IndexOf(old(ram[p])) in live ==>
        ram[p] == R.Moved(c, live, heap.base, old(ram[p]))
    {
      hide R.Ready, R.Done;
      var v := ram[p];
      if v % 2 == 0 && oldBase <= v <= oldBase + WORD_BYTES * oldCurrent {
        heap.FixedIsMoved(c, live, c.Count(), 0, c.IndexOf(v));
        ram[p] := heap.Fixed(v, oldBase);
      }
    }

    /** Which words the two scans of the roots have carried over, when the second has
        looked at the first n extra roots.  The word at `bottom` is scanned too. */
    ghost predicate FixedSoFar(c: Chunk, live: set<nat>, newBase: nat, before: seq<nat>, n: nat)
      requires S.Increasing(c.starts) && n <= |extraRoots|
      reads `top, `bottom, `extraRoots, ram
    {
      && |before| == ram.Length
      && forall j :: 0 <= j < ram.Length ==>
           if top < j < bottom || (j in extraRoots[..n] && !(top <= j < bottom))
           then ram[j] == R.Moved(c, live, newBase, before[j])
           else if j == bottom && top < bottom
           then
             && (j in extraRoots ==> ram[j] == R.Moved(c, live, newBase, before[j]))
             && (before[j] % 2 == 1 ==> ram[j] == before[j])
           else ram[j] == before[j]
    }

    /** The roots before they are fixed. */
    ghost predicate RootsReady(c: Chunk, live: set<nat>, before: seq<nat>, newBase: nat, capacity: nat)
      requires |c.starts| >= 1
      reads `top, `bottom, `extraRoots
    {
      && RootsInBounds() && |before| == ram.Length
      && (forall i :: top < i < bottom ==> C.Rooted(c, live, newBase, capacity, before[i]))
      && (forall r :: r in extraRoots ==> C.Rooted(c, live, newBase, capacity, before[r]))
      && c.Good(before[bottom])
    }

    /** scan_and_fix_region over [top + 1, bottom + 1). */
    method FixStack(oldBase: nat, oldCurrent: nat, ghost c: Chunk, ghost live: set<nat>)
      requires ram != heap.mem && S.Increasing(c.starts)
      requires R.Ready(c, live) && heap.Updating(c, live, c.Count(), 0) && oldBase == c.base
      requires oldCurrent == c.Current()
      requires RootsReady(c, live, ram[..], heap.base, heap.mem.Length)
      modifies ram
      ensures FixedSoFar(c, live, heap.base, old(ram[..]), 0)
    {
      hide R.Ready, R.Done, R.Moved, Chunk.Parsed;
      R.ReadyMeans(c, live);
      ghost var before := ram[..];
      var p := top + 1;
      while p < bottom + 1
        invariant top + 1 <= p <= bottom + 1
        invariant forall j :: p <= j < ram.Length || 0 <= j <= top ==> ram[j] == before[j]
        invariant forall j :: top < j < p && j < bottom ==> ram[j] == R.Moved(c, live, heap.base, before[j])
        invariant top < bottom < p && bottom in extraRoots ==>
          ram[bottom] == R.Moved(c, live, heap.base, before[bottom])
        invariant top < bottom < p && before[bottom] % 2 == 1 ==> ram[bottom] == before[bottom]
      {
        C.GoodRoot(c, live, heap.base, before[p]);
        FixWord(p, oldBase, oldCurrent, c, live);
        p := p + 1;
      }
    }

    /** scan_and_fix_region_roots: a root inside the stack window is skipped. */
    method FixExtraRoots(oldBase: nat, oldCurrent: nat, ghost c: Chunk, ghost live: set<nat>, ghost before: seq<nat>)
      requires ram != heap.mem && S.Increasing(c.starts)
      requires R.Ready(c, live) && heap.Updating(c, live, c.Count(), 0) && oldBase == c.base
      requires oldCurrent == c.Current()
      requires RootsReady(c, live, before, heap.base, heap.mem.Length) && FixedSoFar(c, live, heap.base, before, 0)
      requires C.ApartFrom(c, heap.base, heap.mem.Length) && S.Dest(c.starts, live, c.Count()) < heap.mem.Length
      modifies ram
      ensures FixedSoFar(c, live, heap.base, before, |extraRoots|)
    {
      hide R.Ready, R.Done, R.Moved, Chunk.Parsed, S.Dest, C.ApartFrom, Chunk.Good;
      R.ReadyMeans(c, live);
      for i := 0 to |extraRoots|
        invariant FixedSoFar(c, live, heap.base, before, i)
      {
        var p := extraRoots[i];
        assert p in extraRoots;
        assert extraRoots[..i + 1] == extraRoots[..i] + [p];
        if ram[p] % 2 == 1 || top <= p < bottom {
          C.OddRoot(c, live, heap.base, before[p]);
          continue;
        }
        C.GoodRoot(c, live, heap.base, before[p]);
        C.MovedIsNotOld(c, live, heap.base, heap.mem.Length, before[p]);
        FixWord(p, oldBase, oldCurrent, c, live);
      }
    }

    // Compaction (runtime/gc.c:276-303)

    /** What mmap promises about the region it returns: it is aligned, apart from the old
        chunk, and nothing that is scanned points into it. */
    ghost predicate FreshRegion(c: Chunk, live: set<nat>, region: nat, capacity: nat)
      requires c.Parsed()
      reads `top, `bottom, `extraRoots, ram
    {
      && region % 8 == 0 && region > 0 && region + WORD_BYTES * capacity < ADDRESS_SPACE
      && C.ApartFrom(c, region, capacity) && C.FieldsOutside(c, region, capacity)
      && RootsReady(c, live, ram[..], region, capacity)
    }

    lemma ShapeKeepsFreshRegion(c: Chunk, d: Chunk, live: set<nat>, region: nat, capacity: nat)
      requires c.Parsed() && c.SameShape(d) && FreshRegion(c, live, region, capacity)
      ensures d.Parsed() && d.starts == c.starts && FreshRegion(d, live, region, capacity)
    {
      hide Chunk.Parsed, Chunk.SameShape, Chunk.Good, C.Rooted, C.FieldsOutside;
      c.ShapeKeepsLayout(d);
      c.FirstStart();
      C.ShapeKeepsOutside(c, d, region, capacity);
      forall v: nat
        ensures C.Rooted(d, live, region, capacity, v) == C.Rooted(c, live, region, capacity, v)
        ensures d.Good(v) == c.Good(v)
      {
        C.ShapeKeepsRooted(c, d, live, region, capacity, v);
        C.ShapeKeepsIndex(c, d, v);
      }
    }

    /** The first half of compact_phase: locations are computed, the chunk is copied. */
    method LocateAndRemap(additional: nat, region: nat, ghost live: set<nat>) returns (liveWords: nat, ghost c: Chunk)
      requires heap.Parsed() && heap.View().WellPointed() && ram != heap.mem
      requires live == heap.View().Marked() && G.Closed(heap.View().Graph(), live)
      requires S.Increasing(heap.starts)
      requires FreshRegion(heap.View(), live, region,
                 NextCapacity(S.Dest(heap.starts, live, heap.View().Count()), additional, heap.mem.Length))
      modifies heap, heap.mem
      ensures c.Parsed() && old(heap.View()).SameShape(c) && L.SameBits(old(heap.View().Forwards()), c.Forwards())
      ensures R.Ready(c, live) && heap.Updating(c, live, 0, 0) && c.base == old(heap.base)
      ensures c.Current() == old(heap.current)
      ensures S.Increasing(c.starts) && liveWords == S.Dest(c.starts, live, c.Count())
      ensures fresh(heap.mem) && heap.base == region
      ensures heap.mem.Length == NextCapacity(liveWords, additional, old(heap.mem.Length))
      ensures FreshRegion(c, live, region, heap.mem.Length)
    {
      hide Chunk.Parsed, Chunk.SameShape, Chunk.WellPointed, Chunk.Graph, Chunk.Forwards, Chunk.Marked;
      hide R.Ready, R.Done, S.Dest, L.Located, L.SameBits, G.Closed, C.FieldsOutside, NextCapacity, Max;
      hide RootsReady, C.ApartFrom, RootsInBounds;
      ghost var c0 := heap.View();
      liveWords := heap.ComputeLocations(live);
      c := heap.View();
      Located(c0, c, live);
      var capacity := NextCapacity(liveWords, additional, heap.mem.Length);
      ShapeKeepsFreshRegion(c0, c, live, region, capacity);
      heap.Remap(region, capacity);
      assert c.words <= heap.mem[..];
      R.StartUpdating(c, live, region, heap.mem[..]);
    }

    /** Moves the live objects to `region` and every pointer with them. */
    method CompactPhase(additional: nat, region: nat, ghost live: set<nat>)
      returns (ghost c: Chunk, ghost updated: seq<nat>)
      requires heap.Parsed() && heap.View().WellPointed() && ram != heap.mem
      requires live == heap.View().Marked() && G.Closed(heap.View().Graph(), live)
      requires S.Increasing(heap.starts)
      requires FreshRegion(heap.View(), live, region,
                 NextCapacity(S.Dest(heap.starts, live, heap.View().Count()), additional, heap.mem.Length))
      modifies heap, heap.mem, ram
      ensures c.Parsed() && old(heap.View()).SameShape(c) && L.SameBits(old(heap.View().Forwards()), c.Forwards())
      ensures S.Increasing(c.starts) && C.Compacted(c, live, updated, heap.View())
      ensures FixedSoFar(c, live, heap.base, old(ram[..]), |extraRoots|)
      ensures fresh(heap.mem) && heap.base == region && heap.current == S.Dest(c.starts, live, c.Count())
      ensures heap.mem.Length == NextCapacity(heap.current, additional, old(heap.mem.Length))
    {
      hide Chunk.Parsed, Chunk.SameShape, Chunk.WellPointed, Chunk.Graph, Chunk.Forwards, Chunk.Marked;
      hide R.Ready, R.Done, M.Slid, S.Dest, S.NewStarts, L.SameBits, G.Closed, C.FieldsOutside, NextCapacity, Max;
      hide FixedSoFar, RootsReady, C.ApartFrom, RootsInBounds;
      var oldBase, oldCurrent := heap.base, heap.current;
      var liveWords;
      liveWords, c := LocateAndRemap(additional, region, live);
      updated := UpdateAndRelocate(oldBase, oldCurrent, c, live);
      R.ReadyMeans(c, live);
      M.SlidLength(c, live, updated, heap.mem[..], c.Count());
      heap.Finish(liveWords, S.NewStarts(c.starts, live, c.Count()));
    }

    /** update_references and physically_relocate on the new chunk. */
    method UpdateAndRelocate(oldBase: nat, oldCurrent: nat, ghost c: Chunk, ghost live: set<nat>)
      returns (ghost updated: seq<nat>)
      requires R.Ready(c, live) && heap.Updating(c, live, 0, 0) && oldBase == c.base && oldCurrent == c.Current()
      requires S.Increasing(c.starts) && ram != heap.mem
      requires FreshRegion(c, live, heap.base, heap.mem.Length)
      requires S.Dest(c.starts, live, c.Count()) < heap.mem.Length
      modifies heap.mem, ram
      ensures FixedSoFar(c, live, heap.base, old(ram[..]), |extraRoots|)
      ensures R.Done(c, live, heap.base, updated, c.Count(), 0)
      ensures |c.words| <= |updated| && M.Slid(c, live, updated, heap.mem[..], c.Count())
    {
      hide Chunk.Parsed, Chunk.WellPointed, Chunk.Graph, Chunk.Forwards, Chunk.Marked;
      hide R.Ready, R.Done, M.Slid, S.Dest, C.FieldsOutside;
      ghost var before := ram[..];
      heap.UpdateReferences(oldBase, oldCurrent, c, live);
      updated := heap.mem[..];
      FixStack(oldBase, oldCurrent, c, live);
      FixExtraRoots(oldBase, oldCurrent, c, live, before);
      heap.PhysicallyRelocate(oldBase, c, live);
    }

    lemma Located(c0: Chunk, c: Chunk, live: set<nat>)
      requires c0.Parsed() && c.Parsed() && c0.WellPointed() && c0.SameShape(c) && S.Increasing(c.starts)
      requires L.SameBits(c0.Forwards(), c.Forwards()) && live == c0.Marked() && G.Closed(c0.Graph(), live)
      requires L.Located(c.Forwards(), c.starts, live, c.base, c.Count())
      ensures R.Ready(c, live)
    {
      hide Chunk.Parsed, Chunk.SameShape, Chunk.WellPointed, Chunk.Graph, Chunk.Forwards, L.Located, L.SameBits,
        G.Closed;
      c0.ShapeKeepsGraph(c);
      L.SameBitsSameMarks(c0.Forwards(), c.Forwards());
    }

    // The state between two operations

    ghost predicate HeapValid()
      reads `names, `ideal, heap, heap.mem
    {
      && heap.Parsed() && heap.View().WellPointed()
      && heap.View().Marked() == {} && heap.View().Enqueued() == {}
      && |heap.starts| == |names| + 1 && Depicts(heap.View(), names, ideal)
    }

    ghost predicate IsRoot(i: nat)
      reads `top, `bottom, `extraRoots
    {
      top < i < bottom || i in extraRoots
    }

    ghost predicate RootsValid()
      requires heap.Parsed()
      reads `top, `bottom, `extraRoots, heap, heap.mem, ram
    {
      && RootsInBounds() && ram != heap.mem
      && forall i :: 0 <= i < ram.Length && IsRoot(i) ==> heap.View().Good(ram[i])
    }

    ghost predicate Valid()
      reads this, heap, heap.mem, ram
    {
      HeapValid() && RootsValid()
    }

    /** A word as the mutator understands it: a name or a plain word. */
    ghost function Look(v: nat): Field
      requires |heap.starts| == |names| + 1
      reads `names, heap, heap.mem
    {
      Named(heap.View(), names, v)
    }

    ghost function Live(ws: seq<nat>): set<nat>
      requires heap.Parsed()
      reads heap, heap.mem
    {
      G.Reach(heap.View().Graph(), heap.View().Targets(ws))
    }

    /** The size of the chunk that a collection from the root words `ws` asks for. */
    ghost function CapacityFor(ws: seq<nat>, additional: nat): nat
      requires heap.Parsed()
      reads heap, heap.mem
    {
      L.ParsedIncreases(heap.View());
      NextCapacity(S.Dest(heap.starts, Live(ws), heap.View().Count()), additional, heap.mem.Length)
    }

    /** mmap gives a new region: aligned, apart from the chunk, and nothing points into it. */
    ghost predicate Mappable(ws: seq<nat>, region: nat, additional: nat)
      requires heap.Parsed()
      reads heap, heap.mem
    {
      var c, capacity := heap.View(), CapacityFor(ws, additional);
      && region % 8 == 0 && region > 0 && region + WORD_BYTES * capacity < ADDRESS_SPACE
      && C.ApartFrom(c, region, capacity) && C.FieldsOutside(c, region, capacity)
      && forall v :: v in ws ==> C.Outside(c, region, capacity, v)
    }

    /** No extra root at exactly `top` holds a pointer: such a root would not be fixed. */
    ghost predicate TopRootIsPlain()
      requires heap.Parsed() && RootsInBounds()
      reads `top, `bottom, `extraRoots, heap, heap.mem, ram
    {
      !(top < bottom && top in extraRoots && heap.View().IsObject(ram[top]))
    }

    /** What a collection needs from its surroundings when it makes room for `words`. */
    ghost predicate ReadyToCollect(words: nat, region: nat)
      requires heap.Parsed() && RootsInBounds()
      reads `top, `bottom, `extraRoots, heap, heap.mem, ram
    {
      Mappable(RootWords(), region, words) && heap.View().Good(ram[bottom]) && TopRootIsPlain()
    }

    lemma RootIsRootWord(i: nat)
      requires RootsInBounds() && IsRoot(i)
      ensures i < ram.Length && ram[i] in RootWords()
    {
      if top < i < bottom {
        assert StackWords(bottom)[i - top - 1] == ram[i];
      } else {
        var j :| 0 <= j < |extraRoots| && extraRoots[j] == i;
        assert ExtraWords(|extraRoots|)[j] == ram[i];
      }
    }

    lemma RootWordIsRoot(v: nat)
      requires RootsInBounds() && v in RootWords()
      ensures exists i :: 0 <= i < ram.Length && IsRoot(i) && ram[i] == v
    {
      if v in StackWords(bottom) {
        var j :| 0 <= j < |StackWords(bottom)| && StackWords(bottom)[j] == v;
        assert IsRoot(top + 1 + j);
      } else {
        var j :| 0 <= j < |extraRoots| && ExtraWords(|extraRoots|)[j] == v;
        assert extraRoots[j] in extraRoots && IsRoot(extraRoots[j]);
      }
    }

    lemma MappableIsFresh(live: set<nat>, region: nat, additional: nat)
      requires heap.Parsed() && RootsValid() && Mappable(RootWords(), region, additional)
      requires live == Live(RootWords()) && heap.View().Good(ram[bottom])
      ensures FreshRegion(heap.View(), live, region, CapacityFor(RootWords(), additional))
    {
      hide Chunk.Parsed, Chunk.Good, Chunk.IsObject, C.FieldsOutside, C.ApartFrom, Live, CapacityFor, Chunk.IndexOf;
      var capacity := CapacityFor(RootWords(), additional);
      forall i | 0 <= i < ram.Length && IsRoot(i)
        ensures |heap.starts| >= 1 && C.Rooted(heap.View(), live, region, capacity, ram[i])
      {
        heap.View().FirstStart();
        RootIsRootWord(i);
        RootIsLive(RootWords(), ram[i]);
      }
      assert forall r :: r in extraRoots ==> IsRoot(r);
    }

    lemma RootIsLive(ws: seq<nat>, v: nat)
      requires heap.Parsed() && v in ws
      ensures heap.View().IsObject(v) ==> heap.View().IndexOf(v) in Live(ws)
    {
      hide Chunk.Graph, G.Reach;
      if heap.View().IsObject(v) {
        G.ReachRoot(heap.View().Graph(), heap.View().Targets(ws), heap.View().IndexOf(v));
      }
    }

    /** What a collection does to the roots: every one is carried over exactly once,
        except an extra root at exactly `top`, which is marked and then left as it was. */
    twostate predicate RootsCarried()
      requires old(heap.Parsed()) && old(|heap.starts| == |names| + 1)
      requires heap.Parsed() && |heap.starts| == |names| + 1
      reads this, heap, heap.mem, ram
    {
      forall i :: 0 <= i < ram.Length ==>
        if top < i < bottom || (i in extraRoots && !(top <= i < bottom))
        then heap.View().Good(ram[i]) && Look(ram[i]) == old(Look(ram[i]))
        else (i == bottom && old(ram[i]) % 2 == 0) || ram[i] == old(ram[i])
    }

    /** mark_phase and compact_phase: the collection of gc_alloc. */
    method MarkAndCompact(additional: nat, region: nat)
      returns (ghost c: Chunk, ghost live: set<nat>, ghost updated: seq<nat>)
      requires heap.Parsed() && heap.View().WellPointed() && heap.View().Marked() == {} && heap.View().Enqueued() == {}
      requires RootsValid() && Mappable(RootWords(), region, additional) && heap.View().Good(ram[bottom])
      modifies heap, heap.mem, ram
      ensures c.Parsed() && old(heap.View()).SameShape(c) && c.Enqueued() == {}
      ensures live == old(Live(RootWords()))
      ensures S.Increasing(c.starts) && C.Compacted(c, live, updated, heap.View())
      ensures FixedSoFar(c, live, heap.base, old(ram[..]), |extraRoots|)
      ensures fresh(heap.mem) && heap.base == region && heap.current == S.Dest(c.starts, live, c.Count())
      ensures heap.mem.Length == old(CapacityFor(RootWords(), additional))
      ensures heap.current + additional <= heap.mem.Length
    {
      hide Chunk.Parsed, Chunk.SameShape, Chunk.Good, Chunk.IsObject, Chunk.WellPointed, Chunk.Marked, Chunk.Graph,
        Enqueueds;
      hide C.FieldsOutside, C.ApartFrom, C.Compacted, G.Reach, G.Closed, S.Dest, L.SameBits, Mappable, FreshRegion,
        FixedSoFar;
      hide RootsInBounds, RootsReady, RootWords, StackWords, ExtraWords, NextCapacity;
      ghost var c0 := heap.View();
      live := Live(RootWords());
      L.ParsedIncreases(c0);
      RootsAreGood();
      MappableIsFresh(live, region, additional);
      ghost var capacity := CapacityFor(RootWords(), additional);
      MarkPhase();
      ghost var c1 := heap.View();
      c0.ShapeKeepsGraph(c1);
      c0.ShapeKeepsLayout(c1);
      c0.GraphIsWellFormed();
      G.ReachClosed(c0.Graph(), c0.Targets(RootWords()));
      ShapeKeepsFreshRegion(c0, c1, live, region, capacity);
      c, updated := CompactPhase(additional, region, live);
      L.SameBitsSameMarks(c1.Forwards(), c.Forwards());
      assert c.Enqueued() == c1.Enqueued();
      c0.ShapeIsTransitive(c1, c);
    }

    /** The collection, as the mutator sees it. */
    method Collect(additional: nat, region: nat)
      requires Valid() && Mappable(RootWords(), region, additional) && heap.View().Good(ram[bottom])
      modifies this, heap, heap.mem, ram
      ensures HeapValid() && ideal == old(ideal) && RootsCarried()
      ensures top == old(top) && bottom == old(bottom) && extraRoots == old(extraRoots)
      ensures (forall i :: 0 <= i < ram.Length && IsRoot(i) ==> Look(ram[i]) == old(Look(ram[i])))
         <==> !old(top < bottom && top in extraRoots && heap.View().IsObject(ram[top]))
      ensures old(TopRootIsPlain()) ==> Valid()
      ensures |old(names)| == old(heap.View().Count()) && names == C.Carry(old(names), old(Live(RootWords())))
      ensures fresh(heap.mem) && heap.base == region
      ensures heap.mem.Length == old(CapacityFor(RootWords(), additional))
      ensures heap.current + additional <= heap.mem.Length
    {
      hide Chunk.Parsed, Chunk.SameShape, Chunk.Good, Chunk.IsObject, Chunk.WellPointed, Chunk.Marked,
          Chunk.Enqueued, Chunk.Graph;
      hide C.Compacted, G.Reach, S.Dest, CapacityFor, Depicts, C.Carry, FixedSoFar, C.FieldsOutside, RootsReady,
        C.ApartFrom;
      hide Named, RootWords, StackWords, ExtraWords, C.Outside;
      ghost var c0, before, names0, capacity := heap.View(), ram[..], names, CapacityFor(RootWords(), additional);
      DepictsMeans(c0, names, ideal);
      MappableIsFresh(Live(RootWords()), region, additional);
      ghost var c, live, updated := MarkAndCompact(additional, region);
      C.CollectedHeap(c0, c, live, updated, heap.View(), names0, ideal);
      names := C.Carry(names, live);
      RootsAfterCollection(c0, c, live, updated, before, names0);
    }

    lemma DepictsMeans(c: Chunk, names: seq<nat>, ideal: seq<Object>)
      requires Depicts(c, names, ideal)
      ensures |names| == c.Count()
    {}

    lemma RootsAfterCollection(c0: Chunk, c: Chunk, live: set<nat>, updated: seq<nat>, before: seq<nat>,
        names0: seq<nat>)
      requires c0.Parsed() && c0.SameShape(c) && c.Parsed() && S.Increasing(c.starts) && |names0| == c0.Count()
      requires C.Compacted(c, live, updated, heap.View()) && names == C.Carry(names0, live)
      requires RootsReady(c0, live, before, heap.base, heap.mem.Length)
      requires FixedSoFar(c, live, heap.base, before, |extraRoots|)
      requires C.ApartFrom(c0, heap.base, heap.mem.Length)
      ensures heap.View().Parsed() && |heap.starts| == |names| + 1 && |c0.starts| == |names0| + 1
      ensures forall i :: 0 <= i < ram.Length ==>
        if top < i < bottom || (i in extraRoots && !(top <= i < bottom))
        then heap.View().Good(ram[i]) && Look(ram[i]) == Named(c0, names0, before[i])
        else (i == bottom && before[i] % 2 == 0) || ram[i] == before[i]
      ensures (forall i :: 0 <= i < ram.Length && IsRoot(i) ==> Look(ram[i]) == Named(c0, names0, before[i]))
         <==> !(top < bottom && top in extraRoots && c0.IsObject(before[top]))
      ensures !(top < bottom && top in extraRoots && c0.IsObject(before[top])) ==>
        forall i :: 0 <= i < ram.Length && IsRoot(i) ==> heap.View().Good(ram[i])
    {
      hide Chunk.Parsed, Chunk.SameShape, Chunk.Good, Chunk.IsObject, C.Compacted, C.Carry, R.Moved, Named;
      if top < bottom && top in extraRoots {
        assert IsRoot(top);
        C.UnfixedRoot(c0, c, live, updated, heap.View(), names0, before[top]);
      }
      assert extraRoots[..|extraRoots|] == extraRoots;
      C.CompactedCount(c0, c, live, updated, heap.View(), names0);
      forall i | 0 <= i < ram.Length && (top < i < bottom || (i in extraRoots && !(top <= i < bottom)))
        ensures heap.View().Good(ram[i]) && Look(ram[i]) == Named(c0, names0, before[i])
      {
        C.CollectedRoot(c0, c, live, updated, heap.View(), names0, before[i]);
      }
    }

    lemma RootsAreGood()
      requires heap.Parsed() && RootsValid()
      ensures forall v :: v in RootWords() ==> heap.View().Good(v)
    {
      hide Chunk.Parsed, Chunk.Good;
      forall v | v in RootWords()
        ensures |heap.starts| >= 1 && heap.View().Good(v)
      {
        heap.View().FirstStart();
        RootWordIsRoot(v);
      }
    }

    // Allocation (runtime/gc.c:58-80, 892-956)

    /** Where there is room: one more object behind the others, and nothing else changes. */
    method AllocInPlace(header: nat) returns (ok: bool, obj: nat)
      requires Valid() && IsHeader(header)
      modifies `names, `ideal, heap`current, heap`starts, heap.mem
      ensures Valid() && heap.current <= heap.mem.Length
      ensures ok <==> old(heap.current) + ObjWords(header) <= heap.mem.Length
      ensures !ok ==> unchanged(this) && unchanged(heap) && unchanged(heap.mem)
      ensures ok ==> ideal == old(ideal) + [A.FreshObject(header)]
      ensures ok ==> Look(obj + HEADER_BYTES) == Ref(|old(ideal)|) && heap.View().Good(obj + HEADER_BYTES)
      ensures forall i :: 0 <= i < ram.Length && IsRoot(i) ==> Look(ram[i]) == old(Look(ram[i]))
    {
      hide Chunk.Parsed, Chunk.Good, Chunk.IsObject, Chunk.WellPointed, Chunk.Marked, Chunk.Enqueued, Depicts;
      hide A.FreshObject, ObjWords, A.Appended, Named;
      ghost var at, c := heap.current, heap.View();
      C.CurrentFits(c);
      ok, obj := heap.AllocOnExistingHeap(BytesToWords(ObjBytes(header)));
      if !ok { return; }
      heap.WriteHeader(obj, header, at, c);
      A.AppendedIsUnmarked(c, header, heap.View());
      A.AppendedIsWellPointed(c, header, heap.View());
      A.AppendedDepicts(c, header, heap.View(), names, ideal);
      DepictsMeans(c, names, ideal);
      A.LooksAfterAppend(c, header, heap.View(), names, |ideal|);
      names := names + [|ideal|];
      ideal := ideal + [A.FreshObject(header)];
    }

    /** alloc_string, alloc_array, alloc_sexp and alloc_closure, by their tag.

        Whether or not a collection happened, the mutator sees one more zeroed object
        and every root as it was; after a collection there is always room. */
    method AllocObject(tag: nat, len: nat, region: nat) returns (obj: nat)
      requires Valid() && IsHeader(tag) && tag < 8
      requires heap.current + ObjWords(MakeHeader(tag, len)) > heap.mem.Length ==>
        ReadyToCollect(ObjWords(MakeHeader(tag, len)), region)
      modifies this, heap, heap.mem, ram
      ensures Valid() && (heap.mem == old(heap.mem) || fresh(heap.mem))
      ensures top == old(top) && bottom == old(bottom) && extraRoots == old(extraRoots)
      ensures ideal == old(ideal) + [A.FreshObject(MakeHeader(tag, len))]
      ensures Look(obj + HEADER_BYTES) == Ref(|old(ideal)|) && heap.View().Good(obj + HEADER_BYTES)
      ensures forall i :: 0 <= i < ram.Length && IsRoot(i) ==> Look(ram[i]) == old(Look(ram[i]))
      ensures forall i :: 0 <= i < ram.Length && !IsRoot(i) && (i != bottom || old(ram[i]) % 2 == 1) ==>
        ram[i] == old(ram[i])
    {
      hide Chunk.Parsed, Chunk.Good, Chunk.IsObject, Chunk.WellPointed, Chunk.Marked, Chunk.Enqueued, Mappable,
          Depicts, A.FreshObject;
      hide ObjWords, C.Carry, CapacityFor, Named;
      var header := MakeHeader(tag, len);
      HeaderOf(tag, len);
      var ok;
      ok, obj := AllocInPlace(header);
      if !ok {
        Collect(ObjWords(header), region);
        ok, obj := AllocInPlace(header);
      }
    }

    lemma HeaderOf(tag: nat, len: nat)
      requires IsHeader(tag) && tag < 8
      ensures IsHeader(MakeHeader(tag, len)) && Tag(MakeHeader(tag, len)) == tag && Len(MakeHeader(tag, len)) == len
    {}

    // What compiled code does with the heap between allocations

    method SetRoot(i: nat, v: nat)
      requires Valid() && i < ram.Length && heap.View().Good(v)
      modifies ram
      ensures Valid() && ram[..] == old(ram[..])[i := v]
    {
      ram[i] := v;
    }

    /** The object that a pointer names. */
    ghost function Target(v: nat): Object
      requires HeapValid() && Look(v).Ref?
      reads `names, `ideal, heap, heap.mem
    {
      ideal[Look(v).name]
    }

    lemma TargetObject(v: nat)
      requires HeapValid() && Look(v).Ref?
      ensures heap.View().IsObject(v)
      ensures var k := heap.View().IndexOf(v);
        && k < |names| && Look(v) == Ref(names[k]) && Target(v) == ObjectAt(heap.View(), names, k)
        && heap.View().Block(k) && Target(v).header == heap.mem[heap.starts[k]]
    {
      hide Chunk.Parsed;
      U.BlockWords(heap.View(), heap.View().IndexOf(v));
    }

    /** v points to an object with contents up to word i. */
    ghost predicate HasWord(v: nat, i: nat)
      requires HeapValid()
      reads `names, `ideal, heap, heap.mem
    {
      Look(v).Ref? && 2 <= i < ObjWords(Target(v).header)
    }

    /** What w means as word i of the object v points to. */
    ghost function Means(v: nat, i: nat, w: nat): Field
      requires HeapValid() && Look(v).Ref?
      reads `names, `ideal, heap, heap.mem
    {
      Meaning(heap.View(), names, Target(v).header, i, w)
    }

    /** Word i of the object v points to is one of its traced fields. */
    ghost predicate IsTraced(v: nat, i: nat)
      requires HeapValid() && Look(v).Ref?
      reads `names, `ideal, heap, heap.mem
    {
      FirstField(Target(v).header) <= i
    }

    lemma LooksAfterStore(c: Chunk, k: nat, i: nat, v: nat)
      requires c.Parsed() && k < c.Count() && c.starts[k] + i < |c.words| && |c.starts| == |names| + 1
      requires heap.View() == U.Stored(c, k, i, v)
      ensures forall w :: Look(w) == Named(c, names, w) && heap.View().Good(w) == c.Good(w)
      ensures forall w :: heap.View().IsObject(w) == c.IsObject(w)
    {
      hide Chunk.Parsed, Chunk.Good, Chunk.IsObject;
      forall w: nat
        ensures Look(w) == Named(c, names, w) && heap.View().Good(w) == c.Good(w)
        ensures heap.View().IsObject(w) == c.IsObject(w)
      {
        U.SamePointers(c, k, i, v, w);
      }
    }

    method LoadWord(obj: nat, i: nat) returns (v: nat)
      requires Valid() && HasWord(obj, i)
      ensures 2 <= i && i - 2 < |Target(obj).fields| && Target(obj).fields[i - 2] == Means(obj, i, v)
      ensures IsTraced(obj, i) ==> heap.View().Good(v)
    {
      hide Chunk.Parsed, Chunk.WellPointed, FirstField, ObjWords, ObjectAt;
      ghost var c := heap.View();
      TargetObject(obj);
      ghost var k := c.IndexOf(obj);
      U.WordMeans(c, names, k, i);
      U.WordIsInside(c, k, i);
      v := heap.ReadWord(obj, i, k);
    }

    method LoadHeader(obj: nat) returns (header: nat)
      requires Valid() && Look(obj).Ref?
      ensures header == Target(obj).header
    {
      hide Chunk.Parsed, Chunk.WellPointed, FirstField, ObjWords, ObjectAt;
      TargetObject(obj);
      U.BlockWords(heap.View(), heap.View().IndexOf(obj));
      header := heap.ReadWord(obj, 0, heap.View().IndexOf(obj));
    }

    method StoreWord(obj: nat, i: nat, v: nat)
      requires Valid() && HasWord(obj, i) && (IsTraced(obj, i) ==> heap.View().Good(v))
      modifies this, heap.mem
      ensures Valid() && top == old(top) && bottom == old(bottom) && extraRoots == old(extraRoots)
      ensures 2 <= i && i - 2 < |old(Target(obj)).fields|
      ensures ideal == old(ideal)[old(Look(obj)).name := U.WithField(old(Target(obj)), i - 2, old(Means(obj, i, v)))]
      ensures forall w :: Look(w) == old(Look(w)) && heap.View().Good(w) == old(heap.View().Good(w))
      ensures forall w :: heap.View().IsObject(w) == old(heap.View().IsObject(w))
    {
      hide Chunk.Parsed, Chunk.WellPointed, FirstField, ObjWords, ObjectAt, U.WithField, Meaning;
      ghost var c := heap.View();
      TargetObject(obj);
      ghost var k := c.IndexOf(obj);
      ghost var meaning := Means(obj, i, v);
      U.WordMeans(c, names, k, i);
      U.StoredParses(c, k, i, v);
      U.StoredIsWellPointed(c, k, i, v);
      U.StoredDepicts(c, names, ideal, k, i, v);
      U.WordIsInside(c, k, i);
      heap.WriteWord(obj, i, v, k);
      ideal := ideal[names[k] := U.WithField(ideal[names[k]], i - 2, meaning)];
      LooksAfterStore(c, k, i, v);
    }
  }
}
