/** Where mmap may put the next chunk, and a way to choose it. */
module Mappings {
  import opened Words
  import opened Objects
  import opened Collectors
  import opened Chunks
  import A = Allocation
  import C = Compaction
  import S = Sliding
  import L = Locations

  /** Valid, no pointer under an extra root at exactly `top`, and none in the word behind the
      stack unless that is an extra root. */
  ghost predicate Sound(c: Collector)
    reads c, c.heap, c.heap.mem, c.ram
  {
    && c.Valid() && c.TopRootIsPlain()
    && (c.bottom in c.extraRoots || c.ram[c.bottom] % 2 == 1)
  }

  lemma OddIsGood(v: Chunk, w: nat)
    requires |v.starts| >= 1 && w % 2 == 1
    ensures v.Good(w)
  {}

  /** An even word that a collection looks at, under a root or in a traced field. */
  ghost predicate RootHolds(c: Collector, a: nat)
    reads c, c.heap, c.heap.mem, c.ram
  {
    a % 2 == 0 && exists i :: 0 <= i < c.ram.Length && c.IsRoot(i) && c.ram[i] == a
  }

  ghost predicate FieldHolds(c: Collector, a: nat)
    requires c.HeapValid()
    reads c, c.heap, c.heap.mem
  {
    var v := c.heap.View();
    a % 2 == 0 && exists j: nat, p: nat :: j < v.Count() && v.Block(j) && v.Traced(j, p) && v.words[p] == a
  }

  /** Nothing that a collection looks at is an address from `region` on. */
  ghost predicate Above(c: Collector, region: nat)
    requires c.HeapValid()
    reads c, c.heap, c.heap.mem, c.ram
  {
    && region > c.heap.base + WORD_BYTES * c.heap.mem.Length
    && (forall i :: 0 <= i < c.ram.Length && c.IsRoot(i) && c.ram[i] % 2 == 0 ==> c.ram[i] < region)
    && FieldsBelow(c, region)
  }

  ghost predicate FieldsBelow(c: Collector, region: nat)
    requires c.HeapValid()
    reads c, c.heap, c.heap.mem
  {
    var v := c.heap.View();
    forall j: nat, p: nat :: j < v.Count() && v.Block(j) && v.Traced(j, p) ==>
      v.words[p] % 2 == 1 || v.words[p] < region
  }

  lemma MappableAbove(c: Collector, words: nat, region: nat)
    requires c.Valid() && region % 8 == 0 && Above(c, region)
    requires region + WORD_BYTES * NextCapacity(c.heap.current, words, c.heap.mem.Length) < ADDRESS_SPACE
    ensures c.Mappable(c.RootWords(), region, words)
  {
    hide Chunk.Parsed, Chunk.Graph, Chunk.Good, Chunk.WellPointed, Depicts, S.Dest, FieldsBelow;
    var ws, v := c.RootWords(), c.heap.View();
    L.ParsedIncreases(v);
    S.DestAtMostStart(c.heap.starts, c.Live(ws), v.Count());
    C.CurrentFits(v);
    forall w | w in ws
      ensures w % 2 == 1 || w < region
    {
      c.RootWordIsRoot(w);
    }
    MappableFromBounds(c, ws, words, region);
  }

  lemma AboveIsMappable(c: Collector, words: nat, region: nat)
    requires Sound(c) && region % 8 == 0 && Above(c, region)
    requires region + WORD_BYTES * NextCapacity(c.heap.current, words, c.heap.mem.Length) < ADDRESS_SPACE
    ensures c.ReadyToCollect(words, region)
  {
    hide Chunk.Parsed, Chunk.WellPointed, Depicts, Chunk.Good, Above, Collector.Mappable, Collector.RootWords;
    MappableAbove(c, words, region);
    if c.bottom in c.extraRoots {
      assert c.IsRoot(c.bottom);
    } else {
      OddIsGood(c.heap.View(), c.ram[c.bottom]);
    }
  }

  lemma MappableFromBounds(c: Collector, ws: seq<nat>, words: nat, region: nat)
    requires c.HeapValid() && region % 8 == 0 && region > c.heap.base + WORD_BYTES * c.heap.mem.Length
    requires forall w :: w in ws ==> w % 2 == 1 || w < region
    requires FieldsBelow(c, region)
    requires region + WORD_BYTES * c.CapacityFor(ws, words) < ADDRESS_SPACE
    ensures c.Mappable(ws, region, words)
  {
    hide Chunk.Parsed, Chunk.IsObject, Chunk.WellPointed, Depicts, Collector.CapacityFor;
  }

  function NextAligned(a: nat): (r: nat)
    ensures a < r <= a + 8 && r % 8 == 0
  {
    MultipleOf8(a / 8 + 1);
    8 * (a / 8 + 1)
  }

  /** The end of the chunk, and whatever else a collection could take for an address. */
  ghost predicate Occupied(c: Collector, a: nat)
    requires c.HeapValid()
    reads c, c.heap, c.heap.mem, c.ram
  {
    a == c.heap.base + WORD_BYTES * c.heap.mem.Length || RootHolds(c, a) || FieldHolds(c, a)
  }

  /** The chunk is full, and above everything there is no address space for the next one. */
  ghost predicate NoRoom(c: Collector, words: nat)
    requires c.HeapValid()
    reads c, c.heap, c.heap.mem, c.ram
  {
    && c.heap.current + words > c.heap.mem.Length
    && exists a: nat :: Occupied(c, a)
        && a + 8 + WORD_BYTES * NextCapacity(c.heap.current, words, c.heap.mem.Length) >= ADDRESS_SPACE
  }

  lemma NextBlock(c: Chunk, k: nat)
    requires c.Parsed() && k <= c.Count() && c.starts[k] < c.Current()
    ensures k < c.Count() && c.Block(k) && c.starts[k] < |c.words|
    ensures c.starts[k + 1] == c.starts[k] + ObjWords(c.words[c.starts[k]]) <= c.Current() <= |c.words|
  {
    assert c.Block(k);
    c.StartsInOrder(k + 1, c.Count());
  }

  /** The even words of a range, and the highest of them or a given bound. */
  method HighestOf(mem: array<nat>, from: nat, to: nat, floor: nat) returns (bound: nat)
    requires to <= mem.Length
    ensures bound >= floor
    ensures bound == floor || (bound % 2 == 0 && exists p: nat :: from <= p < to && mem[p] == bound)
    ensures forall p: nat :: from <= p < to ==> mem[p] % 2 == 1 || mem[p] <= bound
  {
    bound := floor;
    var p := from;
    while p < to
      invariant from <= p && bound >= floor
      invariant bound == floor || (bound % 2 == 0 && exists q: nat :: from <= q < to && mem[q] == bound)
      invariant forall q: nat :: from <= q < p && q < to ==> mem[q] % 2 == 1 || mem[q] <= bound
    {
      if mem[p] % 2 == 0 && mem[p] > bound { bound := mem[p]; }
      p := p + 1;
    }
  }

  /** The fields of the first k objects. */
  ghost predicate FieldsAtMost(c: Chunk, k: nat, bound: nat)
    requires c.Parsed() && k <= c.Count()
  {
    forall j: nat, p: nat :: j < k && c.Block(j) && c.Traced(j, p) ==> c.words[p] % 2 == 1 || c.words[p] <= bound
  }

  lemma OneMoreBelow(c: Chunk, k: nat, low: nat, bound: nat)
    requires c.Parsed() && k < c.Count() && FieldsAtMost(c, k, low) && low <= bound && c.Block(k)
    requires forall p: nat :: c.starts[k] + FirstField(c.words[c.starts[k]]) <= p < c.starts[k + 1] ==>
      c.words[p] % 2 == 1 || c.words[p] <= bound
    ensures FieldsAtMost(c, k + 1, bound)
  {
    hide Chunk.Parsed, FirstField, ObjWords;
  }

  method HighestField(c: Collector, floor: nat) returns (bound: nat)
    requires c.HeapValid()
    ensures bound >= floor && (bound == floor || FieldHolds(c, bound)) && FieldsBelow(c, bound + 1)
  {
    hide Chunk.Parsed, Chunk.WellPointed, Depicts, ObjWords, FirstField, FieldsAtMost;
    ghost var v, k := c.heap.View(), 0;
    bound := floor;
    var pos := 0;
    v.FirstStart();
    NoFields(v, bound);
    while pos < c.heap.current
      invariant k <= v.Count() && pos == v.starts[k] <= c.heap.current && bound >= floor
      invariant bound == floor || FieldHolds(c, bound)
      invariant FieldsAtMost(v, k, bound)
    {
      NextBlock(v, k);
      var next := c.heap.NextObject(pos);
      var low := bound;
      bound := HighestOf(c.heap.mem, pos + FirstField(c.heap.mem[pos]), next, low);
      if bound != low {
        ghost var p: nat :| pos + FirstField(c.heap.mem[pos]) <= p < next && c.heap.mem[p] == bound;
        assert v.Traced(k, p) && v.words[p] == bound;
      }
      OneMoreBelow(v, k, low, bound);
      pos, k := next, k + 1;
    }
    LastBlock(v, k);
    AllBelow(c, bound);
  }

  lemma NoFields(c: Chunk, bound: nat)
    requires c.Parsed()
    ensures FieldsAtMost(c, 0, bound)
  {}

  lemma AllBelow(c: Collector, bound: nat)
    requires c.HeapValid() && FieldsAtMost(c.heap.View(), c.heap.View().Count(), bound)
    ensures FieldsBelow(c, bound + 1)
  {
    hide Chunk.Parsed, Chunk.WellPointed, Depicts;
  }

  lemma LastBlock(c: Chunk, k: nat)
    requires c.Parsed() && k <= c.Count() && c.starts[k] >= c.Current()
    ensures k == c.Count()
  {}

  method HighestRoot(c: Collector, floor: nat) returns (bound: nat)
    requires c.HeapValid()
    ensures bound >= floor && (bound == floor || RootHolds(c, bound))
    ensures forall i :: 0 <= i < c.ram.Length && c.IsRoot(i) ==> c.ram[i] % 2 == 1 || c.ram[i] <= bound
  {
    hide Collector.HeapValid;
    bound := floor;
    for i := 0 to c.ram.Length
      invariant bound >= floor && (bound == floor || RootHolds(c, bound))
      invariant forall j :: 0 <= j < i && c.IsRoot(j) ==> c.ram[j] % 2 == 1 || c.ram[j] <= bound
    {
      if (c.top < i < c.bottom || i in c.extraRoots) && c.ram[i] % 2 == 0 && c.ram[i] > bound {
        bound := c.ram[i];
        assert c.IsRoot(i);
      }
    }
  }

  /** An mmap that maps above everything, or fails when the address space is used up. */
  method Mmap(c: Collector, words: nat) returns (ok: bool, region: nat)
    requires Sound(c) && c.heap.current + words > c.heap.mem.Length
    ensures if ok then c.ReadyToCollect(words, region) else NoRoom(c, words)
  {
    hide Collector.ReadyToCollect, Collector.HeapValid, NextAligned, NextCapacity, RootHolds, FieldHolds;
    var end := c.heap.base + WORD_BYTES * c.heap.mem.Length;
    var low := HighestField(c, end);
    var bound := HighestRoot(c, low);
    assert Occupied(c, bound);
    region := NextAligned(bound);
    ok := region + WORD_BYTES * NextCapacity(c.heap.current, words, c.heap.mem.Length) < ADDRESS_SPACE;
    if ok {
      BelowMore(c, low + 1, region);
      AboveIsMappable(c, words, region);
    }
  }

  lemma BelowMore(c: Collector, low: nat, high: nat)
    requires c.HeapValid() && FieldsBelow(c, low) && low <= high
    ensures FieldsBelow(c, high)
  {}

  /** alloc with an mmap that may fail. */
  method AllocWithMmap(c: Collector, tag: nat, len: nat) returns (ok: bool, obj: nat)
    requires Sound(c) && IsHeader(tag) && tag < 8
    modifies c, c.heap, c.heap.mem, c.ram
    ensures Sound(c) && c.extraRoots == old(c.extraRoots) && c.top == old(c.top) && c.bottom == old(c.bottom)
    ensures c.heap.mem == old(c.heap.mem) || fresh(c.heap.mem)
    ensures ok ==> c.ideal == old(c.ideal) + [A.FreshObject(MakeHeader(tag, len))]
    ensures ok ==> c.Look(obj + HEADER_BYTES) == Ref(|old(c.ideal)|) && c.heap.View().Good(obj + HEADER_BYTES)
    ensures forall i :: 0 <= i < c.ram.Length && c.IsRoot(i) ==> c.Look(c.ram[i]) == old(c.Look(c.ram[i]))
    ensures forall i :: 0 <= i < c.ram.Length && !old(c.heap.View().IsObject(c.ram[i])) ==> c.ram[i] == old(c.ram[i])
    ensures !ok ==> c.ideal == old(c.ideal) && NoRoom(c, ObjWords(MakeHeader(tag, len)))
  {
    hide Chunk.Parsed, Chunk.Good, Chunk.WellPointed, Depicts, Collector.Look, Collector.ReadyToCollect, ObjWords,
        A.FreshObject, NoRoom;
    var words := ObjWords(MakeHeader(tag, len));
    var region := 0;
    ok, obj := true, 0;
    if c.heap.current + words > c.heap.mem.Length {
      ok, region := Mmap(c, words);
      if !ok { return; }
    }
    label Before:
    obj := c.AllocObject(tag, len, region);
    RawRootsStay@Before(c);
  }

  lemma OddIsNoObject(v: Chunk, w: nat)
    requires v.Parsed() && w % 2 == 1
    ensures !v.IsObject(w)
  {
    if v.IsObject(w) { v.ObjectInRange(w); }
  }

  /** A root that keeps its meaning and was a plain word is the same word. */
  twostate lemma RawRootsStay(c: Collector)
    requires old(c.HeapValid()) && c.HeapValid()
    requires forall i :: 0 <= i < c.ram.Length && c.IsRoot(i) ==> c.Look(c.ram[i]) == old(c.Look(c.ram[i]))
    ensures forall i :: 0 <= i < c.ram.Length && c.IsRoot(i) && !old(c.heap.View().IsObject(c.ram[i])) ==>
      c.ram[i] == old(c.ram[i]) && !c.heap.View().IsObject(c.ram[i])
    ensures forall i :: 0 <= i < c.ram.Length && old(c.ram[i]) % 2 == 1 ==> !old(c.heap.View().IsObject(c.ram[i]))
  {
    hide Chunk.Parsed, Chunk.Good, Chunk.WellPointed, Depicts, Chunk.IsObject;
    forall i | 0 <= i < c.ram.Length && old(c.ram[i]) % 2 == 1 ensures !old(c.heap.View().IsObject(c.ram[i])) {
      OddIsNoObject(old(c.heap.View()), old(c.ram[i]));
    }
  }
}
