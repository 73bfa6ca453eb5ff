/** The extra root that a collection forgets: one at exactly __gc_stack_top
    (runtime/gc.c:369-380) is marked from and then not fixed. */
module TopRoot {
  import opened Words
  import opened Chunks
  import opened Objects
  import opened Collectors
  import opened Mappings
  import A = Allocation

  lemma EmptyArrayFits()
    ensures ObjWords(MakeHeader(ARRAY_TAG, 0)) == 2
  {}

  lemma HeaderIsArray()
    ensures IsHeader(MakeHeader(ARRAY_TAG, 0))
  {}

  lemma RefIsObject(c: Collector, v: nat)
    requires c.HeapValid()
    ensures c.Look(v).Ref? <==> c.heap.View().IsObject(v)
  {}

  /** A heap with one object, an empty array, under an extra root at the top of the stack. */
  method MakeTopRoot() returns (c: Collector)
    ensures fresh(c) && fresh(c.heap) && fresh(c.heap.mem) && fresh(c.ram) && c.Valid()
    ensures c.ram.Length == 2 && c.top == 0 && c.bottom == 1 && c.extraRoots == [0] && c.ram[1] == 1
    ensures c.ideal == [A.FreshObject(MakeHeader(ARRAY_TAG, 0))]
    ensures c.heap.base == 0x1000 && c.heap.current <= c.heap.mem.Length == MINIMUM_HEAP_CAPACITY
    ensures c.heap.View().IsObject(c.ram[0]) && c.Look(c.ram[0]) == Ref(0)
  {
    hide Collector.HeapValid, Collector.Look, Chunk.Good, A.FreshObject, ObjWords, MakeHeader, Chunk.IsObject;
    var memory := new nat[2](_ => 1);
    c := new Collector(0x1000, memory, 0, 1);
    EmptyArrayFits();
    HeaderIsArray();
    var ok, obj := c.AllocInPlace(MakeHeader(ARRAY_TAG, 0));
    c.SetRoot(0, obj + HEADER_BYTES);
    c.extraRoots := [0];
    RefIsObject(c, c.ram[0]);
  }

  /** An empty array has no fields that could point anywhere. */
  lemma NoFields(c: Collector, region: nat)
    requires c.HeapValid() && c.ideal == [A.FreshObject(MakeHeader(ARRAY_TAG, 0))]
    ensures FieldsBelow(c, region)
  {
    hide Chunk.Parsed, Chunk.WellPointed, Chunk.Good;
    var v := c.heap.View();
    forall j: nat, p: nat | j < v.Count() && v.Block(j) && v.Traced(j, p) ensures false {
      assert ObjectAt(v, c.names, j) == c.ideal[c.names[j]];
      EmptyArrayFits();
    }
  }

  lemma SmallHeap(c: Collector, region: nat)
    requires c.Valid() && c.heap.base == 0x1000 && c.heap.current <= c.heap.mem.Length == MINIMUM_HEAP_CAPACITY
    requires c.ram.Length == 2 && c.bottom == 1 && c.heap.View().IsObject(c.ram[0]) && c.ram[1] == 1
    requires FieldsBelow(c, region) && region == 0x10_0000
    ensures Above(c, region) && c.heap.View().Good(c.ram[c.bottom])
    ensures region + WORD_BYTES * NextCapacity(c.heap.current, 0, c.heap.mem.Length) < ADDRESS_SPACE
  {
    hide Chunk.WellPointed, Chunk.Good, Depicts, FieldsBelow;
    c.heap.View().ObjectInRange(c.ram[0]);
    OddIsGood(c.heap.View(), c.ram[1]);
  }

  /** The one extra root is at the top of the stack, and the collection leaves it behind: it no
      longer means the object that it meant before. */
  method TopRootIsLost() returns (c: Collector, ghost before: Field)
    ensures c.HeapValid() && c.top < c.bottom < c.ram.Length && c.extraRoots == [c.top]
    ensures before == Ref(0) && c.Look(c.ram[c.top]) != before
  {
    hide Collector.HeapValid, Collector.Look, Chunk.Good, A.FreshObject, Chunk.IsObject, Collector.Mappable;
    c := MakeTopRoot();
    before := Ref(0);
    var region := 0x10_0000;
    NoFields(c, region);
    SmallHeap(c, region);
    MappableAbove(c, 0, region);
    c.Collect(0, region);
  }
}
