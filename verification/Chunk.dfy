/** A memory chunk as a value: its words, where its objects start, and its address.

    `starts` lists the word offsets of the object headers in address order and ends
    with the offset of the first free word (heap.current), so the objects parse
    exactly the words from heap.begin to heap.current. */
module Chunks {
  import opened Words
  import G = Graph

  ghost function Marks(forwards: seq<nat>): set<nat> {
    set k: nat | k < |forwards| && IsMarked(forwards[k])
  }

  ghost function Enqueueds(forwards: seq<nat>): set<nat> {
    set k: nat | k < |forwards| && IsEnqueued(forwards[k])
  }

  lemma Aligned(base: nat, start: nat)
    requires base % 8 == 0
    ensures var v := base + 8 * start + HEADER_BYTES;
      v % 8 == 0 && v % 4 == 0 && v % 2 == 0 && (v - base) / 8 == start + 2
  {
    var v := base + 8 * start + HEADER_BYTES;
    MultipleOf8(base / 8 + start + 2);
    MultipleOf8(start + 2);
    assert v == 8 * (base / 8 + start + 2);
    assert v - base == 8 * (start + 2);
  }

  lemma MultipleOf8(q: nat)
    ensures 8 * q % 8 == 0 && 8 * q % 4 == 0 && 8 * q % 2 == 0 && 8 * q / 8 == q
  {
    Divides8(q);
    Divides4(2 * q);
    Divides2(4 * q);
    assert 8 * q == 4 * (2 * q) && 8 * q == 2 * (4 * q);
  }

  lemma Divides8(q: nat)
    ensures 8 * q % 8 == 0 && 8 * q / 8 == q
  {}

  lemma Divides4(q: nat)
    ensures 4 * q % 4 == 0
  {}

  lemma Divides2(q: nat)
    ensures 2 * q % 2 == 0
  {}

  ghost predicate IsBase(base: nat) {
    base % 8 == 0 && base > 0
  }

  datatype Chunk = Chunk(words: seq<nat>, starts: seq<nat>, base: nat) {

    ghost function Count(): nat
      requires |starts| >= 1
    {
      |starts| - 1
    }

    ghost function Current(): nat
      requires |starts| >= 1
    {
      starts[|starts| - 1]
    }

    ghost predicate Block(k: nat)
      requires k + 1 < |starts|
    {
      && starts[k] + 2 <= starts[k + 1] <= |words|
      && IsHeader(words[starts[k]])
      && starts[k + 1] == starts[k] + ObjWords(words[starts[k]])
    }

    ghost predicate Parsed() {
      && |starts| >= 1
      && starts[0] == 0
      && Current() <= |words|
      && (forall i, j :: 0 <= i < j < |starts| ==> starts[i] + 2 <= starts[j])
      && (forall k :: 0 <= k < Count() ==> Block(k))
      && base % 8 == 0 && base > 0 && base + 8 * |words| < ADDRESS_SPACE
    }

    /** The pointer the mutator uses for object k. */
    ghost function Content(k: nat): nat
      requires k < |starts|
    {
      base + 8 * starts[k] + HEADER_BYTES
    }

    ghost predicate IsObject(v: nat)
      requires |starts| >= 1
    {
      exists k :: 0 <= k < Count() && Content(k) == v
    }

    ghost function IndexOf(v: nat): (k: nat)
      requires |starts| >= 1 && IsObject(v)
      ensures k < Count() && Content(k) == v
    {
      var k :| 0 <= k < Count() && Content(k) == v;
      k
    }

    /** is_valid_heap_pointer (runtime/gc.c:501-503). */
    ghost predicate InRange(v: nat)
      requires |starts| >= 1
    {
      v % 2 == 0 && base <= v <= base + 8 * Current()
    }

    /** An even word that lies in the chunk is the content address of an object. */
    ghost predicate Good(v: nat)
      requires |starts| >= 1
    {
      v % 2 == 0 && base <= v <= base + 8 * |words| ==> IsObject(v)
    }

    /** p is the offset of a traced field of object j. */
    ghost predicate Traced(j: nat, p: nat)
      requires j + 1 < |starts| && starts[j] < |words|
    {
      starts[j] + FirstField(words[starts[j]]) <= p < starts[j + 1]
    }

    ghost predicate WellPointed()
      requires Parsed()
    {
      forall j: nat, p: nat :: j < Count() && Block(j) && Traced(j, p) ==> Good(words[p])
    }

    ghost function Forward(k: nat): nat
      requires k < |starts| && starts[k] + 1 < |words|
    {
      words[starts[k] + 1]
    }

    /** The forward words of all objects, in address order. */
    ghost function Forwards(): (f: seq<nat>)
      requires Parsed()
      ensures |f| == Count()
    {
      seq(Count(), k requires 0 <= k < Count() => assert Block(k); Forward(k))
    }

    ghost function Contents(): (f: seq<nat>)
      requires |starts| >= 1
      ensures |f| == Count()
    {
      seq(Count(), k requires 0 <= k < Count() => Content(k))
    }

    ghost function Marked(): set<nat>
      requires Parsed()
    {
      Marks(Forwards())
    }

    ghost function Enqueued(): set<nat>
      requires Parsed()
    {
      Enqueueds(Forwards())
    }

    ghost predicate Edge(j: nat, k: nat)
      requires Parsed() && j < Count() && k < Count()
    {
      Block(j) && exists p: nat :: Traced(j, p) && words[p] == Content(k)
    }

    ghost function Graph(): (g: G.Graph)
      requires Parsed()
      ensures |g| == Count()
    {
      seq(Count(), j requires 0 <= j < Count() => set k: nat | k < Count() && Edge(j, k))
    }

    /** The objects that some word of `vs` points to. */
    ghost function Targets(vs: seq<nat>): set<nat>
      requires |starts| >= 1
    {
      set k: nat | k < Count() && Content(k) in vs
    }

    /** Only forward words differ. */
    ghost predicate SameShape(c: Chunk)
      requires Parsed()
    {
      && c.starts == starts && c.base == base && |c.words| == |words|
      && (forall k :: 0 <= k < Count() ==> Block(k) && c.words[starts[k]] == words[starts[k]])
      && (forall k, p :: 0 <= k < Count() && starts[k] + 2 <= p < starts[k + 1] ==> c.words[p] == words[p])
      && (forall p :: Current() <= p < |words| ==> c.words[p] == words[p])
    }

    /** What an access to the forward word of object k needs, in this chunk and any of its shape. */
    lemma ForwardCell(c: Chunk, k: nat)
      requires Parsed() && SameShape(c) && k < Count()
      ensures c.starts == starts && c.base == base && |c.words| == |words| && base % 8 == 0
      ensures k < |starts| && starts[k] + 1 < |words| && c.Content(k) == Content(k)
      ensures c.Parsed() && c.Forwards()[k] == c.words[starts[k] + 1]
    {
      assert Block(k);
      ShapeParses(c);
      c.ForwardAt(k);
    }

    /** An in-range word in a traced field is an edge of the graph. */
    lemma FieldIsEdge(k: nat, p: nat)
      requires Parsed() && WellPointed() && k < Count() && Block(k) && Traced(k, p)
      ensures InRange(words[p]) <==> IsObject(words[p])
      ensures IsObject(words[p]) ==> IndexOf(words[p]) in Graph()[k]
    {
      GoodInRange(words[p]);
      if IsObject(words[p]) {
        assert Edge(k, IndexOf(words[p]));
      }
    }

    lemma ContentIsInjective(i: nat, j: nat)
      requires Parsed() && i < Count() && j < Count() && Content(i) == Content(j)
      ensures i == j
    {}

    lemma ObjectInRange(v: nat)
      requires Parsed() && IsObject(v)
      ensures InRange(v) && v % 8 == 0
    {
      var k := IndexOf(v);
      assert Block(k) && starts[k + 1] <= Current();
      Aligned(base, starts[k]);
    }

    lemma GoodInRange(v: nat)
      requires Parsed() && Good(v)
      ensures InRange(v) <==> IsObject(v)
    {
      if IsObject(v) { ObjectInRange(v); }
    }

    lemma GraphIsWellFormed()
      requires Parsed()
      ensures G.WellFormed(Graph())
    {}

    lemma ShapeKeepsBlock(c: Chunk, k: nat)
      requires Parsed() && SameShape(c) && k < Count()
      ensures c.Block(k)
    {
      hide IsHeader, ObjWords;
      assert Block(k);
    }

    lemma ShapeParses(c: Chunk)
      requires Parsed() && SameShape(c)
      ensures c.Parsed()
    {
      hide Block;
      forall k | 0 <= k < Count()
        ensures c.Block(k)
      {
        ShapeKeepsBlock(c, k);
      }
    }

    lemma ShapeKeepsEdge(c: Chunk, j: nat, k: nat)
      requires Parsed() && c.Parsed() && SameShape(c) && j < Count() && k < Count()
      ensures c.Edge(j, k) == Edge(j, k)
    {
      ShapeKeepsFields(c, j);
      assert c.Content(k) == Content(k);
      if Edge(j, k) {
        var p: nat :| Traced(j, p) && words[p] == Content(k);
        assert c.Traced(j, p) && c.words[p] == c.Content(k);
      }
      if c.Edge(j, k) {
        var p: nat :| c.Traced(j, p) && c.words[p] == c.Content(k);
        assert Traced(j, p) && words[p] == Content(k);
      }
    }

    lemma ShapeKeepsPointers(c: Chunk)
      requires Parsed() && c.Parsed() && SameShape(c) && WellPointed()
      ensures c.WellPointed()
    {
      forall j: nat, p: nat | j < Count() && c.Block(j) && c.Traced(j, p)
        ensures c.Good(c.words[p])
      {
        ShapeKeepsFields(c, j);
        assert Traced(j, p) && Good(words[p]);
        ShapeKeepsObjects(c, words[p]);
      }
    }

    /** Marking and locating leave the object graph as it is. */
    lemma ShapeKeepsGraph(c: Chunk)
      requires Parsed() && SameShape(c)
      ensures c.Parsed() && c.Graph() == Graph()
      ensures WellPointed() ==> c.WellPointed()
    {
      ShapeParses(c);
      forall j | 0 <= j < Count()
        ensures c.Graph()[j] == Graph()[j]
      {
        forall k | 0 <= k < Count()
          ensures c.Edge(j, k) == Edge(j, k)
        {
          ShapeKeepsEdge(c, j, k);
        }
      }
      if WellPointed() { ShapeKeepsPointers(c); }
    }

    lemma ShapeKeepsFields(c: Chunk, j: nat)
      requires Parsed() && SameShape(c) && j < Count()
      ensures Block(j) && c.starts == starts && |c.words| == |words| && c.Block(j)
      ensures forall p: nat :: c.Traced(j, p) == Traced(j, p)
      ensures forall p: nat :: Traced(j, p) ==> c.words[p] == words[p]
    {
      assert Block(j);
    }

    /** What reading object k in a chunk of the same shape needs and gives. */
    lemma FieldsAt(c: Chunk, k: nat)
      requires Parsed() && SameShape(c) && k < Count()
      ensures k + 1 < |starts| && starts[k] + 2 <= starts[k + 1] <= |words| && |c.words| == |words|
      ensures Block(k) && starts[k + 1] == starts[k] + ObjWords(words[starts[k]])
      ensures c.starts == starts && c.base == base && c.words[starts[k]] == words[starts[k]]
      ensures FirstField(words[starts[k]]) >= 2
      ensures forall p :: starts[k] + 2 <= p < starts[k + 1] ==> c.words[p] == words[p]
    {
      assert Block(k);
    }

    lemma ShapeKeepsObjects(c: Chunk, v: nat)
      requires Parsed() && c.starts == starts && c.base == base && |c.words| == |words|
      ensures c.IsObject(v) == IsObject(v) && c.Good(v) == Good(v)
    {
      assert |starts| == |c.starts| == Count() + 1 == c.Count() + 1;
      assert forall k: nat :: k < |starts| ==> c.Content(k) == Content(k);
      hide Content, Count;
    }

    /** The chunk after one forward word was written. */
    ghost function WithForward(k: nat, x: nat): Chunk
      requires k < |starts| && starts[k] + 1 < |words|
    {
      Chunk(words[starts[k] + 1 := x], starts, base)
    }

    /** The forward word of object k is neither a header nor a content word. */
    lemma ForwardIsApart(k: nat, j: nat)
      requires Parsed() && k < Count() && j < Count()
      ensures Block(j) && starts[k] + 1 < Current() && starts[k] + 1 != starts[j]
      ensures starts[k] + 1 < starts[j] + 2 || starts[j + 1] <= starts[k] + 1
      ensures starts[k] + 1 == starts[j] + 1 ==> j == k
    {
      assert Block(j) && Block(k);
      if j < k { assert starts[j + 1] <= starts[k]; }
      assert starts[k + 1] <= Current();
    }

    lemma ForwardKeepsShape(k: nat, x: nat)
      requires Parsed() && k < Count()
      ensures starts[k] + 1 < |words|
      ensures SameShape(WithForward(k, x))
    {
      ForwardIsApart(k, k);
      var c := WithForward(k, x);
      forall j | 0 <= j < Count()
        ensures Block(j) && c.words[starts[j]] == words[starts[j]]
        ensures forall p :: starts[j] + 2 <= p < starts[j + 1] ==> c.words[p] == words[p]
      {
        ForwardIsApart(k, j);
      }
      ForwardIsApart(k, k);
    }

    lemma ForwardAt(k: nat)
      requires Parsed() && k < Count()
      ensures starts[k] + 1 < |words| && Forwards()[k] == words[starts[k] + 1]
    {
      assert Block(k);
    }

    lemma ForwardsAfterWrite(k: nat, x: nat, j: nat)
      requires Parsed() && k < Count() && starts[k] + 1 < |words| && WithForward(k, x).Parsed() && j < Count()
      ensures WithForward(k, x).Forwards()[j] == Forwards()[k := x][j]
    {
      ForwardIsApart(k, j);
      ForwardAt(j);
      WithForward(k, x).ForwardAt(j);
    }

    lemma ForwardWritten(k: nat, x: nat)
      requires Parsed() && k < Count()
      ensures starts[k] + 1 < |words|
      ensures SameShape(WithForward(k, x)) && WithForward(k, x).Parsed()
      ensures WithForward(k, x).Forwards() == Forwards()[k := x]
      ensures WithForward(k, x).Contents() == Contents()
    {
      ForwardKeepsShape(k, x);
      ShapeParses(WithForward(k, x));
      forall j | 0 <= j < Count()
        ensures WithForward(k, x).Forwards()[j] == Forwards()[k := x][j]
      {
        ForwardsAfterWrite(k, x, j);
      }
      SameContents(WithForward(k, x));
    }

    lemma ShapeIsReflexive()
      requires Parsed()
      ensures SameShape(this)
    {}

    lemma ShapeKeepsLayout(c: Chunk)
      requires Parsed() && SameShape(c)
      ensures c.starts == starts && c.base == base && |c.words| == |words|
    {}

    lemma BaseIsAligned()
      requires Parsed()
      ensures base % 8 == 0
    {}

    lemma FirstStart()
      requires Parsed()
      ensures |starts| >= 1 && starts[0] == 0
    {}

    lemma StartsInOrder(i: nat, j: nat)
      requires Parsed() && i <= j < |starts|
      ensures starts[i] <= starts[j] && (i < j ==> starts[i + 1] <= starts[j])
    {}

    lemma StartsDiffer(i: nat, j: nat)
      requires Parsed() && i < |starts| && j < |starts| && starts[i] == starts[j]
      ensures i == j
    {}

    lemma NoTargets(v: nat)
      requires |starts| >= 1 && !IsObject(v)
      ensures Targets([v]) == {}
    {}

    lemma OneTarget(k: nat)
      requires Parsed() && k < Count()
      ensures IsObject(Content(k)) && IndexOf(Content(k)) == k && Targets([Content(k)]) == {k}
    {
      forall j | j in Targets([Content(k)])
        ensures j == k
      {
        ContentIsInjective(j, k);
      }
      ContentIsInjective(IndexOf(Content(k)), k);
    }

    lemma SameTargets(c: Chunk, vs: seq<nat>)
      requires |starts| >= 1 && c.starts == starts && c.base == base
      ensures c.Targets(vs) == Targets(vs)
    {
      assert forall k :: 0 <= k < Count() ==> c.Content(k) == Content(k);
    }

    lemma ContentAt(k: nat)
      requires |starts| >= 1 && k < Count()
      ensures Contents()[k] == Content(k)
    {}

    lemma SameContents(c: Chunk)
      requires |starts| >= 1 && c.starts == starts && c.base == base
      ensures c.Contents() == Contents()
    {
      assert forall k :: 0 <= k < Count() ==> c.Content(k) == Content(k);
    }

    lemma ShapeIsTransitive(c: Chunk, d: Chunk)
      requires Parsed() && SameShape(c) && c.Parsed() && c.SameShape(d)
      ensures SameShape(d)
    {
      forall k | 0 <= k < Count()
        ensures Block(k) && d.words[starts[k]] == words[starts[k]]
      {
        assert Block(k) && c.Block(k);
      }
    }
  }
}
