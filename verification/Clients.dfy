/** Clients of the collector: Barray, Bsexp and Bclosure (runtime/runtime.c:796-897) keep their
    elements alive and up to date by registering them as extra roots around the allocation. */
module Clients {
  import opened Words
  import opened Chunks
  import opened Objects
  import opened Collectors
  import opened Mappings
  import A = Allocation
  import U = Mutation

  /** A collection fixes what p holds, or there is nothing to fix. */
  ghost predicate Registrable(c: Collector, p: nat)
    requires c.HeapValid()
    reads c`names, c`ideal, c`top, c`bottom, c.heap, c.heap.mem, c.ram
  {
    && p < c.ram.Length && c.heap.View().Good(c.ram[p])
    && (p == c.top && c.top < c.bottom ==> !c.heap.View().IsObject(c.ram[p]))
  }

  /** push_extra_root; the program exits when the pool is full. */
  method PushExtraRoot(c: Collector, p: nat) returns (ok: bool)
    requires Sound(c) && Registrable(c, p)
    modifies c`extraRoots
    ensures ok <==> |old(c.extraRoots)| < MAX_EXTRA_ROOTS_NUMBER
    ensures Sound(c) && c.extraRoots == old(c.extraRoots) + if ok then [p] else []
  {
    hide Collector.HeapValid, Chunk.Good, Chunk.IsObject;
    ok := |c.extraRoots| < MAX_EXTRA_ROOTS_NUMBER;
    if ok { c.extraRoots := c.extraRoots + [p]; }
  }

  /** pop_extra_root; the program exits unless p is the last root that was pushed.  The word
      behind the stack must hold no pointer when it stops being a root. */
  method PopExtraRoot(c: Collector, p: nat) returns (ok: bool)
    requires Sound(c)
    requires p == c.bottom && c.extraRoots != [] ==>
      c.ram[p] % 2 == 1 || p in c.extraRoots[..|c.extraRoots| - 1]
    modifies c`extraRoots
    ensures ok <==> |old(c.extraRoots)| > 0 && old(c.extraRoots[|c.extraRoots| - 1]) == p
    ensures Sound(c) && c.extraRoots == if ok then old(c.extraRoots[..|c.extraRoots| - 1]) else old(c.extraRoots)
  {
    hide Collector.HeapValid, Chunk.Good, Chunk.IsObject;
    ok := |c.extraRoots| > 0 && c.extraRoots[|c.extraRoots| - 1] == p;
    if ok {
      c.extraRoots := c.extraRoots[..|c.extraRoots| - 1];
      assert old(c.extraRoots) == c.extraRoots + [p];
      assert forall r :: r in c.extraRoots ==> r in old(c.extraRoots);
    }
  }

  function Indices(args: nat, n: nat): seq<nat> { seq(n, i requires 0 <= i < n => args + i) }

  /** The n words from `args` on, as the mutator sees them. */
  ghost function LooksAt(c: Collector, args: nat, n: nat): seq<Field>
    requires c.HeapValid() && args + n <= c.ram.Length
    reads c, c.heap, c.heap.mem, c.ram
  {
    seq(n, i requires 0 <= i < n && c.HeapValid() && args + n <= c.ram.Length
             reads c, c.heap, c.heap.mem, c.ram => c.Look(c.ram[args + i]))
  }

  ghost predicate GoodArgs(c: Collector, args: nat, n: nat)
    requires c.HeapValid()
    reads c`names, c`ideal, c`top, c`bottom, c.heap, c.heap.mem, c.ram
  {
    args + n <= c.ram.Length && forall i :: args <= i < args + n ==> Registrable(c, i)
  }

  method PushArgs(c: Collector, args: nat, n: nat) returns (ok: bool)
    requires Sound(c) && GoodArgs(c, args, n) && |c.extraRoots| <= MAX_EXTRA_ROOTS_NUMBER
    modifies c`extraRoots
    ensures ok <==> |old(c.extraRoots)| + n <= MAX_EXTRA_ROOTS_NUMBER
    ensures ok ==> Sound(c) && c.extraRoots == old(c.extraRoots) + Indices(args, n)
  {
    hide Collector.HeapValid, Chunk.Good, Chunk.IsObject;
    var i := 0;
    ok := true;
    while i < n
      invariant 0 <= i <= n && Sound(c) && GoodArgs(c, args, n)
      invariant c.extraRoots == old(c.extraRoots) + Indices(args, i) && |c.extraRoots| <= MAX_EXTRA_ROOTS_NUMBER
    {
      ok := PushExtraRoot(c, args + i);
      if !ok { return; }
      i := i + 1;
    }
  }

  method PopArgs(c: Collector, args: nat, n: nat, ghost below: seq<nat>)
    requires Sound(c) && c.extraRoots == below + Indices(args, n)
    requires c.bottom in below || c.ram[c.bottom] % 2 == 1
    modifies c`extraRoots
    ensures Sound(c) && c.extraRoots == below
  {
    hide Collector.HeapValid, Chunk.Good, Collector.RootsValid, Collector.TopRootIsPlain;
    var i := n;
    while i > 0
      invariant 0 <= i <= n && Sound(c) && c.extraRoots == below + Indices(args, i)
    {
      i := i - 1;
      assert Indices(args, i + 1) == Indices(args, i) + [args + i];
      assert c.extraRoots[..|c.extraRoots| - 1] == below + Indices(args, i);
      var ok := PopExtraRoot(c, args + i);
      assert ok;
    }
  }

  /** An object while its first i elements are copied behind the words of `head`. */
  ghost function Partial(header: nat, head: seq<Field>, looks: seq<Field>, i: nat): Object
    requires i <= |looks|
  {
    Object(header, head + looks[..i] + seq(|looks| - i, j => Raw(0)))
  }

  /** n elements behind one word or none. */
  ghost predicate Shaped(header: nat, head: seq<Field>, n: nat) {
    && IsHeader(header) && Tag(header) != STRING_TAG
    && |head| <= 1 && FirstField(header) == |head| + 2 && ObjWords(header) == |head| + n + 2
  }

  lemma NextElement(header: nat, head: seq<Field>, looks: seq<Field>, i: nat)
    requires i < |looks|
    ensures |head| + i < |Partial(header, head, looks, i).fields|
    ensures U.WithField(Partial(header, head, looks, i), |head| + i, looks[i]) == Partial(header, head, looks, i + 1)
  {}

  lemma SetHead(header: nat, was: Field, now: Field, looks: seq<Field>, i: nat)
    requires i <= |looks|
    ensures 0 < |Partial(header, [was], looks, i).fields|
    ensures U.WithField(Partial(header, [was], looks, i), 0, now) == Partial(header, [now], looks, i)
  {}

  lemma FreshIsPartial(header: nat, head: seq<Field>, looks: seq<Field>)
    requires Shaped(header, head, |looks|) && (head == [] || head == [Raw(0)])
    ensures A.FreshObject(header) == Partial(header, head, looks, 0)
  {}

  lemma FullIsWhole(header: nat, head: seq<Field>, looks: seq<Field>)
    ensures Partial(header, head, looks, |looks|) == Object(header, head + looks)
  {
    assert looks[..|looks|] == looks;
  }

  lemma HeaderOfPartial(header: nat, head: seq<Field>, looks: seq<Field>, i: nat)
    requires i <= |looks|
    ensures Partial(header, head, looks, i).header == header
  {}

  lemma ElementIsTraced(c: Collector, r: nat, header: nat, head: seq<Field>, n: nat, i: nat, w: nat)
    requires c.HeapValid() && c.Look(r).Ref? && c.Target(r).header == header && Shaped(header, head, n) && i < n
    ensures c.HasWord(r, |head| + 2 + i) && c.IsTraced(r, |head| + 2 + i)
    ensures c.Means(r, |head| + 2 + i, w) == c.Look(w)
  {
    hide Collector.HeapValid, Collector.Target, ObjWords, FirstField;
  }

  lemma LabelIsWord(c: Collector, r: nat, header: nat, was: Field, n: nat, w: nat)
    requires c.HeapValid() && c.Look(r).Ref? && c.Target(r).header == header && Shaped(header, [was], n)
    ensures c.HasWord(r, 2) && !c.IsTraced(r, 2) && c.Means(r, 2, w) == Raw(w)
  {
    hide Collector.HeapValid, Collector.Look, Collector.Target;
  }

  /** Sets the word before the elements. */
  method StoreLabel(c: Collector, r: nat, word: nat, ghost before: seq<Object>, ghost header: nat,
        ghost looks: seq<Field>, ghost i: nat, ghost args: nat)
    requires Sound(c) && i <= |looks| && GoodArgs(c, args, |looks|) && Shaped(header, [Raw(0)], |looks|)
    requires c.Look(r) == Ref(|before|) && c.ideal == before + [Partial(header, [Raw(0)], looks, i)]
    modifies c, c.heap.mem
    ensures Sound(c) && c.extraRoots == old(c.extraRoots) && c.top == old(c.top) && c.bottom == old(c.bottom)
    ensures c.ideal == before + [Partial(header, [Raw(word)], looks, i)] && GoodArgs(c, args, |looks|)
    ensures forall v :: c.Look(v) == old(c.Look(v)) && c.heap.View().Good(v) == old(c.heap.View().Good(v))
    ensures forall v :: c.heap.View().IsObject(v) == old(c.heap.View().IsObject(v))
  {
    hide Chunk.Parsed, Chunk.Good, Chunk.WellPointed, Depicts, Collector.Look, Collector.IsTraced, Collector.HasWord,
        Collector.Means, ObjWords, FirstField, Partial, Chunk.IsObject;
    SetHead(header, Raw(0), Raw(word), looks, i);
    HeaderOfPartial(header, [Raw(0)], looks, i);
    LabelIsWord(c, r, header, Raw(0), |looks|, word);
    c.StoreWord(r, 2, word);
    forall i | args <= i < args + |looks| ensures Registrable(c, i) {
      assert old(Registrable(c, i));
    }
  }

  /** Copies the elements, which may have moved, into the new object. */
  method Fill(c: Collector, r: nat, args: nat, n: nat, ghost before: seq<Object>, ghost header: nat,
        first: nat, ghost head: seq<Field>, ghost looks: seq<Field>)
    requires Sound(c) && GoodArgs(c, args, n) && |looks| == n && c.heap.View().Good(r)
    requires Shaped(header, head, n) && first == |head| + 2
    requires c.Look(r) == Ref(|before|) && c.ideal == before + [Partial(header, head, looks, 0)]
    requires forall i :: 0 <= i < n ==> c.Look(c.ram[args + i]) == looks[i]
    modifies c, c.heap.mem
    ensures Sound(c) && c.extraRoots == old(c.extraRoots) && c.top == old(c.top) && c.bottom == old(c.bottom)
    ensures c.ideal == before + [Partial(header, head, looks, n)] && GoodArgs(c, args, n)
    ensures forall v :: c.Look(v) == old(c.Look(v)) && c.heap.View().Good(v) == old(c.heap.View().Good(v))
    ensures forall v :: c.heap.View().IsObject(v) == old(c.heap.View().IsObject(v))
  {
    hide Chunk.Parsed, Chunk.Good, Chunk.WellPointed, Depicts, Collector.Look, Collector.IsTraced, Collector.HasWord,
        Collector.Means, ObjWords, FirstField, Partial, Chunk.IsObject;
    var i := 0;
    while i < n
      invariant 0 <= i <= n && Sound(c) && GoodArgs(c, args, n)
      invariant c.extraRoots == old(c.extraRoots) && c.top == old(c.top) && c.bottom == old(c.bottom)
      invariant c.ideal == before + [Partial(header, head, looks, i)]
      invariant forall v :: c.Look(v) == old(c.Look(v)) && c.heap.View().Good(v) == old(c.heap.View().Good(v))
      invariant forall v :: c.heap.View().IsObject(v) == old(c.heap.View().IsObject(v))
    {
      NextElement(header, head, looks, i);
      HeaderOfPartial(header, head, looks, i);
      assert Registrable(c, args + i);
      ElementIsTraced(c, r, header, head, n, i, c.ram[args + i]);
      label Before:
      c.StoreWord(r, first + i, c.ram[args + i]);
      forall j | args <= j < args + n ensures Registrable(c, j) {
        assert old@Before(Registrable(c, j));
      }
      i := i + 1;
    }
  }

  /** What an allocation needs and leaves: registered arguments keep their meaning. */
  lemma ArgsAreRoots(c: Collector, args: nat, n: nat, below: seq<nat>)
    requires c.extraRoots == below + Indices(args, n)
    ensures forall i :: args <= i < args + n ==> c.IsRoot(i)
  {
    forall i | args <= i < args + n
      ensures c.IsRoot(i)
    {
      assert c.extraRoots[|below| + i - args] == i;
    }
  }

  /** The program is told why it exits: too many extra roots, or no memory. */
  ghost predicate CannotMake(c: Collector, registered: nat, n: nat, header: nat)
    requires c.HeapValid()
    reads c, c.heap, c.heap.mem, c.ram
  {
    registered + n > MAX_EXTRA_ROOTS_NUMBER || NoRoom(c, ObjWords(header))
  }

  /** Registers the arguments and allocates: the new object is empty, and the arguments are
      what they were, wherever they are now. */
  method AllocWithArgs(c: Collector, tag: nat, len: nat, args: nat, n: nat) returns (failed: bool, r: nat)
    requires Sound(c) && GoodArgs(c, args, n) && |c.extraRoots| <= MAX_EXTRA_ROOTS_NUMBER
    requires IsHeader(tag) && tag < 8
    modifies c, c.heap, c.heap.mem, c.ram
    ensures |old(c.extraRoots)| + n > MAX_EXTRA_ROOTS_NUMBER ==> failed
    ensures c.HeapValid() && (failed ==> CannotMake(c, |old(c.extraRoots)|, n, MakeHeader(tag, len)))
    ensures !failed ==> Sound(c) && (c.bottom in old(c.extraRoots) || c.ram[c.bottom] % 2 == 1)
    ensures !failed ==>
      && Sound(c) && GoodArgs(c, args, n) && c.extraRoots == old(c.extraRoots) + Indices(args, n)
      && c.top == old(c.top) && c.bottom == old(c.bottom)
      && (c.heap.mem == old(c.heap.mem) || fresh(c.heap.mem))
      && c.ideal == old(c.ideal) + [A.FreshObject(MakeHeader(tag, len))]
      && c.Look(r) == Ref(|old(c.ideal)|) && c.heap.View().Good(r)
      && (forall i :: 0 <= i < c.ram.Length && (c.IsRoot(i) || args <= i < args + n) ==>
           c.Look(c.ram[i]) == old(c.Look(c.ram[i])))
      && forall i :: 0 <= i < c.ram.Length && !old(c.heap.View().IsObject(c.ram[i])) ==> c.ram[i] == old(c.ram[i])
  {
    hide Chunk.Parsed, Chunk.Good, Chunk.WellPointed, Depicts, Collector.Look, ObjWords, MakeHeader, A.FreshObject,
        NoRoom, Chunk.IsObject;
    ghost var below := c.extraRoots;
    failed, r := true, 0;
    if c.ram[c.bottom] % 2 == 1 { OddIsNoObject(c.heap.View(), c.ram[c.bottom]); }
    var ok := PushArgs(c, args, n);
    if !ok { return; }
    ArgsAreRoots(c, args, n, below);
    var obj;
    ok, obj := AllocWithMmap(c, tag, len);
    if !ok { return; }
    r := obj + HEADER_BYTES;
    failed := false;
  }

  lemma ArrayShape(n: nat)
    ensures Shaped(MakeHeader(ARRAY_TAG, n), [], n)
  {}

  lemma SexpShape(n: nat, tag: Field)
    ensures Shaped(MakeHeader(SEXP_TAG, n), [tag], n)
    ensures Tag(MakeHeader(SEXP_TAG, n)) == SEXP_TAG
  {}

  lemma ClosureShape(n: nat, code: Field)
    ensures Shaped(MakeHeader(CLOSURE_TAG, n + 1), [code], n)
    ensures Tag(MakeHeader(CLOSURE_TAG, n + 1)) == CLOSURE_TAG && Len(MakeHeader(CLOSURE_TAG, n + 1)) > 0
  {}

  /** What a client promises: one more object, made of what the arguments mean, and nothing
      else that the mutator could see. */
  twostate predicate Made(c: Collector, r: nat, o: Object)
    requires old(c.HeapValid())
    reads c, c.heap, c.heap.mem, c.ram
  {
    && Sound(c) && c.extraRoots == old(c.extraRoots) && c.ideal == old(c.ideal) + [o]
    && c.heap.View().Good(r) && c.Look(r) == Ref(|old(c.ideal)|)
    && forall i :: 0 <= i < c.ram.Length && c.IsRoot(i) ==> c.Look(c.ram[i]) == old(c.Look(c.ram[i]))
  }

  /** A new array of the elements, wherever a collection has moved them meanwhile. */
  method Barray(c: Collector, args: nat, n: nat) returns (failed: bool, r: nat)
    requires Sound(c) && GoodArgs(c, args, n) && |c.extraRoots| <= MAX_EXTRA_ROOTS_NUMBER
    modifies c, c.heap, c.heap.mem, c.ram
    ensures |old(c.extraRoots)| + n > MAX_EXTRA_ROOTS_NUMBER ==> failed
    ensures c.HeapValid() && (failed ==> CannotMake(c, |old(c.extraRoots)|, n, MakeHeader(ARRAY_TAG, n)))
    ensures !failed ==> Made(c, r, Object(MakeHeader(ARRAY_TAG, n), old(LooksAt(c, args, n))))
  {
    hide Collector.HeapValid, Collector.Look, ObjWords, FirstField, Partial, MakeHeader,
        A.FreshObject, CannotMake, Shaped, Chunk.Good, Chunk.IsObject;
    ghost var looks, before, below, header := LooksAt(c, args, n), c.ideal, c.extraRoots, MakeHeader(ARRAY_TAG, n);
    failed, r := AllocWithArgs(c, ARRAY_TAG, n, args, n);
    if failed { return; }
    ArrayShape(n);
    FreshIsPartial(header, [], looks);
    Fill(c, r, args, n, before, header, 2, [], looks);
    FullIsWhole(header, [], looks);
    PopArgs(c, args, n, below);
    assert [] + looks == looks;
  }

  /** A closure of the code at args and the n captures behind it. */
  method Bclosure(c: Collector, args: nat, n: nat) returns (failed: bool, r: nat)
    requires Sound(c) && args < c.ram.Length && !c.heap.View().IsObject(c.ram[args])
    requires GoodArgs(c, args + 1, n) && |c.extraRoots| <= MAX_EXTRA_ROOTS_NUMBER
    modifies c, c.heap, c.heap.mem, c.ram
    ensures |old(c.extraRoots)| + n > MAX_EXTRA_ROOTS_NUMBER ==> failed
    ensures c.HeapValid() && (failed ==> CannotMake(c, |old(c.extraRoots)|, n, MakeHeader(CLOSURE_TAG, n + 1)))
    ensures !failed ==> Made(c, r, Object(MakeHeader(CLOSURE_TAG, n + 1),
                                          [Raw(old(c.ram[args]))] + old(LooksAt(c, args + 1, n))))
  {
    hide Collector.HeapValid, Collector.Look, ObjWords, FirstField, Partial, MakeHeader,
        A.FreshObject, CannotMake, Shaped, Chunk.Good, Chunk.IsObject;
    ghost var looks, before, below := LooksAt(c, args + 1, n), c.ideal, c.extraRoots;
    ghost var header, code := MakeHeader(CLOSURE_TAG, n + 1), Raw(c.ram[args]);
    failed, r := AllocWithArgs(c, CLOSURE_TAG, n + 1, args + 1, n);
    if failed { return; }
    ClosureShape(n, Raw(0));
    ClosureShape(n, code);
    FreshIsPartial(header, [Raw(0)], looks);
    StoreLabel(c, r, c.ram[args], before, header, looks, 0, args + 1);
    Fill(c, r, args + 1, n, before, header, 3, [code], looks);
    FullIsWhole(header, [code], looks);
    PopArgs(c, args + 1, n, below);
  }

  /** An S-expression of the elements, with the tag behind them. */
  method Bsexp(c: Collector, args: nat, n: nat) returns (failed: bool, r: nat)
    requires Sound(c) && args + n < c.ram.Length && !c.heap.View().IsObject(c.ram[args + n])
    requires GoodArgs(c, args, n) && |c.extraRoots| <= MAX_EXTRA_ROOTS_NUMBER
    modifies c, c.heap, c.heap.mem, c.ram
    ensures |old(c.extraRoots)| + n > MAX_EXTRA_ROOTS_NUMBER ==> failed
    ensures c.HeapValid() && (failed ==> CannotMake(c, |old(c.extraRoots)|, n, MakeHeader(SEXP_TAG, n)))
    ensures !failed ==> Made(c, r, Object(MakeHeader(SEXP_TAG, n),
                                          [Raw(UnboxWord(old(c.ram[args + n])))] + old(LooksAt(c, args, n))))
  {
    hide Collector.HeapValid, Collector.Look, ObjWords, FirstField, Partial, MakeHeader,
        A.FreshObject, CannotMake, Shaped, Chunk.Good, Chunk.IsObject, UnboxWord;
    ghost var looks, before, below := LooksAt(c, args, n), c.ideal, c.extraRoots;
    ghost var header, tag := MakeHeader(SEXP_TAG, n), Raw(UnboxWord(c.ram[args + n]));
    failed, r := AllocWithArgs(c, SEXP_TAG, n, args, n);
    if failed { return; }
    SexpShape(n, Raw(0));
    SexpShape(n, tag);
    FreshIsPartial(header, [Raw(0)], looks);
    StoreLabel(c, r, 0, before, header, looks, 0, args);
    Fill(c, r, args, n, before, header, 3, [Raw(0)], looks);
    StoreLabel(c, r, UnboxWord(c.ram[args + n]), before, header, looks, n, args);
    FullIsWhole(header, [tag], looks);
    PopArgs(c, args, n, below);
  }
}
