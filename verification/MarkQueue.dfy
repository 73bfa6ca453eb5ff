/** The breadth-first queue that marking threads through the forward words.

    Cell i of the queue is the forward word of the i-th object in address order.
    `history` lists everything enqueued since the marking began; the queue holds its
    elements from `head` on.  `at[k]` is the address of object k. */
module MarkQueue {
  import opened Words
  import opened Chunks
  import G = Graph

  ghost function Elements(s: seq<nat>): set<nat> {
    set k | k in s
  }

  ghost predicate Distinct(s: seq<nat>) {
    forall i, j :: 0 <= i < j < |s| ==> s[i] != s[j]
  }

  ghost predicate Addresses(at: seq<nat>) {
    forall k :: 0 <= k < |at| ==> at[k] % 4 == 0
  }

  ghost predicate State(f: seq<nat>, at: seq<nat>, marked: set<nat>, history: seq<nat>, head: nat)
    requires |f| == |at|
  {
    && head <= |history| <= |f|
    && Distinct(history)
    && (forall i :: 0 <= i < |history| ==> history[i] < |f| && history[i] !in marked)
    && (forall i :: head <= i < |history| ==> GetForward(f[i]) == at[history[i]])
    && Marks(f) == marked + Elements(history[..head])
    && Enqueueds(f) == Elements(history[head..])
  }

  /** There is always a free cell for an object that is neither marked nor enqueued. */
  lemma RoomInQueue(f: seq<nat>, at: seq<nat>, marked: set<nat>, history: seq<nat>, head: nat, k: nat)
    requires |f| == |at| && State(f, at, marked, history, head)
    requires k < |f| && !IsMarked(f[k]) && !IsEnqueued(f[k])
    ensures |history| < |f| && k !in history
  {
    hide SetForward, SetMark, MakeEnqueued, MakeDequeued, IsMarked, IsEnqueued, GetForward;
    assert k !in Marks(f) && k !in Enqueueds(f);
    assert history == history[..head] + history[head..];
    G.Pigeonhole(history + [k], |f|);
  }

  lemma FreshObject(f: seq<nat>, at: seq<nat>, marked: set<nat>, history: seq<nat>, head: nat, k: nat)
    requires |f| == |at| && State(f, at, marked, history, head) && k < |f|
    requires k !in marked && k !in history
    ensures !IsMarked(f[k]) && !IsEnqueued(f[k]) && |history| < |f|
  {
    assert k !in Marks(f) && k !in Enqueueds(f);
    RoomInQueue(f, at, marked, history, head, k);
  }

  lemma SeenObject(f: seq<nat>, at: seq<nat>, marked: set<nat>, history: seq<nat>, head: nat, k: nat)
    requires |f| == |at| && State(f, at, marked, history, head) && k < |f|
    ensures IsMarked(f[k]) || IsEnqueued(f[k]) <==> k in marked || k in history
  {
    assert history == history[..head] + history[head..];
    assert k in Marks(f) + Enqueueds(f) <==> k in marked + Elements(history);
  }

  /** queue_enqueue: the tail cell takes the address, the object its enqueued bit. */
  ghost function Enqueue(f: seq<nat>, at: seq<nat>, tail: nat, k: nat): seq<nat>
    requires |f| == |at| && Addresses(at) && tail < |f| && k < |f|
  {
    var f := f[tail := SetForward(f[tail], at[k])];
    f[k := MakeEnqueued(f[k])]
  }

  /** queue_dequeue and mark_object. */
  ghost function DequeueAndMark(f: seq<nat>, k: nat): seq<nat>
    requires k < |f|
  {
    var f := f[k := MakeDequeued(f[k])];
    f[k := SetMark(f[k])]
  }

  /** Enqueueing appends to the queue and disturbs no other element of it. */
  lemma EnqueueAppends(f: seq<nat>, at: seq<nat>, marked: set<nat>, history: seq<nat>, head: nat, k: nat)
    requires |f| == |at| && Addresses(at) && State(f, at, marked, history, head)
    requires k < |f| && !IsMarked(f[k]) && !IsEnqueued(f[k])
    ensures |history| < |f|
    ensures State(Enqueue(f, at, |history|, k), at, marked, history + [k], head)
  {
    hide SetForward, SetMark, MakeEnqueued, MakeDequeued, IsMarked, IsEnqueued, GetForward;
    RoomInQueue(f, at, marked, history, head, k);
    var e := Enqueue(f, at, |history|, k);
    var longer := history + [k];
    assert longer[..head] == history[..head];
    assert longer[head..] == history[head..] + [k];
    assert Marks(e) == Marks(f);
    assert Enqueueds(e) == Enqueueds(f) + {k};
  }

  /** The cell at the head holds the oldest element, which leaves the queue marked. */
  lemma DequeueTakesOldest(f: seq<nat>, at: seq<nat>, marked: set<nat>, history: seq<nat>, head: nat)
    requires |f| == |at| && State(f, at, marked, history, head) && head < |history|
    ensures GetForward(f[head]) == at[history[head]]
    ensures State(DequeueAndMark(f, history[head]), at, marked, history, head + 1)
  {
    hide SetForward, SetMark, MakeEnqueued, MakeDequeued, IsMarked, IsEnqueued, GetForward;
    var k := history[head];
    var e := DequeueAndMark(f, k);
    assert history[..head + 1] == history[..head] + [k];
    assert history[head..] == [k] + history[head + 1..];
    assert k !in history[head + 1..];
    assert Marks(e) == Marks(f) + {k};
    assert Enqueueds(e) == Enqueueds(f) - {k};
  }

  lemma Oldest(f: seq<nat>, at: seq<nat>, marked: set<nat>, history: seq<nat>, head: nat)
    requires |f| == |at| && State(f, at, marked, history, head) && head < |history|
    ensures history[head] < |f| && GetForward(f[head]) == at[history[head]]
  {}

  lemma EmptyQueue(f: seq<nat>, at: seq<nat>, marked: set<nat>)
    requires |f| == |at| && marked == Marks(f) && Enqueueds(f) == {}
    ensures State(f, at, marked, [], 0)
  {}

  lemma DrainedQueue(f: seq<nat>, at: seq<nat>, marked: set<nat>, history: seq<nat>)
    requires |f| == |at| && State(f, at, marked, history, |history|)
    ensures Marks(f) == marked + Elements(history) && Enqueueds(f) == {}
  {
    assert history[..|history|] == history;
  }

  /** Everything enqueued is reachable from `root`, and the children of what was
      dequeued are marked or enqueued. */
  ghost predicate Explored(g: G.Graph, marked: set<nat>, history: seq<nat>, head: nat, root: nat) {
    && root in history
    && Elements(history) <= G.Reach(g, {root})
    && forall i :: 0 <= i < head && i < |history| && history[i] < |g| ==> g[history[i]] <= marked + Elements(history)
  }

  lemma ExploreOne(g: G.Graph, marked: set<nat>, history: seq<nat>, longer: seq<nat>, head: nat, root: nat)
    requires G.WellFormed(g) && Explored(g, marked, history, head, root) && head < |history|
    requires history <= longer && history[head] < |g|
    requires forall i :: |history| <= i < |longer| ==> longer[i] in g[history[head]]
    requires g[history[head]] <= marked + Elements(longer)
    ensures Explored(g, marked, longer, head + 1, root)
  {
    assert Elements(history) <= Elements(longer);
    forall k | k in longer
      ensures k in G.Reach(g, {root})
    {
      if k !in history {
        assert history[head] in Elements(history);
        G.ReachStep(g, {root}, history[head], k);
      }
    }
  }

  /** An empty queue: marking has added exactly what `root` reaches. */
  lemma ExploredAll(g: G.Graph, marked: set<nat>, history: seq<nat>, root: nat)
    requires G.WellFormed(g) && G.Closed(g, marked) && root < |g|
    requires Explored(g, marked, history, |history|, root)
    ensures marked + Elements(history) == marked + G.Reach(g, {root})
    ensures G.Closed(g, marked + Elements(history))
  {
    var seen := marked + Elements(history);
    forall j, k | j in seen && j < |g| && k in g[j]
      ensures k in seen
    {
      if j !in marked {
        var i :| 0 <= i < |history| && history[i] == j;
        assert g[history[i]] <= seen;
      }
    }
    G.ReachLeast(g, {root}, seen);
  }

  // The same operations on a chunk

  ghost function EnqueueIn(c: Chunk, tail: nat, k: nat): Chunk
    requires c.Parsed() && tail < c.Count() && k < c.Count()
  {
    c.ForwardAt(tail);
    c.ForwardAt(k);
    Aligned(c.base, c.starts[k]);
    var d := c.WithForward(tail, SetForward(c.words[c.starts[tail] + 1], c.Content(k)));
    d.WithForward(k, MakeEnqueued(d.words[d.starts[k] + 1]))
  }

  ghost function DequeueAndMarkIn(c: Chunk, k: nat): Chunk
    requires c.Parsed() && k < c.Count()
  {
    c.ForwardAt(k);
    var d := c.WithForward(k, MakeDequeued(c.words[c.starts[k] + 1]));
    d.WithForward(k, SetMark(d.words[d.starts[k] + 1]))
  }

  lemma ContentsAreAligned(c: Chunk)
    requires c.Parsed()
    ensures Addresses(c.Contents())
  {
    forall k | 0 <= k < c.Count()
      ensures c.Contents()[k] % 4 == 0
    {
      Aligned(c.base, c.starts[k]);
    }
  }

  lemma ContentIsAligned(c: Chunk, k: nat)
    requires c.Parsed() && k < c.Count()
    ensures |c.Contents()| == |c.Forwards()| == c.Count()
    ensures c.Contents()[k] == c.Content(k) && c.Content(k) % 4 == 0 && Addresses(c.Contents())
  {
    ContentsAreAligned(c);
    Aligned(c.base, c.starts[k]);
  }

  lemma TwoWrites(c: Chunk, j: nat, x: nat, k: nat, y: nat)
    requires c.Parsed() && j < c.Count() && k < c.Count()
    ensures c.starts[j] + 1 < |c.words| && c.starts[k] + 1 < |c.words|
    ensures var e := c.WithForward(j, x).WithForward(k, y);
      && c.SameShape(e) && e.Parsed() && e.Contents() == c.Contents()
      && e.Forwards() == c.Forwards()[j := x][k := y]
  {
    c.ForwardWritten(j, x);
    var d := c.WithForward(j, x);
    d.ForwardWritten(k, y);
    c.ShapeIsTransitive(d, d.WithForward(k, y));
  }

  lemma EnqueueInChunk(c: Chunk, tail: nat, k: nat)
    requires c.Parsed() && tail < c.Count() && k < c.Count()
    ensures var e := EnqueueIn(c, tail, k);
      && c.SameShape(e) && e.Parsed() && e.Contents() == c.Contents()
      && Addresses(c.Contents()) && e.Forwards() == Enqueue(c.Forwards(), c.Contents(), tail, k)
  {
    hide Chunk.Parsed, Chunk.SameShape, Chunk.Forwards, Chunk.Contents, Addresses, SetForward, MakeEnqueued;
    c.ForwardAt(tail);
    c.ForwardAt(k);
    ContentIsAligned(c, k);
    var x := SetForward(c.words[c.starts[tail] + 1], c.Content(k));
    c.ForwardWritten(tail, x);
    c.WithForward(tail, x).ForwardAt(k);
    TwoWrites(c, tail, x, k, MakeEnqueued(c.WithForward(tail, x).words[c.starts[k] + 1]));
  }

  lemma DequeueInChunk(c: Chunk, k: nat)
    requires c.Parsed() && k < c.Count()
    ensures var e := DequeueAndMarkIn(c, k);
      && c.SameShape(e) && e.Parsed() && e.Contents() == c.Contents()
      && e.Forwards() == DequeueAndMark(c.Forwards(), k)
  {
    c.ForwardAt(k);
    var x := MakeDequeued(c.words[c.starts[k] + 1]);
    c.ForwardWritten(k, x);
    c.WithForward(k, x).ForwardAt(k);
    TwoWrites(c, k, x, k, SetMark(c.WithForward(k, x).words[c.starts[k] + 1]));
  }
}
