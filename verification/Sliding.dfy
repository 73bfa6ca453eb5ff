/** Where compaction puts the live objects: prefix sums of the sizes of the live ones.

    `s` is the list of object starts of a parsed chunk, `live` the set of live objects.
    Object k moves to word Dest(k) and becomes object number Rank(k). */
module Sliding {

  ghost predicate Increasing(s: seq<nat>) {
    && |s| >= 1 && s[0] == 0
    && forall i, j :: 0 <= i < j < |s| ==> s[i] + 2 <= s[j]
  }

  ghost function Dest(s: seq<nat>, live: set<nat>, k: nat): nat
    requires Increasing(s) && k < |s|
  {
    if k == 0 then 0
    else Dest(s, live, k - 1) + if k - 1 in live then s[k] - s[k - 1] else 0
  }

  ghost function Rank(live: set<nat>, k: nat): nat {
    if k == 0 then 0 else Rank(live, k - 1) + if k - 1 in live then 1 else 0
  }

  /** The starts of the compacted chunk, as far as the first k objects decide them. */
  ghost function NewStarts(s: seq<nat>, live: set<nat>, k: nat): (t: seq<nat>)
    requires Increasing(s) && k < |s|
    ensures |t| == Rank(live, k) + 1 && t[|t| - 1] == Dest(s, live, k)
  {
    if k == 0 then [0]
    else if k - 1 in live then NewStarts(s, live, k - 1) + [Dest(s, live, k)]
    else NewStarts(s, live, k - 1)
  }

  /** The live objects among the first k, in address order. */
  ghost function LiveList(live: set<nat>, k: nat): (t: seq<nat>)
    ensures |t| == Rank(live, k)
  {
    if k == 0 then []
    else if k - 1 in live then LiveList(live, k - 1) + [k - 1]
    else LiveList(live, k - 1)
  }

  /** No object moves up, and a live object does not reach the next one. */
  lemma {:induction false} DestAtMostStart(s: seq<nat>, live: set<nat>, k: nat)
    requires Increasing(s) && k < |s|
    ensures Dest(s, live, k) <= s[k]
    ensures k + 1 < |s| && k in live ==> Dest(s, live, k + 1) == Dest(s, live, k) + (s[k + 1] - s[k])
  {
    if k > 0 {
      DestAtMostStart(s, live, k - 1);
      assert s[k - 1] + 2 <= s[k];
    }
  }

  lemma {:induction false} DestIsMonotone(s: seq<nat>, live: set<nat>, j: nat, k: nat)
    requires Increasing(s) && j <= k < |s|
    ensures Dest(s, live, j) <= Dest(s, live, k) && Rank(live, j) <= Rank(live, k)
    ensures NewStarts(s, live, j) <= NewStarts(s, live, k)
    decreases k
  {
    if j < k {
      DestIsMonotone(s, live, j, k - 1);
      assert s[k - 1] + 2 <= s[k];
    }
  }

  /** Destination blocks do not overlap. */
  lemma DestBlocksAreDisjoint(s: seq<nat>, live: set<nat>, j: nat, k: nat)
    requires Increasing(s) && j < k < |s| && j in live
    ensures Dest(s, live, j) + (s[j + 1] - s[j]) <= Dest(s, live, k)
    ensures Rank(live, j) < Rank(live, k)
  {
    DestAtMostStart(s, live, j);
    DestIsMonotone(s, live, j + 1, k);
  }

  /** The r-th start of the compacted chunk belongs to the live object of rank r. */
  lemma StartOfRank(s: seq<nat>, live: set<nat>, k: nat, n: nat)
    requires Increasing(s) && k <= n < |s|
    ensures Rank(live, k) < |NewStarts(s, live, n)| && NewStarts(s, live, n)[Rank(live, k)] == Dest(s, live, k)
  {
    DestIsMonotone(s, live, k, n);
  }

  lemma {:induction false} LiveOfRank(live: set<nat>, n: nat, r: nat)
    requires r < Rank(live, n)
    ensures LiveList(live, n)[r] in live && LiveList(live, n)[r] < n && Rank(live, LiveList(live, n)[r]) == r
  {
    if r < Rank(live, n - 1) {
      LiveOfRank(live, n - 1, r);
    }
  }

  lemma {:induction false} RankOfLive(live: set<nat>, n: nat, k: nat)
    requires k in live && k < n
    ensures Rank(live, k) < Rank(live, n) && LiveList(live, n)[Rank(live, k)] == k
  {
    if k < n - 1 {
      RankOfLive(live, n - 1, k);
    }
  }

  lemma NewStartsIncrease(s: seq<nat>, live: set<nat>, n: nat)
    requires Increasing(s) && n == |s| - 1
    ensures Increasing(NewStarts(s, live, n))
  {
    var t := NewStarts(s, live, n);
    StartOfRank(s, live, 0, n);
    forall a, b | 0 <= a < b < |t|
      ensures t[a] + 2 <= t[b]
    {
      LiveOfRank(live, n, a);
      var i := LiveList(live, n)[a];
      StartOfRank(s, live, i, n);
      assert s[i] + 2 <= s[i + 1];
      if b == |t| - 1 {
        DestBlocksAreDisjoint(s, live, i, n);
      } else {
        LiveOfRank(live, n, b);
        var j := LiveList(live, n)[b];
        StartOfRank(s, live, j, n);
        if j < i { DestBlocksAreDisjoint(s, live, j, i); }
        DestBlocksAreDisjoint(s, live, i, j);
      }
    }
  }
}
