/** The string handle with a reference count of one bit (Assignment08/src/string_ptr.cpp,
    Assignment08/src/string_ptr.h): a copy makes both handles non-unique, and only a unique
    handle frees its buffer. */
module StringPtrs {

  // What repr_ says: an even address, or zero, and the UNIQUE bit

  function Ptr(repr: nat): nat { repr - repr % 2 }

  predicate Unique(repr: nat) { repr % 2 == 1 }

  function ToRepr(ptr: nat, unique: bool): nat { ptr + if unique then 1 else 0 }

  /** The allocator; `broken` once something was freed that is not live. */
  class Allocator {
    var live: set<nat>
    var broken: bool

    constructor ()
      ensures live == {} && !broken
    {
      live, broken := {}, false;
    }

    /** `choice` is the buffer that `new` finds. */
    method Allocate(choice: nat)
      requires choice !in live
      modifies this
      ensures live == old(live) + {choice} && broken == old(broken)
    {
      live := live + {choice};
    }

    method Free(ptr: nat)
      modifies this
      ensures live == old(live) - {ptr} && broken == (old(broken) || ptr !in old(live))
    {
      if ptr !in live { broken := true; }
      live := live - {ptr};
    }
  }

  class StringPtr {
    const allocator: Allocator
    var repr: nat

    constructor Null(allocator: Allocator)
      ensures this.allocator == allocator && repr == 0
    {
      this.allocator := allocator;
      repr := ToRepr(0, false);
    }

    /** From a string, or from null; `choice` is the buffer that `new` finds for a string. */
    constructor FromString(allocator: Allocator, isNull: bool, choice: nat)
      requires !isNull ==> choice !in allocator.live && choice > 0 && choice % 2 == 0
      modifies allocator
      ensures this.allocator == allocator && allocator.broken == old(allocator.broken)
      ensures isNull ==> repr == 0 && allocator.live == old(allocator.live)
      ensures !isNull ==>
        && Unique(repr) && Ptr(repr) == choice && choice !in old(allocator.live)
        && allocator.live == old(allocator.live) + {choice}
    {
      this.allocator := allocator;
      repr := if isNull then ToRepr(0, false) else ToRepr(choice, true);
      new;
      if !isNull { allocator.Allocate(choice); }
    }

    constructor Copy(other: StringPtr)
      modifies other`repr
      ensures allocator == other.allocator && repr == other.repr == Ptr(old(other.repr))
    {
      allocator := other.allocator;
      repr := Ptr(other.repr);
      new;
      other.repr := repr;
    }

    constructor Move(other: StringPtr)
      modifies other`repr
      ensures allocator == other.allocator && repr == old(other.repr) && other.repr == 0
    {
      allocator := other.allocator;
      repr := other.repr;
      new;
      other.repr := ToRepr(0, false);
    }

    method Destroy()
      modifies allocator
      ensures if Unique(repr)
        then allocator.live == old(allocator.live) - {Ptr(repr)}
            && allocator.broken == (old(allocator.broken) || Ptr(repr) !in old(allocator.live))
        else allocator.live == old(allocator.live) && allocator.broken == old(allocator.broken)
    {
      if Unique(repr) { allocator.Free(Ptr(repr)); }
    }

    method Swap(other: StringPtr)
      modifies this`repr, other`repr
      ensures repr == old(other.repr) && other.repr == old(repr)
    {
      repr, other.repr := other.repr, repr;
    }

    /** Copy assignment: the old buffer dies with the temporary. */
    method Assign(rhs: StringPtr)
      requires allocator == rhs.allocator
      modifies this`repr, rhs`repr, allocator
      ensures this == rhs ==>
        && repr == old(repr) && allocator.live == old(allocator.live)
        && allocator.broken == old(allocator.broken)
      ensures this != rhs ==>
        && repr == rhs.repr == Ptr(old(rhs.repr))
        && Released(old(repr), old(allocator.live), old(allocator.broken))
    {
      if rhs != this {
        var tmp := new StringPtr.Copy(rhs);
        Swap(tmp);
        tmp.Destroy();
      }
    }

    method MoveAssign(rhs: StringPtr)
      requires allocator == rhs.allocator
      modifies this`repr, rhs`repr, allocator
      ensures this == rhs ==>
        && repr == old(repr) && allocator.live == old(allocator.live)
        && allocator.broken == old(allocator.broken)
      ensures this != rhs ==>
        && repr == old(rhs.repr) && rhs.repr == 0
        && Released(old(repr), old(allocator.live), old(allocator.broken))
    {
      if rhs != this {
        var tmp := new StringPtr.Move(rhs);
        Swap(tmp);
        tmp.Destroy();
      }
    }

    /** The allocator after the end of a handle that said `repr`. */
    ghost predicate Released(repr: nat, live: set<nat>, broken: bool)
      reads allocator
    {
      var w := Release(World(map[], live, broken), repr);
      allocator.live == w.live && allocator.broken == w.broken
    }
  }

  // Any number of handles, in any order of operations

  /** The handles that exist, by name, and the allocator. */
  datatype World = World(reprs: map<nat, nat>, live: set<nat>, broken: bool)

  datatype Event =
    | Null(id: nat)
    | FromString(id: nat, choice: nat)
    | Copy(id: nat, other: nat)
    | Move(id: nat, other: nat)
    | Assign(id: nat, rhs: nat)
    | MoveAssign(id: nat, rhs: nat)
    | Swap(id: nat, other: nat)
    | Destroy(id: nat)

  function Release(w: World, repr: nat): World {
    if Unique(repr) then w.(live := w.live - {Ptr(repr)}, broken := w.broken || Ptr(repr) !in w.live) else w
  }

  ghost predicate Enabled(w: World, e: Event) {
    match e
    case Null(id) => id !in w.reprs
    case FromString(id, choice) => id !in w.reprs && choice !in w.live && choice != 0 && choice % 2 == 0
    case Copy(id, other) => id !in w.reprs && other in w.reprs
    case Move(id, other) => id !in w.reprs && other in w.reprs
    case Assign(id, rhs) => id in w.reprs && rhs in w.reprs
    case MoveAssign(id, rhs) => id in w.reprs && rhs in w.reprs
    case Swap(id, other) => id in w.reprs && other in w.reprs
    case Destroy(id) => id in w.reprs
  }

  ghost function Apply(w: World, e: Event): World
    requires Enabled(w, e)
  {
    var r := w.reprs;
    match e
    case Null(id) => w.(reprs := r[id := 0])
    case FromString(id, choice) => w.(reprs := r[id := ToRepr(choice, true)], live := w.live + {choice})
    case Copy(id, other) => w.(reprs := r[other := Ptr(r[other])][id := Ptr(r[other])])
    case Move(id, other) => w.(reprs := r[other := 0][id := r[other]])
    case Assign(id, rhs) =>
      if id == rhs then w else Release(w.(reprs := r[rhs := Ptr(r[rhs])][id := Ptr(r[rhs])]), r[id])
    case MoveAssign(id, rhs) =>
      if id == rhs then w else Release(w.(reprs := r[rhs := 0][id := r[rhs]]), r[id])
    case Swap(id, other) => w.(reprs := r[id := r[other]][other := r[id]])
    case Destroy(id) => Release(w.(reprs := r - {id}), r[id])
  }

  /** The handles of a program by their names, all with one allocator. */
  class Handles {
    const allocator: Allocator
    var byName: map<nat, StringPtr>

    ghost predicate Valid()
      reads this
    {
      && (forall id :: id in byName ==> byName[id].allocator == allocator)
      && (forall id, other :: id in byName && other in byName && id != other ==> byName[id] != byName[other])
    }

    ghost function Now(): World
      reads this, allocator, byName.Values
    {
      World(map id | id in byName :: byName[id].repr, allocator.live, allocator.broken)
    }

    constructor ()
      ensures Valid() && Now() == World(map[], {}, false)
      ensures fresh(allocator) && byName == map[]
    {
      allocator := new Allocator();
      byName := map[];
    }

    /** A handle that is made from nothing or a string. */
    method Make(e: Event)
      requires Valid() && Enabled(Now(), e) && (e.Null? || e.FromString?)
      modifies this, allocator
      ensures Valid() && fresh(byName.Values - old(byName.Values))
      ensures Now() == Apply(old(Now()), e)
    {
      hide Ptr, Unique, ToRepr;
      ghost var w := Now();
      var handle: StringPtr;
      if e.Null? {
        handle := new StringPtr.Null(allocator);
      } else {
        handle := new StringPtr.FromString(allocator, false, e.choice);
        FromBits(handle.repr);
      }
      byName := byName[e.id := handle];
      assert Now().reprs == w.reprs[e.id := handle.repr];
    }

    /** A handle that is made from another one. */
    method MakeFrom(id: nat, other: nat, moving: bool)
      requires Valid() && id !in byName && other in byName
      modifies this, byName.Values
      ensures Valid() && fresh(byName.Values - old(byName.Values))
      ensures Now() == Apply(old(Now()), if moving then Event.Move(id, other) else Event.Copy(id, other))
    {
      hide Ptr, Unique;
      ghost var w := Now();
      var handle: StringPtr;
      if moving {
        handle := new StringPtr.Move(byName[other]);
        assert byName[other].repr == 0 && handle.repr == w.reprs[other];
      } else {
        handle := new StringPtr.Copy(byName[other]);
        assert byName[other].repr == handle.repr == Ptr(w.reprs[other]);
      }
      byName := byName[id := handle];
      assert Now().reprs == w.reprs[other := byName[other].repr][id := handle.repr];
    }

    method Assign(id: nat, rhs: nat, moving: bool)
      requires Valid() && id in byName && rhs in byName
      modifies byName.Values, allocator
      ensures Valid() && Now() == Apply(old(Now()), if moving then Event.MoveAssign(id, rhs) else Event.Assign(id, rhs))
    {
      hide Ptr, Unique;
      ghost var w := Now();
      if moving {
        byName[id].MoveAssign(byName[rhs]);
        assert id != rhs ==> Now().reprs == w.reprs[rhs := 0][id := w.reprs[rhs]];
      } else {
        byName[id].Assign(byName[rhs]);
        assert id != rhs ==> Now().reprs == w.reprs[rhs := Ptr(w.reprs[rhs])][id := Ptr(w.reprs[rhs])];
      }
      assert id == rhs ==> Now().reprs == w.reprs;
    }

    method Swap(id: nat, other: nat)
      requires Valid() && id in byName && other in byName
      modifies byName.Values
      ensures Valid() && Now() == Apply(old(Now()), Event.Swap(id, other))
    {
      byName[id].Swap(byName[other]);
      assert Now().reprs == Apply(old(Now()), Event.Swap(id, other)).reprs;
    }

    method Destroy(id: nat)
      requires Valid() && id in byName
      modifies this, allocator
      ensures Valid() && Now() == Apply(old(Now()), Event.Destroy(id)) && byName == old(byName) - {id}
    {
      hide Ptr, Unique;
      byName[id].Destroy();
      byName := byName - {id};
      assert Now().reprs == old(Now()).reprs - {id};
    }

    /** What one event stands for: a constructor, a method, or the destructor. */
    method Do(e: Event)
      requires Valid() && Enabled(Now(), e)
      modifies this, allocator, byName.Values
      ensures Valid() && fresh(byName.Values - old(byName.Values))
      ensures Now() == Apply(old(Now()), e)
    {
      hide Apply;
      match e
      case Null(_) => Make(e);
      case FromString(_, _) => Make(e);
      case Copy(id, other) => MakeFrom(id, other, false);
      case Move(id, other) => MakeFrom(id, other, true);
      case Assign(id, rhs) => Assign(id, rhs, false);
      case MoveAssign(id, rhs) => Assign(id, rhs, true);
      case Swap(id, other) => Swap(id, other);
      case Destroy(id) => Destroy(id);
    }

    /** Whatever a program does with its handles is the run of the events. */
    method Run(es: seq<Event>)
      requires Valid() && Possible(Now(), es) && Sound(Now())
      modifies this, allocator, byName.Values
      ensures Valid() && fresh(byName.Values - old(byName.Values))
      ensures Now() == After(old(Now()), es) && Sound(Now())
    {
      hide Enabled, Apply, Sound;
      RunKeepsSound(Now(), es);
      var i := 0;
      while i < |es|
        invariant i <= |es| && Valid() && fresh(byName.Values - old(byName.Values))
        invariant Possible(Now(), es[i..]) && After(Now(), es[i..]) == After(old(Now()), es)
      {
        assert es[i..][0] == es[i] && es[i..][1..] == es[i + 1..];
        Do(es[i]);
        i := i + 1;
      }
    }
  }

  ghost predicate PointsToLive(w: World, id: nat)
    requires id in w.reprs
  {
    if Ptr(w.reprs[id]) == 0 then !Unique(w.reprs[id]) else Ptr(w.reprs[id]) in w.live
  }

  ghost predicate Alone(w: World, id: nat, other: nat)
    requires id in w.reprs && other in w.reprs
  {
    id != other && Unique(w.reprs[id]) ==> Ptr(w.reprs[id]) != Ptr(w.reprs[other])
  }

  /** No handle dangles, a unique handle is the only one of its buffer, and nothing was freed
      that was not live. */
  ghost predicate Sound(w: World) {
    && !w.broken
    && (forall id :: id in w.reprs ==> PointsToLive(w, id))
    && (forall id, other :: id in w.reprs && other in w.reprs ==> Alone(w, id, other))
  }

  lemma FromBits(repr: nat)
    requires Unique(repr)
    ensures repr == ToRepr(Ptr(repr), true)
  {}

  lemma Bits()
    ensures Ptr(0) == 0 && !Unique(0)
    ensures forall r: nat :: Ptr(Ptr(r)) == Ptr(r) && !Unique(Ptr(r))
    ensures forall a: nat :: a % 2 == 0 ==> Ptr(ToRepr(a, true)) == a && Unique(ToRepr(a, true))
  {}

  /** The end of a handle whose buffer nobody else points to. */
  lemma ReleaseKeepsSound(w: World, repr: nat)
    requires Sound(w)
    requires Unique(repr) ==> Ptr(repr) in w.live && forall id :: id in w.reprs ==> Ptr(w.reprs[id]) != Ptr(repr)
    ensures Sound(Release(w, repr))
  {
    hide Ptr, Unique;
    var t := Release(w, repr);
    forall id | id in t.reprs ensures PointsToLive(t, id) { assert PointsToLive(w, id); }
    forall id, other | id in t.reprs && other in t.reprs ensures Alone(t, id, other) { assert Alone(w, id, other); }
  }

  lemma NewKeepsSound(w: World, e: Event)
    requires Sound(w) && Enabled(w, e) && (e.Null? || e.FromString?)
    ensures Sound(Apply(w, e))
  {
    hide Ptr, Unique, ToRepr;
    Bits();
    var t := Apply(w, e);
    forall id | id in t.reprs ensures PointsToLive(t, id) {
      if id in w.reprs { assert PointsToLive(w, id); }
    }
    forall id, other | id in t.reprs && other in t.reprs ensures Alone(t, id, other) {
      if id in w.reprs { assert PointsToLive(w, id); }
      if other in w.reprs { assert PointsToLive(w, other); }
      if id in w.reprs && other in w.reprs { assert Alone(w, id, other); }
    }
  }

  /** Both names hold the buffer of `other`, and neither is unique. */
  lemma SharedKeepsSound(w: World, id: nat, other: nat)
    requires Sound(w) && other in w.reprs
    ensures Sound(w.(reprs := w.reprs[other := Ptr(w.reprs[other])][id := Ptr(w.reprs[other])]))
  {
    hide Ptr, Unique;
    Bits();
    var t := w.(reprs := w.reprs[other := Ptr(w.reprs[other])][id := Ptr(w.reprs[other])]);
    assert PointsToLive(w, other);
    forall i | i in t.reprs ensures PointsToLive(t, i) {
      if i in w.reprs { assert PointsToLive(w, i); }
    }
    forall i, j | i in t.reprs && j in t.reprs ensures Alone(t, i, j) {
      if i in w.reprs && j in w.reprs { assert Alone(w, i, j); }
      if i in w.reprs { assert Alone(w, i, other); }
    }
  }

  /** The buffer of `other` goes over to id. */
  lemma MovedKeepsSound(w: World, id: nat, other: nat)
    requires Sound(w) && other in w.reprs && id != other
    ensures Sound(w.(reprs := w.reprs[other := 0][id := w.reprs[other]]))
  {
    hide Ptr, Unique;
    Bits();
    var t := w.(reprs := w.reprs[other := 0][id := w.reprs[other]]);
    assert PointsToLive(w, other);
    forall i | i in t.reprs ensures PointsToLive(t, i) {
      if i in w.reprs { assert PointsToLive(w, i); }
    }
    forall i, j | i in t.reprs && j in t.reprs ensures Alone(t, i, j) {
      var x, y := if i == id then other else i, if j == id then other else j;
      assert PointsToLive(w, x) && PointsToLive(w, y) && Alone(w, x, y);
    }
  }

  lemma SwapKeepsSound(w: World, id: nat, other: nat)
    requires Sound(w) && id in w.reprs && other in w.reprs
    ensures Sound(w.(reprs := w.reprs[id := w.reprs[other]][other := w.reprs[id]]))
  {
    hide Ptr, Unique;
    var t := w.(reprs := w.reprs[id := w.reprs[other]][other := w.reprs[id]]);
    forall i | i in t.reprs ensures PointsToLive(t, i) {
      assert PointsToLive(w, if i == id then other else if i == other then id else i);
    }
    forall i, j | i in t.reprs && j in t.reprs ensures Alone(t, i, j) {
      assert Alone(w, if i == id then other else if i == other then id else i,
          if j == id then other else if j == other then id else j);
    }
  }

  lemma WithoutKeepsSound(w: World, id: nat)
    requires Sound(w) && id in w.reprs
    ensures Sound(w.(reprs := w.reprs - {id})) && NobodyElse(w.(reprs := w.reprs - {id}), w.reprs[id])
  {
    hide Ptr, Unique;
    var t := w.(reprs := w.reprs - {id});
    assert PointsToLive(w, id);
    forall i | i in t.reprs ensures PointsToLive(t, i) && (Unique(w.reprs[id]) ==>
      Ptr(t.reprs[i]) != Ptr(w.reprs[id])) {
      assert PointsToLive(w, i) && Alone(w, id, i);
    }
    forall i, j | i in t.reprs && j in t.reprs ensures Alone(t, i, j) { assert Alone(w, i, j); }
  }

  /** If repr is unique, its buffer is live and no handle of w holds it. */
  ghost predicate NobodyElse(w: World, repr: nat) {
    Unique(repr) ==> Ptr(repr) in w.live && forall id :: id in w.reprs ==> Ptr(w.reprs[id]) != Ptr(repr)
  }

  /** Assignments destroy the old handle, and are then constructions. */
  lemma AssignKeepsSound(w: World, id: nat, rhs: nat, t: World)
    requires Sound(w) && id in w.reprs && rhs in w.reprs && id != rhs
    requires t == Apply(w, Assign(id, rhs)) || t == Apply(w, MoveAssign(id, rhs))
    ensures Sound(t)
  {
    hide Sound, Ptr, Unique;
    Bits();
    var v := w.(reprs := w.reprs - {id});
    WithoutKeepsSound(w, id);
    SharedKeepsSound(v, id, rhs);
    MovedKeepsSound(v, id, rhs);
    var shared := v.(reprs := v.reprs[rhs := Ptr(v.reprs[rhs])][id := Ptr(v.reprs[rhs])]);
    var moved := v.(reprs := v.reprs[rhs := 0][id := v.reprs[rhs]]);
    NullIsNobody(w, w.reprs[id]);
    ReleaseKeepsSound(shared, w.reprs[id]);
    ReleaseKeepsSound(moved, w.reprs[id]);
    assert w.reprs[rhs := Ptr(w.reprs[rhs])][id := Ptr(w.reprs[rhs])] == shared.reprs;
    assert w.reprs[rhs := 0][id := w.reprs[rhs]] == moved.reprs;
  }

  lemma NullIsNobody(w: World, repr: nat)
    requires Sound(w) && exists id :: id in w.reprs && w.reprs[id] == repr
    ensures Unique(repr) ==> Ptr(repr) != 0
  {
    var id :| id in w.reprs && w.reprs[id] == repr;
    assert PointsToLive(w, id);
  }

  lemma StepKeepsSound(w: World, e: Event)
    requires Sound(w) && Enabled(w, e)
    ensures Sound(Apply(w, e))
  {
    hide Sound, Ptr, Unique, ToRepr;
    match e
    case Null(_) => NewKeepsSound(w, e);
    case FromString(_, _) => NewKeepsSound(w, e);
    case Copy(id, other) => SharedKeepsSound(w, id, other);
    case Move(id, other) => MovedKeepsSound(w, id, other);
    case Assign(id, rhs) => if id != rhs { AssignKeepsSound(w, id, rhs, Apply(w, e)); }
    case MoveAssign(id, rhs) => if id != rhs { AssignKeepsSound(w, id, rhs, Apply(w, e)); }
    case Swap(id, other) => SwapKeepsSound(w, id, other);
    case Destroy(id) =>
      WithoutKeepsSound(w, id);
      ReleaseKeepsSound(w.(reprs := w.reprs - {id}), w.reprs[id]);
  }

  ghost predicate Possible(w: World, es: seq<Event>)
    decreases |es|
  {
    es == [] || (Enabled(w, es[0]) && Possible(Apply(w, es[0]), es[1..]))
  }

  ghost function After(w: World, es: seq<Event>): World
    requires Possible(w, es)
    decreases |es|
  {
    if es == [] then w else After(Apply(w, es[0]), es[1..])
  }

  lemma {:induction false} RunKeepsSound(w: World, es: seq<Event>)
    requires Sound(w) && Possible(w, es)
    ensures Sound(After(w, es))
    decreases |es|
  {
    hide Sound, Enabled, Apply;
    if es != [] {
      StepKeepsSound(w, es[0]);
      RunKeepsSound(Apply(w, es[0]), es[1..]);
    }
  }

  /** In every run over any number of handles: no double free, no dangling handle, and UNIQUE
      means what it says. */
  lemma EveryRunIsSound(es: seq<Event>)
    requires Possible(World(map[], {}, false), es)
    ensures Sound(After(World(map[], {}, false), es))
  {
    RunKeepsSound(World(map[], {}, false), es);
  }

  /** a is live and no handle is entitled to free it. */
  ghost predicate Orphaned(w: World, a: nat) {
    a in w.live && forall id :: id in w.reprs && Unique(w.reprs[id]) ==> Ptr(w.reprs[id]) != a
  }

  lemma StepKeepsOrphaned(w: World, e: Event, a: nat)
    requires Orphaned(w, a) && Enabled(w, e)
    ensures Orphaned(Apply(w, e), a)
  {
    hide Ptr, Unique, ToRepr;
    Bits();
  }

  /** A buffer that was once copied, or lost its unique handle, is never freed. */
  lemma {:induction false} OnceSharedNeverFreed(w: World, es: seq<Event>, a: nat)
    requires Orphaned(w, a) && Possible(w, es)
    ensures a in After(w, es).live
    decreases |es|
  {
    hide Enabled, Apply, Orphaned;
    if es != [] {
      StepKeepsOrphaned(w, es[0], a);
      OnceSharedNeverFreed(Apply(w, es[0]), es[1..], a);
    } else {
      OrphanedIsLive(w, a);
    }
  }

  lemma OrphanedIsLive(w: World, a: nat)
    requires Orphaned(w, a)
    ensures a in w.live
  {}
}
