/**
  Unmounting segments against concurrent puts: the segment mutex and the shard
  mutexes delimit atomic steps, everything else interleaves freely. A handle is
  taken to be invalid from the moment the prepare phase drops its allocator.
*/
module UnmountProtocol {
  type Key = string

  /** The allocator instances that the buffers of one replica come from; empty for a disk replica. */
  type Handles = set<nat>

  datatype Mounted = Ok(allocator: nat) | Unmounting(allocator: nat)

  /** A PutStart that holds the lock of its key's shard; `absent` tells what its check found. */
  datatype Putter = Checked(key: Key, absent: bool) | Allocated(key: Key, absent: bool, replicas: seq<Handles>)

  /** An unmounting thread: its prepared segments, and how many shards it has cleared. */
  datatype Unmounter = Unmounter(targets: map<nat, nat>, cleared: nat)

  datatype State = State(
    mounted: map<nat, Mounted>,
    live: set<nat>,
    used: set<nat>,
    gone: set<nat>,
    objects: map<Key, seq<Handles>>,
    putters: map<nat, Putter>,
    unmounters: map<nat, Unmounter>)

  /** The shards and the hash that spreads the keys over them. */
  datatype Layout = Layout(shards: nat, hash: Key -> nat)

  datatype Event =
    | MountSegment(segment: nat, allocator: nat)
    | PutCheck(key: Key)
    | PutAllocate(key: Key, replicas: seq<Handles>)
    | PutFail(key: Key)
    | PutInsert(key: Key)
    | Access(key: Key)
    | Shrink(key: Key, replicas: seq<Handles>)
    | UnmountBegin(thread: nat)
    | Prepare(thread: nat, segment: nat)
    | ClearShard(thread: nat)
    | Commit(thread: nat, segment: nat)

  function ShardOf(l: Layout, k: Key): (i: nat)
    requires l.shards > 0
    ensures i < l.shards
  {
    l.hash(k) % l.shards
  }

  // ---- stale handles

  /** The replicas all of whose handles are valid. */
  function Cleaned(rs: seq<Handles>, live: set<nat>): (r: seq<Handles>)
    ensures forall h :: h in r <==> h in rs && h <= live
  {
    if rs == [] then [] else
      assert rs == [rs[0]] + rs[1..];
      (if rs[0] <= live then [rs[0]] else []) + Cleaned(rs[1..], live)
  }

  /** CleanupStaleHandles on one entry, which disappears if it has no valid replica. */
  function CleanKey(objects: map<Key, seq<Handles>>, k: Key, live: set<nat>): map<Key, seq<Handles>> {
    if k !in objects then objects
    else if Cleaned(objects[k], live) == [] then objects - {k}
    else objects[k := Cleaned(objects[k], live)]
  }

  /** ClearInvalidHandles on one shard. */
  function ClearedShard(l: Layout, objects: map<Key, seq<Handles>>, shard: nat, live: set<nat>): map<Key, seq<Handles>>
    requires l.shards > 0
  {
    map k | k in objects && (ShardOf(l, k) == shard ==> Cleaned(objects[k], live) != []) ::
      if ShardOf(l, k) == shard then Cleaned(objects[k], live) else objects[k]
  }

  // ---- steps

  predicate Unlocked(l: Layout, s: State, k: Key)
    requires l.shards > 0
  {
    ShardOf(l, k) !in s.putters
  }

  predicate Holds(l: Layout, s: State, k: Key)
    requires l.shards > 0
  {
    var i := ShardOf(l, k);
    i in s.putters && s.putters[i].key == k
  }

  predicate Enabled(l: Layout, s: State, e: Event)
    requires l.shards > 0
  {
    match e
    case MountSegment(seg, a) => seg !in s.mounted && a !in s.used
    case PutCheck(k) => k != "" && Unlocked(l, s, k) && (k in s.objects ==> Cleaned(s.objects[k], s.live) == [])
    case PutAllocate(k, rs) =>
      Holds(l, s, k) && s.putters[ShardOf(l, k)].Checked? && rs != [] && forall h :: h in rs ==> h <= s.live
    case PutFail(k) => Holds(l, s, k) && s.putters[ShardOf(l, k)].Checked?
    case PutInsert(k) => Holds(l, s, k) && s.putters[ShardOf(l, k)].Allocated?
    case Access(k) => Unlocked(l, s, k)
    case Shrink(k, rs) => Unlocked(l, s, k) && k in s.objects && forall h :: h in rs ==> h in s.objects[k]
    case UnmountBegin(t) => t !in s.unmounters
    case Prepare(t, seg) => t in s.unmounters && s.unmounters[t].cleared == 0 && seg in s.mounted && s.mounted[seg].Ok?
    case ClearShard(t) =>
      t in s.unmounters && s.unmounters[t].cleared < l.shards && s.unmounters[t].cleared !in s.putters
    case Commit(t, seg) => t in s.unmounters && s.unmounters[t].cleared == l.shards && seg in s.unmounters[t].targets
  }

  function Inserted(s: State, p: Putter): map<Key, seq<Handles>>
    requires p.Allocated?
  {
    if p.key in s.objects then s.objects else s.objects[p.key := p.replicas]
  }

  function Apply(l: Layout, s: State, e: Event): State
    requires l.shards > 0 && Enabled(l, s, e)
  {
    match e
    case MountSegment(seg, a) =>
      s.(mounted := s.mounted[seg := Ok(a)], live := s.live + {a}, used := s.used + {a})
    case PutCheck(k) =>
      s.(objects := if k in s.objects then s.objects[k := []] else s.objects,
         putters := s.putters[ShardOf(l, k) := Checked(k, k !in s.objects)])
    case PutAllocate(k, rs) =>
      s.(putters := s.putters[ShardOf(l, k) := Allocated(k, s.putters[ShardOf(l, k)].absent, rs)])
    case PutFail(k) => s.(putters := s.putters - {ShardOf(l, k)})
    case PutInsert(k) =>
      s.(objects := Inserted(s, s.putters[ShardOf(l, k)]), putters := s.putters - {ShardOf(l, k)})
    case Access(k) => s.(objects := CleanKey(s.objects, k, s.live))
    case Shrink(k, rs) => s.(objects := if rs == [] then s.objects - {k} else s.objects[k := rs])
    case UnmountBegin(t) => s.(unmounters := s.unmounters[t := Unmounter(map[], 0)])
    case Prepare(t, seg) =>
      var a := s.mounted[seg].allocator;
      s.(mounted := s.mounted[seg := Unmounting(a)], live := s.live - {a},
         unmounters := s.unmounters[t := Unmounter(s.unmounters[t].targets[seg := a], 0)])
    case ClearShard(t) =>
      var c := s.unmounters[t].cleared;
      s.(objects := ClearedShard(l, s.objects, c, s.live),
         unmounters := s.unmounters[t := Unmounter(s.unmounters[t].targets, c + 1)])
    case Commit(t, seg) =>
      s.(mounted := s.mounted - {seg}, gone := s.gone + {s.unmounters[t].targets[seg]},
         unmounters := s.unmounters[t := Unmounter(s.unmounters[t].targets - {seg}, l.shards)])
  }

  // ---- what unmounting achieves

  ghost predicate Free(rs: seq<Handles>, a: nat) {
    forall h :: h in rs ==> a !in h
  }

  /** Nothing in the first c shards, stored or about to be stored, holds a handle into a. */
  ghost predicate Away(l: Layout, s: State, a: nat, c: nat)
    requires l.shards > 0
  {
    && (forall k :: k in s.objects && ShardOf(l, k) < c ==> Free(s.objects[k], a))
    && (forall i :: i in s.putters && i < c && s.putters[i].Allocated? ==> Free(s.putters[i].replicas, a))
  }

  /** A put works on a key of the shard it has locked, and finds it as its check left it. */
  ghost predicate PutterOk(l: Layout, s: State, i: nat)
    requires l.shards > 0 && i in s.putters
  {
    var p := s.putters[i];
    && ShardOf(l, p.key) == i && (p.Allocated? ==> p.replicas != [])
    && (if p.absent then p.key !in s.objects else p.key in s.objects && s.objects[p.key] == [])
  }

  /** Exactly the allocators of mounted segments with status OK can be allocated from. */
  ghost predicate SegmentInv(s: State) {
    && s.live <= s.used && s.gone <= s.used && s.gone !! s.live
    && (forall x :: x in s.mounted ==> s.mounted[x].allocator in s.used && (s.mounted[x].Ok? <==> s.mounted[x].allocator in s.live))
    && (forall x :: x in s.mounted ==> s.mounted[x].allocator !in s.gone)
    && (forall x, y :: x in s.mounted && y in s.mounted && s.mounted[x].allocator == s.mounted[y].allocator ==> x == y)
    && (forall a :: a in s.live ==> exists x :: x in s.mounted && s.mounted[x] == Ok(a))
  }

  ghost predicate Targets(s: State, t: nat, x: nat) {
    t in s.unmounters && x in s.unmounters[t].targets
  }

  /** A segment being unmounted belongs to one thread. */
  ghost predicate TargetInv(s: State) {
    && (forall t, x :: Targets(s, t, x) ==> x in s.mounted && s.mounted[x] == Unmounting(s.unmounters[t].targets[x]))
    && (forall t, u, x :: Targets(s, t, x) && Targets(s, u, x) ==> t == u)
  }

  ghost predicate HandleInv(l: Layout, s: State)
    requires l.shards > 0
  {
    && (forall i :: i in s.putters ==> i < l.shards && PutterOk(l, s, i))
    && (forall t, x :: Targets(s, t, x) ==> Away(l, s, s.unmounters[t].targets[x], s.unmounters[t].cleared))
    && (forall a :: a in s.gone ==> Away(l, s, a, l.shards))
  }

  ghost predicate Inv(l: Layout, s: State)
    requires l.shards > 0
  {
    SegmentInv(s) && TargetInv(s) && HandleInv(l, s)
  }

  lemma MountInv(l: Layout, s: State, e: Event)
    requires l.shards > 0 && SegmentInv(s) && Enabled(l, s, e) && e.MountSegment?
    ensures SegmentInv(Apply(l, s, e))
  {
    var s' := Apply(l, s, e);
    forall a | a in s'.live ensures exists x :: x in s'.mounted && s'.mounted[x] == Ok(a) {
      var x :| if a == e.allocator then x == e.segment else x in s.mounted && s.mounted[x] == Ok(a);
      assert s'.mounted[x] == Ok(a);
    }
  }

  lemma UnmountInv(l: Layout, s: State, e: Event)
    requires l.shards > 0 && SegmentInv(s) && TargetInv(s) && Enabled(l, s, e) && (e.Prepare? || e.Commit?)
    ensures SegmentInv(Apply(l, s, e))
  {
    var s' := Apply(l, s, e);
    assert e.Commit? ==> Targets(s, e.thread, e.segment);
    forall a | a in s'.live ensures exists x :: x in s'.mounted && s'.mounted[x] == Ok(a) {
      var x :| x in s.mounted && s.mounted[x] == Ok(a);
      assert x in s'.mounted && s'.mounted[x] == Ok(a);
    }
  }

  lemma SegmentStep(l: Layout, s: State, e: Event)
    requires l.shards > 0 && SegmentInv(s) && TargetInv(s) && Enabled(l, s, e)
    ensures SegmentInv(Apply(l, s, e))
  {
    if e.MountSegment? { MountInv(l, s, e); }
    else if e.Prepare? || e.Commit? { UnmountInv(l, s, e); }
  }

  lemma TargetStep(l: Layout, s: State, e: Event)
    requires l.shards > 0 && TargetInv(s) && Enabled(l, s, e)
    ensures TargetInv(Apply(l, s, e))
  {
    var s' := Apply(l, s, e);
    assert e.Commit? ==> Targets(s, e.thread, e.segment);
    forall t, x | Targets(s', t, x)
      ensures Targets(s, t, x) || (e.Prepare? && e.thread == t && e.segment == x)
      ensures x in s'.mounted && s'.mounted[x] == Unmounting(s'.unmounters[t].targets[x])
    {
    }
  }

  /** No step brings back a handle into an allocator that is gone from the live ones. */
  lemma AwayStep(l: Layout, s: State, e: Event, a: nat, c: nat)
    requires l.shards > 0 && Enabled(l, s, e) && Away(l, s, a, c) && a !in s.live
    requires forall i :: i in s.putters ==> PutterOk(l, s, i)
    ensures Away(l, Apply(l, s, e), a, c)
  {
  }

  /** Clearing one more shard leaves no stale handle there, since no put can be under way in it. */
  lemma ClearStep(l: Layout, s: State, e: Event, a: nat, c: nat)
    requires l.shards > 0 && e.ClearShard? && Enabled(l, s, e) && c == s.unmounters[e.thread].cleared
    requires Away(l, s, a, c) && a !in s.live
    ensures Away(l, Apply(l, s, e), a, c + 1)
  {
  }

  lemma PutterStep(l: Layout, s: State, e: Event)
    requires l.shards > 0 && Enabled(l, s, e) && forall i :: i in s.putters ==> i < l.shards && PutterOk(l, s, i)
    ensures var s' := Apply(l, s, e); forall i :: i in s'.putters ==> i < l.shards && PutterOk(l, s', i)
  {
    var s' := Apply(l, s, e);
    forall i | i in s'.putters ensures i < l.shards && PutterOk(l, s', i) {
      if i in s.putters { assert PutterOk(l, s, i); }
    }
  }

  lemma HandleStep(l: Layout, s: State, e: Event)
    requires l.shards > 0 && Inv(l, s) && Enabled(l, s, e)
    ensures HandleInv(l, Apply(l, s, e))
  {
    var s' := Apply(l, s, e);
    PutterStep(l, s, e);
    forall t, x | Targets(s', t, x) ensures Away(l, s', s'.unmounters[t].targets[x], s'.unmounters[t].cleared) {
      if !Targets(s, t, x) {
        assert s'.unmounters[t].cleared == 0;
      } else {
        var a, c := s.unmounters[t].targets[x], s.unmounters[t].cleared;
        assert Away(l, s, a, c) && s.mounted[x] == Unmounting(a);
        AwayStep(l, s, e, a, c);
        if e.ClearShard? && e.thread == t { ClearStep(l, s, e, a, c); }
      }
    }
    forall a | a in s'.gone ensures Away(l, s', a, l.shards) {
      if a !in s.gone {
        assert Targets(s, e.thread, e.segment);
        assert s.mounted[e.segment] == Unmounting(a);
      }
      AwayStep(l, s, e, a, l.shards);
    }
  }

  // ---- runs

  predicate Initial(s: State) {
    && s.mounted == map[] && s.live == {} && s.used == {} && s.gone == {} && s.objects == map[]
    && s.putters == map[] && s.unmounters == map[]
  }

  ghost predicate Run(l: Layout, s: State, es: seq<Event>, s': State)
    requires l.shards > 0
    decreases |es|
  {
    if es == [] then s' == s
    else Enabled(l, s, es[0]) && Run(l, Apply(l, s, es[0]), es[1..], s')
  }

  lemma {:induction false} RunInv(l: Layout, s: State, es: seq<Event>, s': State)
    requires l.shards > 0 && Inv(l, s) && Run(l, s, es, s')
    ensures Inv(l, s') && s.gone <= s'.gone
    decreases |es|
  {
    if es != [] {
      SegmentStep(l, s, es[0]);
      TargetStep(l, s, es[0]);
      HandleStep(l, s, es[0]);
      RunInv(l, Apply(l, s, es[0]), es[1..], s');
    }
  }

  /**
    Once an unmount of a segment has committed, no stored object ever again holds
    a handle into it, whatever puts were under way, and no put is about to store one.
  */
  lemma CommittedHasNoHandles(l: Layout, s0: State, before: seq<Event>, s: State, t: nat, x: nat, after: seq<Event>, s': State)
    requires l.shards > 0 && Initial(s0) && Run(l, s0, before, s)
    requires Enabled(l, s, Commit(t, x)) && Run(l, Apply(l, s, Commit(t, x)), after, s')
    ensures var a := s.unmounters[t].targets[x];
            && (forall k :: k in s'.objects ==> Free(s'.objects[k], a))
            && (forall i :: i in s'.putters && s'.putters[i].Allocated? ==> Free(s'.putters[i].replicas, a))
            && a !in s'.live
    ensures x !in Apply(l, s, Commit(t, x)).mounted
  {
    RunInv(l, s0, before, s);
    var e, a := Commit(t, x), s.unmounters[t].targets[x];
    SegmentStep(l, s, e);
    TargetStep(l, s, e);
    HandleStep(l, s, e);
    RunInv(l, Apply(l, s, e), after, s');
    assert a in s'.gone && Away(l, s', a, l.shards);
  }

  /**
    The replicas PutStart returns are stored if and only if its check found no
    entry under the key. An entry with stale replicas only is emptied and kept.
  */
  lemma PutStores(l: Layout, s0: State, es: seq<Event>, s: State, k: Key)
    requires l.shards > 0 && Initial(s0) && Run(l, s0, es, s) && Enabled(l, s, PutInsert(k))
    ensures var p, objects := s.putters[ShardOf(l, k)], Apply(l, s, PutInsert(k)).objects;
            && k in objects && (objects[k] == p.replicas <==> p.absent) && objects - {k} == s.objects - {k}
            && (!p.absent ==> objects[k] == [])
  {
    RunInv(l, s0, es, s);
    assert PutterOk(l, s, ShardOf(l, k));
  }

  lemma {:induction false} RunSnoc(l: Layout, s0: State, es: seq<Event>, s: State, e: Event)
    requires l.shards > 0 && Run(l, s0, es, s) && Enabled(l, s, e)
    ensures Run(l, s0, es + [e], Apply(l, s, e))
    decreases |es|
  {
    if es == [] {
      assert Run(l, Apply(l, s, e), [], Apply(l, s, e));
    } else {
      assert (es + [e])[1..] == es[1..] + [e];
      RunSnoc(l, Apply(l, s0, es[0]), es[1..], s, e);
    }
  }

  /** A whole put of one replica in an idle system. */
  lemma PutOne(l: Layout, s0: State, es: seq<Event>, s: State, k: Key, a: nat) returns (es': seq<Event>, s': State)
    requires l.shards > 0 && k != "" && Run(l, s0, es, s) && s.putters == map[] && a in s.live
    requires k in s.objects ==> Cleaned(s.objects[k], s.live) == []
    ensures |es'| >= 3 && es'[|es'| - 1] == PutInsert(k) && es'[|es'| - 2] == PutAllocate(k, [{a}])
    ensures Run(l, s0, es', s') && s' == s.(objects := s.objects[k := if k in s.objects then [] else [{a}]])
  {
    RunSnoc(l, s0, es, s, PutCheck(k));
    es', s' := es + [PutCheck(k)], Apply(l, s, PutCheck(k));
    RunSnoc(l, s0, es', s', PutAllocate(k, [{a}]));
    es', s' := es' + [PutAllocate(k, [{a}])], Apply(l, s', PutAllocate(k, [{a}]));
    RunSnoc(l, s0, es', s', PutInsert(k));
    es', s' := es' + [PutInsert(k)], Apply(l, s', PutInsert(k));
    assert s'.putters == map[];
  }

  /** Put, lose the segment, put again: the second put succeeds and stores nothing. */
  lemma StaleKeyCounterexample(l: Layout, s0: State, k: Key) returns (es: seq<Event>, s: State)
    requires l.shards > 0 && k != "" && Initial(s0)
    ensures Run(l, s0, es, s) && |es| >= 3 && es[|es| - 1] == PutInsert(k) && es[|es| - 2] == PutAllocate(k, [{1}])
    ensures k in s.objects && s.objects[k] == []
  {
    es, s := [], s0;
    RunSnoc(l, s0, es, s, MountSegment(0, 0));
    es, s := es + [MountSegment(0, 0)], Apply(l, s, MountSegment(0, 0));
    es, s := PutOne(l, s0, es, s, k, 0);
    RunSnoc(l, s0, es, s, UnmountBegin(0));
    es, s := es + [UnmountBegin(0)], Apply(l, s, UnmountBegin(0));
    RunSnoc(l, s0, es, s, Prepare(0, 0));
    es, s := es + [Prepare(0, 0)], Apply(l, s, Prepare(0, 0));
    RunSnoc(l, s0, es, s, MountSegment(1, 1));
    es, s := es + [MountSegment(1, 1)], Apply(l, s, MountSegment(1, 1));
    assert 0 !in s.live;
    es, s := PutOne(l, s0, es, s, k, 1);
  }
}
