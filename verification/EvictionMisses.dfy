/** A batch eviction that falls short because the scan lists an object that is on disk only. */
module EvictionMisses {
  import opened HeapModel
  import opened ObjectMetadata
  import opened Eviction
  import opened EvictionCounts
  import opened EvictionSpec
  import opened EvictionTheorems

  // ---- empty shards

  /** The shards that hold something. */
  function Filled(view: seq<Shard>): seq<Shard>
    decreases |view|
  {
    if view == [] then []
    else
      var n := |view| - 1;
      Filled(view[..n]) + if view[n] == [] then [] else [view[n]]
  }

  lemma FirstOfEmpty(now: nat, ideal: int, allow: bool)
    ensures FirstShard([], now, ideal, allow) == ShardResult([], 0, [], [])
  {
    FirstShardIs([], now, ideal, allow);
  }

  /** The same but for empty shards. */
  ghost predicate Alike(t: Tally, u: Tally) {
    && t.objects == u.objects && t.evicted == u.evicted && t.noPin == u.noPin && t.softPin == u.softPin
    && Flat(t.view) == Flat(u.view)
  }

  lemma AlikeNext(t: Tally, u: Tally, s: Shard, now: nat, quota: (nat, nat) -> int, allow: bool)
    requires Alike(t, u)
    ensures Alike(FirstNext(t, s, now, quota, allow), FirstNext(u, s, now, quota, allow))
    ensures s == [] ==> Alike(FirstNext(t, s, now, quota, allow), u)
  {
    var r := FirstShard(s, now, quota(t.objects + |s|, t.evicted), allow);
    FlatSnoc(t.view, r.shard);
    FlatSnoc(u.view, r.shard);
    if s == [] {
      FirstOfEmpty(now, quota(t.objects + |s|, t.evicted), allow);
      assert t.noPin + [] == t.noPin && t.softPin + [] == t.softPin && Flat(t.view) + [] == Flat(t.view);
    }
  }

  lemma {:induction false} FirstFilled(view: seq<Shard>, now: nat, quota: (nat, nat) -> int, allow: bool)
    ensures Alike(First(view, now, quota, allow), First(Filled(view), now, quota, allow)) && Flat(Filled(view)) == Flat(view)
    decreases |view|
  {
    if view != [] {
      var head, s := view[..|view| - 1], view[|view| - 1];
      FirstFilled(head, now, quota, allow);
      AlikeNext(First(head, now, quota, allow), First(Filled(head), now, quota, allow), s, now, quota, allow);
      assert view == head + [s] && (Filled(head) + [s])[..|Filled(head)|] == Filled(head);
      FlatSnoc(head, s);
      FlatSnoc(Filled(head), s);
      if s == [] { assert Filled(view) == Filled(head); }
    }
  }

  lemma SecondAlike(t: Tally, u: Tally, wanted: int, now: nat)
    requires Alike(t, u)
    ensures Second(t, wanted, now).evicted == Second(u, wanted, now).evicted
  {
    assert Limit(t, wanted) == Limit(u, wanted);
  }

  /** Empty shards do not change what an eviction counts. */
  lemma EvictFilled(view: seq<Shard>, now: nat, quota: (nat, nat) -> int, wanted: int, allow: bool)
    ensures Evict(view, now, quota, wanted, allow).evicted == Evict(Filled(view), now, quota, wanted, allow).evicted
    ensures Goal(view, now, quota, wanted, allow) == Goal(Filled(view), now, quota, wanted, allow)
    ensures |Flat(Filled(view))| == |Flat(view)|
  {
    FirstFilled(view, now, quota, allow);
    SecondAlike(First(view, now, quota, allow), First(Filled(view), now, quota, allow), wanted, now);
  }

  // ---- objects of a master with disk replicas

  /** An object with all its replicas complete: on disk, and in memory unless it was evicted before. */
  function Object(key: string, inMemory: bool, lease: nat): Entry {
    var disk := Replica(1, DISK, COMPLETE);
    Entry(key, Metadata(if inMemory then [Replica(0, MEMORY, COMPLETE), disk] else [disk], 1, lease, None))
  }

  lemma WithoutMemory(a: Replica, b: Replica)
    requires a.kind == MEMORY && b.kind == DISK
    ensures Without([a, b], MEMORY) == [b]
  {
    assert [a, b][1..] == [b] && [b][1..] == [];
    assert Without([b], MEMORY) == [b];
  }

  lemma ObjectPicks(key: string, inMemory: bool, lease: nat, f: Filter)
    ensures var m := Object(key, inMemory, lease).meta;
            Picks(f, m) == (match f
                            case Unpinned(now) => inMemory && lease <= now
                            case Pinned(_) => false
                            case AnyPin(now) => inMemory && lease <= now
                            case Listed(now) => lease <= now
                            case ListedPinned(_) => false
                            case DiskListed(now) => !inMemory && lease <= now
                            case DiskPinned(_) => false
                            case FirstPass(now, t) => inMemory && lease <= now && lease <= t
                            case FirstPassLater(now, t) => inMemory && t < lease <= now
                            case SecondPassA(now, t) => inMemory && lease <= t
                            case SecondPassB(now, t) => inMemory && lease <= now)
    ensures Evicted(Object(key, true, lease)) == [Object(key, false, lease)]
  {
    var m := Object(key, inMemory, lease).meta;
    assert m.replicas[0].kind == if inMemory then MEMORY else DISK;
    var rs := Object(key, true, lease).meta.replicas;
    WithoutMemory(rs[0], rs[1]);
  }

  /** Timeouts of a pair of objects. */
  lemma PairLeases(a: Entry, b: Entry, f: Filter)
    ensures Leases([a, b], f) ==
            (if Picks(f, a.meta) then [a.meta.lease] else []) + (if Picks(f, b.meta) then [b.meta.lease] else [])
  {
    assert [a, b] == [a] + [b];
    LeasesAppend([a], [b], f);
  }

  lemma NthOfPair(x: nat, y: nat)
    requires x <= y
    ensures Nth([x, y], 1) == x
  {
    assert [x, y] == [x] + [y];
    CountsAppend([x], [y], x);
    assert IsNth([x, y], 1, x);
    NthUnique([x, y], 1, x, Nth([x, y], 1));
  }

  // ---- the shards

  /** Two tied objects. */
  function Tied(keys: seq<string>): Shard
    requires |keys| == 6
  {
    [Object(keys[0], true, 0), Object(keys[1], true, 0)]
  }

  /** An object on disk only before one in memory. */
  function Strayed(keys: seq<string>): Shard
    requires |keys| == 6
  {
    [Object(keys[2], false, 0), Object(keys[3], true, 5)]
  }

  /** Two objects whose leases last until 9. */
  function Leased(keys: seq<string>): Shard
    requires |keys| == 6
  {
    [Object(keys[4], true, 9), Object(keys[5], true, 9)]
  }

  function Mixed(keys: seq<string>): seq<Shard>
    requires |keys| == 6
  {
    [Tied(keys), Strayed(keys), Leased(keys)]
  }

  /** What is left of the tied objects. */
  function Gone(keys: seq<string>): Shard
    requires |keys| == 6
  {
    [Object(keys[0], false, 0), Object(keys[1], false, 0)]
  }

  lemma TiedSweep(keys: seq<string>, now: nat)
    requires |keys| == 6
    ensures Sweep(Tied(keys), FirstPass(now, 0), 2) == Gone(keys)
  {
    var a, b, f := Tied(keys)[0], Tied(keys)[1], FirstPass(now, 0);
    ObjectPicks(keys[0], true, 0, f);
    ObjectPicks(keys[1], true, 0, f);
    assert Tied(keys)[1..] == [b] && [b][1..] == [];
    assert Sweep([b], f, 1) == [Object(keys[1], false, 0)];
  }

  lemma TiedLeases(keys: seq<string>, f: Filter)
    requires |keys| == 6
    ensures f.Listed? || (f.FirstPass? && f.target == 0) || f.Unpinned? || f.AnyPin? ==> Leases(Tied(keys), f) == [0, 0]
    ensures f.ListedPinned? || f.FirstPassLater? ==> Leases(Tied(keys), f) == []
    ensures f.SecondPassA? ==> Leases(Gone(keys), f) == []
  {
    ObjectPicks(keys[0], true, 0, f);
    ObjectPicks(keys[1], true, 0, f);
    ObjectPicks(keys[0], false, 0, f);
    ObjectPicks(keys[1], false, 0, f);
    PairLeases(Tied(keys)[0], Tied(keys)[1], f);
    PairLeases(Gone(keys)[0], Gone(keys)[1], f);
  }

  lemma StrayedLeases(keys: seq<string>, f: Filter)
    requires |keys| == 6 && f.now >= 5
    ensures f.Listed? ==> Leases(Strayed(keys), f) == [0, 5]
    ensures f.ListedPinned? || (f.SecondPassA? && f.target == 0) ==> Leases(Strayed(keys), f) == []
    ensures f.Unpinned? || f.AnyPin? ==> Leases(Strayed(keys), f) == [5]
  {
    ObjectPicks(keys[2], false, 0, f);
    ObjectPicks(keys[3], true, 5, f);
    PairLeases(Strayed(keys)[0], Strayed(keys)[1], f);
  }

  lemma LeasedLeases(keys: seq<string>, f: Filter)
    requires |keys| == 6 && f.now < 9 && (f.SecondPassA? ==> f.target < 9)
    ensures Leases(Leased(keys), f) == []
  {
    ObjectPicks(keys[4], true, 9, f);
    ObjectPicks(keys[5], true, 9, f);
    PairLeases(Leased(keys)[0], Leased(keys)[1], f);
  }

  /** Two tied objects go in a shard whose quota is one. */
  lemma FirstOfTied(keys: seq<string>, now: nat, allow: bool)
    requires |keys| == 6
    ensures FirstShard(Tied(keys), now, 1, allow) == ShardResult(Gone(keys), 2, [], [])
  {
    FirstShardIs(Tied(keys), now, 1, allow);
    NthOfPair(0, 0);
    TiedSweep(keys, now);
    TiedLeases(keys, Listed(now));
    TiedLeases(keys, ListedPinned(now));
    TiedLeases(keys, FirstPass(now, 0));
    TiedLeases(keys, FirstPassLater(now, 0));
  }

  /** A shard without a quota lists its objects, the one on disk only among them. */
  lemma FirstOfStrayed(keys: seq<string>, now: nat, allow: bool)
    requires |keys| == 6 && now >= 5
    ensures FirstShard(Strayed(keys), now, 0, allow) == ShardResult(Strayed(keys), 0, [0, 5], [])
  {
    FirstShardIs(Strayed(keys), now, 0, allow);
    StrayedLeases(keys, Listed(now));
    StrayedLeases(keys, ListedPinned(now));
  }

  /** A shard whose objects are all leased lists nothing. */
  lemma FirstOfLeased(keys: seq<string>, now: nat, ideal: int, allow: bool)
    requires |keys| == 6 && now < 9
    ensures FirstShard(Leased(keys), now, ideal, allow) == ShardResult(Leased(keys), 0, [], [])
  {
    FirstShardIs(Leased(keys), now, ideal, allow);
    LeasedLeases(keys, Listed(now));
    LeasedLeases(keys, ListedPinned(now));
  }

  lemma FirstOfMixed(keys: seq<string>, now: nat, quota: (nat, nat) -> int, allow: bool)
    requires |keys| == 6 && 5 <= now < 9 && quota(2, 0) == 1 && quota(4, 2) == 0
    ensures First(Mixed(keys), now, quota, allow) == Tally([Gone(keys), Strayed(keys), Leased(keys)], 6, 2, [0, 5], [])
  {
    var v := Mixed(keys);
    FirstOfTied(keys, now, allow);
    FirstOfStrayed(keys, now, allow);
    FirstOfLeased(keys, now, quota(6, 2), allow);
    assert First([], now, quota, allow) == Tally([], 0, 0, [], []);
    assert v[..1][..0] == [] && v[..2][..1] == v[..1] && v[..3] == v && v[..2][1] == v[1] && v[..1][0] == v[0];
    assert First(v[..1], now, quota, allow) == Tally([Gone(keys)], 2, 2, [], []);
    assert First(v[..2], now, quota, allow) == Tally([Gone(keys), v[1]], 4, 2, [0, 5], []);
  }

  lemma CountThree(a: Shard, b: Shard, c: Shard, f: Filter)
    ensures Count([a, b, c], f) == |Leases(a, f)| + |Leases(b, f)| + |Leases(c, f)|
  {
    CountSnoc([a, b], c, f);
    CountSnoc([a], b, f);
    assert [a, b, c] == [a, b] + [c] && [a, b] == [a] + [b];
    FlatOne(a);
  }

  lemma MixedGoal(keys: seq<string>, now: nat, quota: (nat, nat) -> int, allow: bool)
    requires |keys| == 6 && 5 <= now < 9 && quota(2, 0) == 1 && quota(4, 2) == 0
    ensures Goal(Mixed(keys), now, quota, 3, allow) == 3
  {
    var g := Evictable(now, allow);
    FirstOfMixed(keys, now, quota, allow);
    CountThree(Tied(keys), Strayed(keys), Leased(keys), g);
    TiedLeases(keys, g);
    StrayedLeases(keys, g);
    LeasedLeases(keys, g);
  }

  lemma MixedEvict(keys: seq<string>, now: nat, quota: (nat, nat) -> int, allow: bool)
    requires |keys| == 6 && 5 <= now < 9 && quota(2, 0) == 1 && quota(4, 2) == 0
    ensures Evict(Mixed(keys), now, quota, 3, allow).evicted == 2
  {
    var f := SecondPassA(now, 0);
    FirstOfMixed(keys, now, quota, allow);
    NthOfPair(0, 5);
    CountThree(Gone(keys), Strayed(keys), Leased(keys), f);
    TiedLeases(keys, f);
    StrayedLeases(keys, f);
    LeasedLeases(keys, f);
  }

  lemma FlatThree(a: Shard, b: Shard, c: Shard)
    ensures Flat([a, b, c]) == a + b + c
  {
    FlatSnoc([a, b], c);
    FlatSnoc([a], b);
    assert [a, b, c] == [a, b] + [c] && [a, b] == [a] + [b];
    FlatOne(a);
  }

  /** Half of the objects, with two, four and six of them seen. */
  lemma Halves()
    ensures Ideal(0.5)(2, 0) == 1 && Ideal(0.5)(4, 2) == 0 && Wanted(6, 0.5, 0.5) == 3
  {
  }

  /**
    Half of six objects should go and three could, but only two do: for all keys,
    with the three pairs in any three shards, and any number of empty shards.
  */
  lemma DiskOnlyMisses(view: seq<Shard>, keys: seq<string>, now: nat, allow: bool)
    requires |keys| == 6 && Filled(view) == Mixed(keys) && 5 <= now < 9
    ensures var wanted := Wanted(|Flat(view)|, 0.5, 0.5);
            && Goal(view, now, Ideal(0.5), wanted, allow) == 3
            && Evict(view, now, Ideal(0.5), wanted, allow).evicted == 2
  {
    Halves();
    FlatThree(Tied(keys), Strayed(keys), Leased(keys));
    EvictFilled(view, now, Ideal(0.5), 3, allow);
    MixedGoal(keys, now, Ideal(0.5), allow);
    MixedEvict(keys, now, Ideal(0.5), allow);
    assert |Flat(view)| == 6;
  }
}
