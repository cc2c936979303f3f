/**
  What a whole batch eviction does, as a function of the shards in the order
  of its visits: which objects go, in which pass, and how many.
*/
module EvictionSpec {
  import opened HeapModel
  import opened ObjectMetadata
  import opened Eviction
  import opened EvictionCounts

  // ---- arithmetic

  /** std::ceil, over exact reals. */
  function Ceil(x: real): int {
    -((-x).Floor)
  }

  /** How many more of the objects seen so far should go for the target ratio to be met. */
  function Ideal(target: real): (nat, nat) -> int {
    (objectCount: nat, evicted: nat) => Ceil(objectCount as real * target) - evicted
  }

  /** How many objects must go in all: a lower bound above the target is cut back to it. */
  function Wanted(objectCount: nat, target: real, lowerbound: real): int {
    Ceil(objectCount as real * (if target < lowerbound then target else lowerbound))
  }

  // ---- all shards

  /** All entries, shard by shard. */
  function Flat(shards: seq<Shard>): Shard {
    if shards == [] then [] else shards[0] + Flat(shards[1..])
  }

  lemma {:induction false} FlatAppend(a: seq<Shard>, b: seq<Shard>)
    ensures Flat(a + b) == Flat(a) + Flat(b)
  {
    if a == [] {
      assert a + b == b;
    } else {
      assert (a + b)[1..] == a[1..] + b;
      FlatAppend(a[1..], b);
    }
  }

  lemma FlatOne(s: Shard)
    ensures Flat([s]) == s
  {
  }

  lemma FlatSnoc(shards: seq<Shard>, s: Shard)
    ensures Flat(shards + [s]) == Flat(shards) + s
  {
    FlatAppend(shards, [s]);
    FlatOne(s);
  }

  /** How many objects of a class the shards hold. */
  function Count(shards: seq<Shard>, f: Filter): nat {
    |Leases(Flat(shards), f)|
  }

  lemma CountSnoc(shards: seq<Shard>, s: Shard, f: Filter)
    ensures Leases(Flat(shards + [s]), f) == Leases(Flat(shards), f) + Leases(s, f)
  {
    FlatSnoc(shards, s);
    LeasesAppend(Flat(shards), s, f);
  }

  /** Shard by shard, nothing but objects that g picks was evicted. */
  ghost predicate AllOnlyEvict(before: seq<Shard>, after: seq<Shard>, g: Filter) {
    |before| == |after| && forall i :: 0 <= i < |before| ==> OnlyEvicts(before[i], after[i], g)
  }

  /** Every object that is up for eviction holds a memory replica. */
  predicate NoDiskOnly(es: Shard, now: nat) {
    forall e :: e in es && Eligible(e.meta, now) ==> HasMemReplica(e.meta)
  }

  /** What an eviction may take. */
  function Evictable(now: nat, allow: bool): Filter {
    if allow then AnyPin(now) else Unpinned(now)
  }

  // ---- the first pass

  /** What one shard becomes, and the timeouts it hands to the second pass. */
  datatype ShardResult = ShardResult(shard: Shard, evicted: nat, noPin: seq<nat>, softPin: seq<nat>)

  /**
    The first pass over one shard. The candidates are all listed objects, on
    disk only or not; with a quota, the objects in memory up to the timeout of
    the quota-th candidate go.
  */
  ghost function FirstOfShard(es: Shard, now: nat, ideal: int, allow: bool): ShardResult {
    var listed := Leases(es, Listed(now));
    var softPin := if allow then Leases(es, ListedPinned(now)) else [];
    if ideal <= 0 || listed == [] then ShardResult(es, 0, listed, softPin)
    else
      var t := Nth(listed, Min(ideal, |listed|));
      ShardResult(Sweep(es, FirstPass(now, t), |es|), |Leases(es, FirstPass(now, t))|, Leases(es, FirstPassLater(now, t)), softPin)
  }

  ghost predicate IsFirst(es: Shard, now: nat, ideal: int, allow: bool, r: ShardResult) {
    forall k :: Named(k) ==> r == FirstOfShard(es, now, ideal, allow)
  }

  /** FirstOfShard, kept closed. */
  ghost function FirstShard(es: Shard, now: nat, ideal: int, allow: bool): ShardResult {
    assert IsFirst(es, now, ideal, allow, FirstOfShard(es, now, ideal, allow));
    var r :| IsFirst(es, now, ideal, allow, r);
    r
  }

  lemma FirstShardIs(es: Shard, now: nat, ideal: int, allow: bool)
    ensures FirstShard(es, now, ideal, allow) == FirstOfShard(es, now, ideal, allow)
  {
    assert Named(0);
  }

  /** The shards after the first pass and all it counted and listed. */
  datatype Tally = Tally(view: seq<Shard>, objects: nat, evicted: nat, noPin: seq<nat>, softPin: seq<nat>)

  function Added(t: Tally, s: Shard, r: ShardResult): Tally {
    Tally(t.view + [r.shard], t.objects + |s|, t.evicted + r.evicted, t.noPin + r.noPin, t.softPin + r.softPin)
  }

  /** `quota` gives the number of objects a shard should lose, from the objects seen and those evicted so far. */
  ghost function FirstNext(t: Tally, s: Shard, now: nat, quota: (nat, nat) -> int, allow: bool): Tally {
    Added(t, s, FirstShard(s, now, quota(t.objects + |s|, t.evicted), allow))
  }

  ghost function First(view: seq<Shard>, now: nat, quota: (nat, nat) -> int, allow: bool): Tally
    decreases |view|
  {
    if view == [] then Tally([], 0, 0, [], [])
    else FirstNext(First(view[..|view| - 1], now, quota, allow), view[|view| - 1], now, quota, allow)
  }

  // ---- the second pass

  function Left(limit: nat, taken: nat): nat {
    if taken < limit then limit - taken else 0
  }

  /** A second pass: the objects f picks go, in the order of the visits, up to the limit. */
  function SweepAll(view: seq<Shard>, f: Filter, limit: nat): seq<Shard>
    decreases |view|
  {
    if view == [] then []
    else
      var n := |view| - 1;
      SweepAll(view[..n], f, limit) + [Sweep(view[n], f, Left(limit, Count(view[..n], f)))]
  }

  /** How many objects the second pass is to take. */
  ghost function Limit(t: Tally, wanted: int): int {
    Min(wanted - t.evicted, |t.noPin| + |t.softPin|)
  }

  /** Pass A if there are enough unpinned candidates, else pass B; each up to the timeout of its last candidate. */
  ghost function PassFilter(t: Tally, limit: nat, now: nat): Filter
    requires 1 <= limit <= |t.noPin| + |t.softPin|
  {
    if limit <= |t.noPin| then SecondPassA(now, Nth(t.noPin, limit))
    else SecondPassB(now, Nth(t.softPin, limit - |t.noPin|))
  }

  datatype Outcome = Outcome(view: seq<Shard>, evicted: nat)

  ghost function Second(t: Tally, wanted: int, now: nat): Outcome {
    var limit := Limit(t, wanted);
    if limit <= 0 then Outcome(t.view, t.evicted)
    else
      var f := PassFilter(t, limit, now);
      Outcome(SweepAll(t.view, f, limit), t.evicted + Min(limit, Count(t.view, f)))
  }

  /** The whole eviction, with `wanted` objects to go in all. */
  ghost function Evict(view: seq<Shard>, now: nat, quota: (nat, nat) -> int, wanted: int, allow: bool): Outcome {
    Second(First(view, now, quota, allow), wanted, now)
  }
}
