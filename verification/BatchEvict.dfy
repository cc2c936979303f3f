/** The two passes over the shards, as the eviction thread runs them. */
module BatchEvict {
  import opened HeapModel
  import opened ObjectMetadata
  import opened Eviction
  import opened EvictionCounts
  import opened EvictionSpec
  import opened EvictionTheorems

  // ---- the order of the visits

  /** The shards in the order a pass visits them. */
  function Rotated(shards: seq<Shard>, start: nat): (r: seq<Shard>)
    requires start < |shards|
    ensures |r| == |shards|
  {
    shards[start..] + shards[..start]
  }

  /** The shard visited at step i: start + i modulo the number of shards. */
  function Visited(n: nat, start: nat, i: nat): nat
    requires start < n && i < n
  {
    if start + i < n then start + i else start + i - n
  }

  lemma RotatedUpdate(shards: seq<Shard>, start: nat, i: nat, s: Shard)
    requires start < |shards| && i < |shards|
    ensures Rotated(shards, start)[i] == shards[Visited(|shards|, start, i)]
    ensures Rotated(shards[Visited(|shards|, start, i) := s], start) == Rotated(shards, start)[i := s]
  {
  }

  lemma CountRotated(shards: seq<Shard>, start: nat, f: Filter)
    requires start < |shards|
    ensures Count(Rotated(shards, start), f) == Count(shards, f)
    ensures |Flat(Rotated(shards, start))| == |Flat(shards)|
  {
    var a, b := shards[..start], shards[start..];
    assert shards == a + b;
    FlatAppend(a, b);
    FlatAppend(b, a);
    LeasesAppend(Flat(a), Flat(b), f);
    LeasesAppend(Flat(b), Flat(a), f);
  }

  lemma OnlyUnrotated(before: seq<Shard>, after: seq<Shard>, start: nat, g: Filter)
    requires start < |before| == |after|
    requires AllOnlyEvict(Rotated(before, start), Rotated(after, start), g)
    ensures AllOnlyEvict(before, after, g)
  {
    forall j | 0 <= j < |before| ensures OnlyEvicts(before[j], after[j], g) {
      var i := if j >= start then j - start else j + |before| - start;
      assert Rotated(before, start)[i] == before[j] && Rotated(after, start)[i] == after[j];
    }
  }

  // ---- the first pass over one shard

  /** The scan of a shard: expired objects, told apart by their soft pin. */
  method Scan(es: Shard, now: nat) returns (plain: seq<nat>, pinned: seq<nat>)
    ensures plain == Leases(es, Listed(now)) && pinned == Leases(es, ListedPinned(now))
  {
    plain, pinned := [], [];
    for i := 0 to |es|
      invariant plain == Leases(es[..i], Listed(now)) && pinned == Leases(es[..i], ListedPinned(now))
    {
      assert es[..i + 1] == es[..i] + [es[i]];
      LeasesAppend(es[..i], [es[i]], Listed(now));
      LeasesAppend(es[..i], [es[i]], ListedPinned(now));
      var m := es[i].meta;
      if Eligible(m, now) {
        if !SoftPinned(m, now) {
          plain := plain + [m.lease];
        } else {
          pinned := pinned + [m.lease];
        }
      }
    }
    assert es[..|es|] == es;
  }

  /** SweptTo, with the timeouts of the later objects gathered on the way. */
  ghost predicate EvictState(es: Shard, now: nat, t: nat, done: Shard, rest: Shard, evicted: nat, later: seq<nat>) {
    && evicted + |rest| <= |es|
    && SweptTo(es, FirstPass(now, t), |es|, done, rest, evicted)
    && Leases(es, FirstPassLater(now, t)) == later + Leases(rest, FirstPassLater(now, t))
  }

  /** EvictState, kept closed. */
  ghost predicate EvictedTo(es: Shard, now: nat, t: nat, done: Shard, rest: Shard, evicted: nat, later: seq<nat>) {
    forall k :: Opened(k) ==> EvictState(es, now, t, done, rest, evicted, later)
  }

  lemma EvictOne(es: Shard, now: nat, t: nat, done: Shard, rest: Shard, evicted: nat, later: seq<nat>)
    requires EvictedTo(es, now, t, done, rest, evicted, later) && rest != []
    ensures var m := rest[0].meta;
            if Picks(FirstPass(now, t), m) then
              EvictedTo(es, now, t, done + Evicted(rest[0]), rest[1..], evicted + 1, later)
            else
              EvictedTo(es, now, t, done + [rest[0]], rest[1..], evicted,
                        if Picks(FirstPassLater(now, t), m) then later + [m.lease] else later)
  {
    assert Opened(0);
    SweepOne(es, FirstPass(now, t), |es|, done, rest, evicted);
  }

  lemma EvictEnd(es: Shard, now: nat, t: nat, done: Shard, evicted: nat, later: seq<nat>)
    requires EvictedTo(es, now, t, done, [], evicted, later)
    ensures done == Sweep(es, FirstPass(now, t), |es|) && evicted == |Leases(es, FirstPass(now, t))|
    ensures later == Leases(es, FirstPassLater(now, t))
  {
    assert Opened(0);
  }

  lemma EvictStart(es: Shard, now: nat, t: nat)
    ensures EvictedTo(es, now, t, [], es, 0, [])
  {
  }

  /** The eviction loop of the first pass over one shard; later objects become candidates of the second. */
  method EvictUpTo(es: Shard, now: nat, t: nat) returns (r: Shard, evicted: nat, later: seq<nat>)
    ensures r == Sweep(es, FirstPass(now, t), |es|) && evicted == |Leases(es, FirstPass(now, t))|
    ensures later == Leases(es, FirstPassLater(now, t))
  {
    var i := 0;
    r, evicted, later := es, 0, [];
    ghost var done, rest: Shard := [], es;
    EvictStart(es, now, t);
    while i < |r|
      invariant |done| == i && r == done + rest && EvictedTo(es, now, t, done, rest, evicted, later)
      decreases |rest|
    {
      assert rest[0] == r[i] && r[..i] == done && r[i + 1..] == rest[1..];
      EvictOne(es, now, t, done, rest, evicted, later);
      var m := r[i].meta;
      if Expired(m, now) && !SoftPinned(m, now) && !HasDiffRepStatus(m, COMPLETE, MEMORY) && HasMemReplica(m) {
        if m.lease <= t {
          r, i := EvictAt(r, i);
          evicted, done, rest := evicted + 1, done + Evicted(rest[0]), rest[1..];
          continue;
        }
        later := later + [m.lease];
      }
      i, done, rest := i + 1, done + [rest[0]], rest[1..];
    }
    EvictEnd(es, now, t, done, evicted, later);
  }

  /** The first pass over one shard: `ideal` objects, oldest lease first, ties included. */
  method FirstPassShard(es: Shard, now: nat, ideal: int, allow: bool)
    returns (r: Shard, evicted: nat, noPin: seq<nat>, softPin: seq<nat>)
    ensures ShardResult(r, evicted, noPin, softPin) == FirstShard(es, now, ideal, allow)
  {
    FirstShardIs(es, now, ideal, allow);
    var plain, pinned := Scan(es, now);
    r, evicted, noPin := es, 0, plain;
    softPin := if allow then pinned else [];
    if ideal > 0 {
      if plain != [] {
        var t := NthSmallest(plain, Min(ideal, |plain|));
        r, evicted, noPin := EvictUpTo(es, now, t);
      }
    }
  }

  // ---- the shards as stored

  lemma Replaced(done: seq<Shard>, was: seq<Shard>, view: seq<Shard>, i: nat, s: Shard)
    requires i < |was| == |view| && |done| == i && view == done + was[i..]
    ensures view[i] == was[i] && view[i := s] == (done + [s]) + was[i + 1..]
  {
  }

  /** The first pass has visited i of the shards `was`, with the tally t, and left them as in `view`. */
  ghost predicate FirstTo(was: seq<Shard>, view: seq<Shard>, i: nat, now: nat, quota: (nat, nat) -> int, allow: bool, t: Tally) {
    i <= |was| == |view| && t == First(was[..i], now, quota, allow) && |t.view| == i && view == t.view + was[i..]
  }

  /** FirstTo for the shards as stored, kept closed. */
  ghost predicate FirstRun(was: seq<Shard>, shards: seq<Shard>, start: nat, i: nat, now: nat, quota: (nat, nat) -> int,
                           allow: bool, t: Tally)
    requires start < |shards|
  {
    forall k :: Opened(k) ==> FirstTo(was, Rotated(shards, start), i, now, quota, allow, t)
  }

  lemma FirstStart(shards: seq<Shard>, start: nat, now: nat, quota: (nat, nat) -> int, allow: bool)
    requires start < |shards|
    ensures FirstRun(Rotated(shards, start), shards, start, 0, now, quota, allow, Tally([], 0, 0, [], []))
  {
  }

  lemma FirstStep(was: seq<Shard>, view: seq<Shard>, i: nat, now: nat, quota: (nat, nat) -> int, allow: bool,
                  t: Tally, r: ShardResult)
    requires i < |was| && FirstTo(was, view, i, now, quota, allow, t)
    requires r == FirstShard(view[i], now, quota(t.objects + |view[i]|, t.evicted), allow)
    ensures FirstTo(was, view[i := r.shard], i + 1, now, quota, allow, Added(t, view[i], r))
  {
    Replaced(t.view, was, view, i, r.shard);
    assert was[..i + 1][..i] == was[..i];
  }

  lemma FirstVisit(was: seq<Shard>, shards: seq<Shard>, start: nat, i: nat, now: nat, quota: (nat, nat) -> int, allow: bool,
                   t: Tally, s: Shard, r: ShardResult)
    requires start < |shards| == |was| && i < |was| && s == shards[Visited(|shards|, start, i)]
    requires FirstRun(was, shards, start, i, now, quota, allow, t)
    requires r == FirstShard(s, now, quota(t.objects + |s|, t.evicted), allow)
    ensures FirstRun(was, shards[Visited(|shards|, start, i) := r.shard], start, i + 1, now, quota, allow, Added(t, s, r))
  {
    assert Opened(0);
    RotatedUpdate(shards, start, i, r.shard);
    FirstStep(was, Rotated(shards, start), i, now, quota, allow, t, r);
  }

  lemma FirstEnd(was: seq<Shard>, shards: seq<Shard>, start: nat, now: nat, quota: (nat, nat) -> int, allow: bool, t: Tally)
    requires start < |shards| == |was| && FirstRun(was, shards, start, |was|, now, quota, allow, t)
    ensures t == First(was, now, quota, allow) && t.view == Rotated(shards, start)
  {
    assert Opened(0);
    assert was[..|was|] == was && was[|was|..] == [];
  }

  /** A second pass has visited i of the shards `was` and left them as in `view`. */
  ghost predicate SecondTo(was: seq<Shard>, view: seq<Shard>, i: nat, f: Filter, limit: nat, evicted: nat) {
    && i <= |was| == |view| && evicted == Min(limit, Count(was[..i], f))
    && |SweepAll(was[..i], f, limit)| == i && view == SweepAll(was[..i], f, limit) + was[i..]
  }

  /** SecondTo for the shards as stored, kept closed. */
  ghost predicate SecondRun(was: seq<Shard>, shards: seq<Shard>, start: nat, i: nat, f: Filter, limit: nat, evicted: nat)
    requires start < |shards|
  {
    forall k :: Opened(k) ==> SecondTo(was, Rotated(shards, start), i, f, limit, evicted)
  }

  lemma SecondStart(shards: seq<Shard>, start: nat, f: Filter, limit: nat)
    requires start < |shards|
    ensures SecondRun(Rotated(shards, start), shards, start, 0, f, limit, 0)
  {
  }

  lemma SweepAllSnoc(view: seq<Shard>, s: Shard, f: Filter, limit: nat)
    ensures SweepAll(view + [s], f, limit) == SweepAll(view, f, limit) + [Sweep(s, f, Left(limit, Count(view, f)))]
  {
    assert (view + [s])[..|view|] == view;
  }

  lemma SweepNext(head: seq<Shard>, s: Shard, f: Filter, limit: nat, evicted: nat)
    requires evicted == Min(limit, Count(head, f))
    ensures SweepAll(head + [s], f, limit) == SweepAll(head, f, limit) + [Sweep(s, f, limit - evicted)]
    ensures Min(limit, Count(head + [s], f)) == evicted + Min(limit - evicted, |Leases(s, f)|)
  {
    CountSnoc(head, s, f);
    SweepAllSnoc(head, s, f, limit);
  }

  lemma SecondStep(was: seq<Shard>, view: seq<Shard>, i: nat, f: Filter, limit: nat, evicted: nat, r: Shard, n: nat)
    requires i < |was| && SecondTo(was, view, i, f, limit, evicted) && evicted <= limit
    requires r == Sweep(view[i], f, limit - evicted) && n == Min(limit - evicted, |Leases(view[i], f)|)
    ensures SecondTo(was, view[i := r], i + 1, f, limit, evicted + n)
  {
    SweepNext(was[..i], was[i], f, limit, evicted);
    Replaced(SweepAll(was[..i], f, limit), was, view, i, r);
    assert was[..i + 1] == was[..i] + [was[i]];
  }

  lemma SecondVisit(was: seq<Shard>, shards: seq<Shard>, start: nat, i: nat, f: Filter, limit: nat, evicted: nat,
                    s: Shard, r: Shard, n: nat)
    requires start < |shards| == |was| && i < |was| && s == shards[Visited(|shards|, start, i)] && evicted <= limit
    requires SecondRun(was, shards, start, i, f, limit, evicted)
    requires r == Sweep(s, f, limit - evicted) && n == Min(limit - evicted, |Leases(s, f)|)
    ensures SecondRun(was, shards[Visited(|shards|, start, i) := r], start, i + 1, f, limit, evicted + n)
  {
    assert Opened(0);
    RotatedUpdate(shards, start, i, r);
    SecondStep(was, Rotated(shards, start), i, f, limit, evicted, r, n);
  }

  /** Once the limit is reached, a second pass leaves the rest of the shards alone. */
  lemma {:induction false} SweepAllStops(was: seq<Shard>, i: nat, f: Filter, limit: nat)
    requires i <= |was| && Count(was[..i], f) >= limit
    ensures SweepAll(was, f, limit) == SweepAll(was[..i], f, limit) + was[i..] && Count(was, f) >= limit
    decreases |was|
  {
    if i == |was| {
      assert was[..i] == was;
    } else {
      var head, s := was[..|was| - 1], was[|was| - 1];
      assert head[..i] == was[..i] && was == head + [s];
      SweepAllStops(head, i, f, limit);
      SweepNext(head, s, f, limit, limit);
      assert head[i..] + [s] == was[i..];
    }
  }

  lemma SecondEnd(was: seq<Shard>, shards: seq<Shard>, start: nat, i: nat, f: Filter, limit: nat, evicted: nat)
    requires start < |shards| == |was| && SecondRun(was, shards, start, i, f, limit, evicted)
    requires i == |was| || evicted == limit
    ensures Rotated(shards, start) == SweepAll(was, f, limit) && evicted == Min(limit, Count(was, f))
  {
    assert Opened(0);
    if evicted == limit {
      SweepAllStops(was, i, f, limit);
    } else {
      assert was[..i] == was && was[i..] == [];
    }
  }

  /** What an eviction does, back in the shards' own order. */
  lemma EvictUnrotated(before: seq<Shard>, after: seq<Shard>, start: nat, now: nat, quota: (nat, nat) -> int, wanted: int,
                       allow: bool, evicted: nat)
    requires start < |before| == |after|
    requires Outcome(Rotated(after, start), evicted) == Evict(Rotated(before, start), now, quota, wanted, allow)
    ensures AllOnlyEvict(before, after, Evictable(now, allow))
    ensures evicted + Count(after, Evictable(now, allow)) == Count(before, Evictable(now, allow))
  {
    EvictOnly(Rotated(before, start), now, quota, wanted, allow);
    OnlyUnrotated(before, after, start, Evictable(now, allow));
    CountRotated(before, start, Evictable(now, allow));
    CountRotated(after, start, Evictable(now, allow));
  }

  lemma EvictEnds(before: seq<Shard>, after: seq<Shard>, start: nat, now: nat, quota: (nat, nat) -> int, wanted: int,
                  allow: bool, t: Tally, limit: int, second: nat)
    requires start < |before| == |after| && t == First(Rotated(before, start), now, quota, allow) && limit == Limit(t, wanted)
    requires if limit <= 0 then Rotated(after, start) == t.view && second == 0
             else
               && Rotated(after, start) == SweepAll(t.view, PassFilter(t, limit, now), limit)
               && second == Min(limit, Count(t.view, PassFilter(t, limit, now)))
    ensures Outcome(Rotated(after, start), t.evicted + second) == Evict(Rotated(before, start), now, quota, wanted, allow)
  {
  }

  /** Every object is seen once by the first pass. */
  lemma FirstSees(shards: seq<Shard>, start: nat, now: nat, quota: (nat, nat) -> int, allow: bool)
    requires start < |shards|
    ensures First(Rotated(shards, start), now, quota, allow).objects == |Flat(shards)|
  {
    FirstShape(Rotated(shards, start), now, quota, allow);
    CountRotated(shards, start, Evictable(now, allow));
  }

  class MasterService {
    var shards: seq<Shard>
    var needEviction: bool
    const allowEvictSoftPinned: bool

    constructor (shards: seq<Shard>, allowEvictSoftPinned: bool)
      ensures this.shards == shards && this.allowEvictSoftPinned == allowEvictSoftPinned && !needEviction
    {
      this.shards, this.allowEvictSoftPinned, needEviction := shards, allowEvictSoftPinned, false;
    }

    /** One shard of the first pass; `t` is the tally before it and `next` the one after it. */
    method VisitShard(quota: (nat, nat) -> int, now: nat, start: nat, i: nat, objectCount: nat, evicted: nat,
                      ghost was: seq<Shard>, ghost t: Tally)
      returns (size: nat, count: nat, plain: seq<nat>, pinned: seq<nat>, ghost next: Tally)
      requires start < |shards| == |was| && i < |was| && t.objects == objectCount && t.evicted == evicted
      requires FirstRun(was, shards, start, i, now, quota, allowEvictSoftPinned, t)
      modifies this`shards
      ensures |shards| == |was| && FirstRun(was, shards, start, i + 1, now, quota, allowEvictSoftPinned, next)
      ensures next == Tally(next.view, objectCount + size, evicted + count, t.noPin + plain, t.softPin + pinned)
    {
      var k := Visited(|shards|, start, i);
      var s := shards[k];
      size := |s|;
      var r;
      r, count, plain, pinned := FirstPassShard(s, now, quota(objectCount + size, evicted), allowEvictSoftPinned);
      ghost var result := ShardResult(r, count, plain, pinned);
      FirstVisit(was, shards, start, i, now, quota, allowEvictSoftPinned, t, s, result);
      shards := shards[k := r];
      next := Added(t, s, result);
    }

    method FirstPass(target: real, now: nat, start: nat)
      returns (objectCount: nat, evicted: nat, noPin: seq<nat>, softPin: seq<nat>)
      requires start < |shards|
      modifies this`shards
      ensures |shards| == |old(shards)|
      ensures Tally(Rotated(shards, start), objectCount, evicted, noPin, softPin) ==
              First(Rotated(old(shards), start), now, Ideal(target), allowEvictSoftPinned)
    {
      objectCount, evicted, noPin, softPin := 0, 0, [], [];
      ghost var was, t := Rotated(shards, start), Tally([], 0, 0, [], []);
      var quota := Ideal(target);
      FirstStart(shards, start, now, quota, allowEvictSoftPinned);
      for i := 0 to |shards|
        invariant |shards| == |old(shards)| && FirstRun(was, shards, start, i, now, quota, allowEvictSoftPinned, t)
        invariant t == Tally(t.view, objectCount, evicted, noPin, softPin)
      {
        var size, count, plain, pinned;
        size, count, plain, pinned, t := VisitShard(quota, now, start, i, objectCount, evicted, was, t);
        objectCount, evicted := objectCount + size, evicted + count;
        noPin, softPin := noPin + plain, softPin + pinned;
      }
      FirstEnd(was, shards, start, now, quota, allowEvictSoftPinned, t);
    }

    /** One shard of a second pass that has evicted `done` objects, and `total` after it. */
    method EvictShard(f: Filter, limit: nat, start: nat, i: nat, done: nat, ghost was: seq<Shard>) returns (total: nat)
      requires start < |shards| == |was| && i < |was| && done <= limit
      requires SecondRun(was, shards, start, i, f, limit, done)
      modifies this`shards
      ensures |shards| == |was| && total <= limit && SecondRun(was, shards, start, i + 1, f, limit, total)
    {
      var k := Visited(|shards|, start, i);
      var s := shards[k];
      var r, n := EvictFrom(s, f, limit - done);
      SecondVisit(was, shards, start, i, f, limit, done, s, r, n);
      shards := shards[k := r];
      total := done + n;
    }

    method SecondPass(f: Filter, limit: nat, start: nat) returns (evicted: nat)
      requires start < |shards|
      modifies this`shards
      ensures |shards| == |old(shards)|
      ensures Rotated(shards, start) == SweepAll(Rotated(old(shards), start), f, limit)
      ensures evicted == Min(limit, Count(Rotated(old(shards), start), f))
    {
      evicted := 0;
      var i := 0;
      ghost var was := Rotated(shards, start);
      SecondStart(shards, start, f, limit);
      while i < |shards| && evicted < limit
        invariant i <= |shards| == |old(shards)| && evicted <= limit
        invariant SecondRun(was, shards, start, i, f, limit, evicted)
      {
        evicted := EvictShard(f, limit, start, i, evicted, was);
        i := i + 1;
      }
      SecondEnd(was, shards, start, i, f, limit, evicted);
    }

    /** Pass A if the unpinned candidates are enough, else pass B. */
    method TakeSecond(now: nat, start: nat, limit: nat, noPin: seq<nat>, softPin: seq<nat>, ghost t: Tally)
      returns (evicted: nat)
      requires start < |shards| && 0 < limit <= |noPin| + |softPin| && t.noPin == noPin && t.softPin == softPin
      modifies this`shards
      ensures |shards| == |old(shards)|
      ensures Rotated(shards, start) == SweepAll(Rotated(old(shards), start), PassFilter(t, limit, now), limit)
      ensures evicted == Min(limit, Count(Rotated(old(shards), start), PassFilter(t, limit, now)))
    {
      evicted := 0;
      if limit <= |noPin| {
        var target := NthSmallest(noPin, limit);
        evicted := SecondPass(SecondPassA(now, target), limit, start);
      } else if softPin != [] {
        var target := NthSmallest(softPin, limit - |noPin|);
        evicted := SecondPass(SecondPassB(now, target), limit, start);
      } else {
        assert false;
      }
    }

    /** `first` objects go in the first pass, the rest of `evicted` in the second. */
    method BatchEvict(target: real, lowerbound: real, now: nat, start: nat) returns (evicted: nat, first: nat)
      requires start < |shards|
      modifies this
      ensures |shards| == |old(shards)|
      ensures Outcome(Rotated(shards, start), evicted) ==
              Evict(Rotated(old(shards), start), now, Ideal(target), Wanted(|Flat(old(shards))|, target, lowerbound),
                    allowEvictSoftPinned)
      ensures first == First(Rotated(old(shards), start), now, Ideal(target), allowEvictSoftPinned).evicted
      ensures AllOnlyEvict(old(shards), shards, Evictable(now, allowEvictSoftPinned))
      ensures evicted + Count(shards, Evictable(now, allowEvictSoftPinned)) ==
              Count(old(shards), Evictable(now, allowEvictSoftPinned))
      ensures needEviction == (old(needEviction) && evicted == 0 && Flat(old(shards)) != [])
    {
      ghost var before, quota := shards, Ideal(target);
      var objectCount, n, noPin, softPin := FirstPass(target, now, start);
      ghost var t := Tally(Rotated(shards, start), objectCount, n, noPin, softPin);
      FirstSees(before, start, now, quota, allowEvictSoftPinned);
      var wanted := Wanted(objectCount, target, lowerbound);
      var limit := Min(wanted - n, |noPin| + |softPin|);
      var second := 0;
      if limit > 0 {
        second := TakeSecond(now, start, limit, noPin, softPin, t);
      }
      first, evicted := n, n + second;
      EvictEnds(before, shards, start, now, quota, wanted, allowEvictSoftPinned, t, limit, second);
      EvictUnrotated(before, shards, start, now, quota, wanted, allowEvictSoftPinned, evicted);
      needEviction := needEviction && evicted == 0 && objectCount != 0;
    }
  }
}
