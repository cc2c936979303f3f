/** What the function EvictionSpec.Evict promises, for all shards, times and ratios. */
module EvictionTheorems {
  import opened HeapModel
  import opened ObjectMetadata
  import opened Eviction
  import opened EvictionCounts
  import opened EvictionSpec

  // ---- the first pass

  /** What the first pass evicts of some objects, and what its lists cover. */
  ghost predicate Handed(es: Shard, r: Shard, now: nat, allow: bool, evicted: nat, noPin: seq<nat>, softPin: seq<nat>) {
    && evicted + |Leases(r, Unpinned(now))| == |Leases(es, Unpinned(now))|
    && Leases(r, Pinned(now)) == Leases(es, Pinned(now))
    && (forall x :: x in noPin ==> x <= now)
    && |noPin| >= |Leases(r, Unpinned(now))| && (if allow then |softPin| >= |Leases(r, Pinned(now))| else softPin == [])
    && (NoDiskOnly(es, now) ==>
          noPin == Leases(r, Unpinned(now)) && softPin == if allow then Leases(r, Pinned(now)) else [])
  }

  lemma ScanCovers(es: Shard, now: nat)
    ensures |Leases(es, Unpinned(now))| <= |Leases(es, Listed(now))| && |Leases(es, Pinned(now))| <= |Leases(es, ListedPinned(now))|
    ensures NoDiskOnly(es, now) ==>
              Leases(es, Unpinned(now)) == Leases(es, Listed(now)) && Leases(es, Pinned(now)) == Leases(es, ListedPinned(now))
  {
    LeasesWithin(es, Unpinned(now), Listed(now));
    LeasesWithin(es, Pinned(now), ListedPinned(now));
    if NoDiskOnly(es, now) {
      LeasesSame(es, Unpinned(now), Listed(now));
      LeasesSame(es, Pinned(now), ListedPinned(now));
    }
  }

  /** A shard that is left alone. */
  lemma SparedHanded(es: Shard, now: nat, allow: bool)
    ensures Handed(es, es, now, allow, 0, Leases(es, Listed(now)), if allow then Leases(es, ListedPinned(now)) else [])
    ensures OnlyEvicts(es, es, Unpinned(now))
  {
    ScanCovers(es, now);
    LeasesBounded(es, Listed(now), now);
    assert forall e :: e in es ==> Traced(e, es, Unpinned(now));
  }

  /** A shard that loses its objects up to a timeout. */
  lemma SweptHanded(es: Shard, now: nat, allow: bool, t: nat)
    ensures Handed(es, Sweep(es, FirstPass(now, t), |es|), now, allow, |Leases(es, FirstPass(now, t))|,
                   Leases(es, FirstPassLater(now, t)), if allow then Leases(es, ListedPinned(now)) else [])
    ensures OnlyEvicts(es, Sweep(es, FirstPass(now, t), |es|), FirstPass(now, t))
  {
    var f := FirstPass(now, t);
    SweepOnly(es, f, |es|, f);
    SweepCount(es, f, |es|, Unpinned(now));
    SweepSpares(es, f, |es|, Pinned(now));
    FirstPassLeaves(es, now, t, |es|);
    UnpinnedUpTo(es, now, t);
    LeasesBounded(es, FirstPassLater(now, t), now);
    LeasesLength(es, f);
    ScanCovers(es, now);
  }

  lemma OnlyWiden(a: Shard, b: Shard, f: Filter, g: Filter)
    requires OnlyEvicts(a, b, f) && Within(f, g)
    ensures OnlyEvicts(a, b, g)
  {
  }

  lemma FirstShardOk(es: Shard, now: nat, ideal: int, allow: bool)
    ensures var r := FirstShard(es, now, ideal, allow);
            OnlyEvicts(es, r.shard, Unpinned(now)) && Handed(es, r.shard, now, allow, r.evicted, r.noPin, r.softPin)
  {
    FirstShardIs(es, now, ideal, allow);
    var listed := Leases(es, Listed(now));
    if ideal <= 0 || listed == [] {
      SparedHanded(es, now, allow);
    } else {
      var t := Nth(listed, Min(ideal, |listed|));
      SweptHanded(es, now, allow, t);
      OnlyWiden(es, Sweep(es, FirstPass(now, t), |es|), FirstPass(now, t), Unpinned(now));
    }
  }

  /** With a quota, all and only the objects in memory up to the timeout of the quota-th candidate go; without one, none. */
  lemma FirstShardExact(es: Shard, now: nat, ideal: int, allow: bool)
    ensures var r, listed := FirstShard(es, now, ideal, allow), Leases(es, Listed(now));
            if ideal <= 0 || listed == [] then r.shard == es && r.evicted == 0
            else
              var t := Nth(listed, Min(ideal, |listed|));
              && OnlyEvicts(es, r.shard, FirstPass(now, t)) && Leases(r.shard, FirstPass(now, t)) == []
              && r.evicted == CountLeq(Leases(es, Unpinned(now)), t)
              && (NoDiskOnly(es, now) ==> listed == Leases(es, Unpinned(now)))
  {
    FirstShardIs(es, now, ideal, allow);
    ScanCovers(es, now);
    var listed := Leases(es, Listed(now));
    if ideal > 0 && listed != [] {
      var t := Nth(listed, Min(ideal, |listed|));
      SweptHanded(es, now, allow, t);
      SweepCount(es, FirstPass(now, t), |es|, FirstPass(now, t));
      LeasesLength(es, FirstPass(now, t));
      UnpinnedUpTo(es, now, t);
    }
  }

  lemma HandedAppend(now: nat, allow: bool,
                     a: Shard, a': Shard, n: nat, noPin: seq<nat>, softPin: seq<nat>,
                     b: Shard, b': Shard, n': nat, noPin': seq<nat>, softPin': seq<nat>)
    requires Handed(a, a', now, allow, n, noPin, softPin) && Handed(b, b', now, allow, n', noPin', softPin')
    ensures Handed(a + b, a' + b', now, allow, n + n', noPin + noPin', softPin + softPin')
  {
    LeasesAppend(a, b, Unpinned(now));
    LeasesAppend(a, b, Pinned(now));
    LeasesAppend(a', b', Unpinned(now));
    LeasesAppend(a', b', Pinned(now));
    assert NoDiskOnly(a + b, now) ==> NoDiskOnly(a, now) && NoDiskOnly(b, now);
  }

  ghost predicate FirstState(view: seq<Shard>, t: Tally, now: nat, allow: bool) {
    && AllOnlyEvict(view, t.view, Unpinned(now)) && t.objects == |Flat(view)|
    && Handed(Flat(view), Flat(t.view), now, allow, t.evicted, t.noPin, t.softPin)
  }

  /** FirstState, kept closed. */
  ghost predicate FirstOk(view: seq<Shard>, t: Tally, now: nat, allow: bool) {
    forall k :: Opened(k) ==> FirstState(view, t, now, allow)
  }

  lemma OpenFirst(view: seq<Shard>, t: Tally, now: nat, allow: bool)
    requires FirstOk(view, t, now, allow)
    ensures FirstState(view, t, now, allow)
  {
    assert Opened(0);
  }

  lemma FirstSnoc(view: seq<Shard>, t: Tally, s: Shard, ideal: int, now: nat, allow: bool)
    requires FirstOk(view, t, now, allow)
    ensures FirstOk(view + [s], Added(t, s, FirstShard(s, now, ideal, allow)), now, allow)
  {
    var r := FirstShard(s, now, ideal, allow);
    FirstShardOk(s, now, ideal, allow);
    OpenFirst(view, t, now, allow);
    HandedAppend(now, allow, Flat(view), Flat(t.view), t.evicted, t.noPin, t.softPin, s, r.shard, r.evicted, r.noPin, r.softPin);
    FlatSnoc(view, s);
    FlatSnoc(t.view, r.shard);
  }

  lemma FirstNextOk(view: seq<Shard>, t: Tally, s: Shard, now: nat, quota: (nat, nat) -> int, allow: bool)
    requires FirstOk(view, t, now, allow)
    ensures FirstOk(view + [s], FirstNext(t, s, now, quota, allow), now, allow)
  {
    FirstSnoc(view, t, s, quota(t.objects + |s|, t.evicted), now, allow);
  }

  /** The first pass takes unpinned objects only, counts what it takes, and lists at least what it leaves. */
  lemma {:induction false} FirstAllOk(view: seq<Shard>, now: nat, quota: (nat, nat) -> int, allow: bool)
    ensures FirstOk(view, First(view, now, quota, allow), now, allow)
    decreases |view|
  {
    if view != [] {
      var n := |view| - 1;
      FirstAllOk(view[..n], now, quota, allow);
      FirstNextOk(view[..n], First(view[..n], now, quota, allow), view[n], now, quota, allow);
      assert view == view[..n] + [view[n]];
    }
  }

  // ---- the second pass

  /** A pass over some shards has turned `view` into `after` and taken n objects. */
  ghost predicate Swept(view: seq<Shard>, after: seq<Shard>, f: Filter, g: Filter, n: nat) {
    AllOnlyEvict(view, after, f) && Count(after, g) + n == Count(view, g)
  }

  lemma SweptSnoc(view: seq<Shard>, after: seq<Shard>, f: Filter, g: Filter, n: nat, s: Shard, r: Shard, m: nat)
    requires Swept(view, after, f, g, n) && OnlyEvicts(s, r, f) && |Leases(r, g)| + m == |Leases(s, g)|
    ensures Swept(view + [s], after + [r], f, g, n + m)
  {
    CountSnoc(view, s, g);
    CountSnoc(after, r, g);
  }

  lemma {:induction false} SweepAllOk(view: seq<Shard>, f: Filter, limit: nat, g: Filter)
    requires Within(f, g) && NeedsMemory(g)
    ensures Swept(view, SweepAll(view, f, limit), f, g, Min(limit, Count(view, f)))
    decreases |view|
  {
    if view != [] {
      var n := |view| - 1;
      var head, s := view[..n], view[n];
      var left := Left(limit, Count(head, f));
      SweepAllOk(head, f, limit, g);
      SweepOnly(s, f, left, f);
      SweepCount(s, f, left, g);
      SweptSnoc(head, SweepAll(head, f, limit), f, g, Min(limit, Count(head, f)), s, Sweep(s, f, left), Min(left, |Leases(s, f)|));
      assert view == head + [s];
      CountSnoc(head, s, f);
    }
  }

  lemma PassWithin(t: Tally, limit: nat, now: nat, allow: bool)
    requires 1 <= limit <= |t.noPin| + |t.softPin| && (forall x :: x in t.noPin ==> x <= now) && (!allow ==> t.softPin == [])
    ensures Within(PassFilter(t, limit, now), Evictable(now, allow))
    ensures limit <= |t.noPin| ==> Within(PassFilter(t, limit, now), Unpinned(now))
  {
  }

  lemma OnlyTwiceAll(a: seq<Shard>, b: seq<Shard>, c: seq<Shard>, g: Filter)
    requires AllOnlyEvict(a, b, g) && AllOnlyEvict(b, c, g) && NeedsMemory(g)
    ensures AllOnlyEvict(a, c, g)
  {
    forall i | 0 <= i < |a| ensures OnlyEvicts(a[i], c[i], g) { OnlyTwice(a[i], b[i], c[i], g); }
  }

  lemma OnlyTwice(a: Shard, b: Shard, c: Shard, g: Filter)
    requires OnlyEvicts(a, b, g) && OnlyEvicts(b, c, g) && NeedsMemory(g)
    ensures OnlyEvicts(a, c, g)
  {
  }

  lemma WidenAll(a: seq<Shard>, b: seq<Shard>, f: Filter, g: Filter)
    requires AllOnlyEvict(a, b, f) && Within(f, g)
    ensures AllOnlyEvict(a, b, g)
  {
    forall i | 0 <= i < |a| ensures OnlyEvicts(a[i], b[i], g) { OnlyWiden(a[i], b[i], f, g); }
  }

  lemma OnlyNothing(view: seq<Shard>, g: Filter)
    ensures AllOnlyEvict(view, view, g)
  {
    forall i, e | 0 <= i < |view| && e in view[i] ensures Traced(e, view[i], g) {}
  }

  // ---- the whole eviction

  lemma FirstShape(view: seq<Shard>, now: nat, quota: (nat, nat) -> int, allow: bool)
    ensures |First(view, now, quota, allow).view| == |view| && First(view, now, quota, allow).objects == |Flat(view)|
  {
    FirstAllOk(view, now, quota, allow);
    OpenFirst(view, First(view, now, quota, allow), now, allow);
  }

  /** What the first pass does to a shard depends on the shards before it only. */
  lemma {:induction false} FirstPrefix(view: seq<Shard>, now: nat, quota: (nat, nat) -> int, allow: bool, i: nat)
    requires i <= |view|
    ensures First(view[..i], now, quota, allow).view <= First(view, now, quota, allow).view
    decreases |view|
  {
    if i == |view| {
      assert view[..i] == view;
    } else {
      var n := |view| - 1;
      FirstPrefix(view[..n], now, quota, allow, i);
      assert view[..n][..i] == view[..i];
      assert First(view, now, quota, allow) == FirstNext(First(view[..n], now, quota, allow), view[n], now, quota, allow);
    }
  }

  /** The last shard's first pass, with the quota that the shards before it leave. */
  lemma FirstLast(head: seq<Shard>, s: Shard, now: nat, quota: (nat, nat) -> int, allow: bool)
    ensures var p := First(head, now, quota, allow);
            First(head + [s], now, quota, allow) == Added(p, s, FirstShard(s, now, quota(|Flat(head + [s])|, p.evicted), allow))
  {
    assert (head + [s])[..|head|] == head;
    FirstShape(head, now, quota, allow);
    FlatSnoc(head, s);
  }

  /** Each shard's first pass, likewise. */
  lemma FirstAt(head: seq<Shard>, s: Shard, rest: seq<Shard>, now: nat, quota: (nat, nat) -> int, allow: bool)
    ensures var t, p := First(head + [s] + rest, now, quota, allow), First(head, now, quota, allow);
            && |head| < |t.view|
            && t.view[|head|] == FirstShard(s, now, quota(|Flat(head + [s])|, p.evicted), allow).shard
  {
    var view, p := head + [s] + rest, First(head, now, quota, allow);
    FirstLast(head, s, now, quota, allow);
    FirstShape(head, now, quota, allow);
    assert view[..|head| + 1] == head + [s];
    FirstPrefix(view, now, quota, allow, |head| + 1);
    PrefixAt(p.view, FirstShard(s, now, quota(|Flat(head + [s])|, p.evicted), allow).shard, First(view, now, quota, allow).view);
  }

  lemma PrefixAt(p: seq<Shard>, s: Shard, view: seq<Shard>)
    requires p + [s] <= view
    ensures |p| < |view| && view[|p|] == s
  {
    assert (p + [s])[|p|] == s;
  }

  /** What the second pass does after a first pass. */
  lemma SecondOk(view: seq<Shard>, t: Tally, wanted: int, now: nat, allow: bool)
    requires FirstOk(view, t, now, allow)
    ensures var limit, out := Limit(t, wanted), Second(t, wanted, now);
            && Swept(t.view, out.view, Evictable(now, allow), Evictable(now, allow), out.evicted - t.evicted)
            && (limit <= |t.noPin| ==> AllOnlyEvict(t.view, out.view, Unpinned(now)))
            && (limit > 0 ==> AllOnlyEvict(t.view, out.view, PassFilter(t, limit, now)))
  {
    OpenFirst(view, t, now, allow);
    var limit, g := Limit(t, wanted), Evictable(now, allow);
    if limit <= 0 {
      OnlyNothing(t.view, g);
      OnlyNothing(t.view, Unpinned(now));
    } else {
      var f := PassFilter(t, limit, now);
      PassWithin(t, limit, now, allow);
      SweepAllOk(t.view, f, limit, g);
      WidenAll(t.view, SweepAll(t.view, f, limit), f, g);
      if limit <= |t.noPin| { WidenAll(t.view, SweepAll(t.view, f, limit), f, Unpinned(now)); }
    }
  }

  /**
    Nothing goes but objects that may go, each eviction takes one of them, and
    no soft-pinned object goes when the unpinned candidates suffice.
  */
  lemma EvictOnly(view: seq<Shard>, now: nat, quota: (nat, nat) -> int, wanted: int, allow: bool)
    ensures var g, out, t := Evictable(now, allow), Evict(view, now, quota, wanted, allow), First(view, now, quota, allow);
            && AllOnlyEvict(view, out.view, g) && out.evicted + Count(out.view, g) == Count(view, g)
            && (Limit(t, wanted) <= |t.noPin| ==> AllOnlyEvict(view, out.view, Unpinned(now)))
  {
    var g, t := Evictable(now, allow), First(view, now, quota, allow);
    FirstAllOk(view, now, quota, allow);
    OpenFirst(view, t, now, allow);
    SecondOk(view, t, wanted, now, allow);
    WidenAll(view, t.view, Unpinned(now), g);
    OnlyTwiceAll(view, t.view, Second(t, wanted, now).view, g);
    FirstEvictable(view, t, now, allow);
    if Limit(t, wanted) <= |t.noPin| {
      OnlyTwiceAll(view, t.view, Second(t, wanted, now).view, Unpinned(now));
    }
  }

  lemma FirstEvictable(view: seq<Shard>, t: Tally, now: nat, allow: bool)
    requires FirstState(view, t, now, allow)
    ensures t.evicted + Count(t.view, Evictable(now, allow)) == Count(view, Evictable(now, allow))
    ensures Count(t.view, Evictable(now, allow)) <= |t.noPin| + |t.softPin|
    ensures NoDiskOnly(Flat(view), now) ==> Count(t.view, Evictable(now, allow)) == |t.noPin| + |t.softPin|
  {
    PinnedOrNot(Flat(view), now);
    PinnedOrNot(Flat(t.view), now);
  }

  // ---- how many

  /** What an eviction ideally reaches: the first pass, and beyond it the lower bound as far as there is something to take. */
  ghost function Goal(view: seq<Shard>, now: nat, quota: (nat, nat) -> int, wanted: int, allow: bool): int {
    var t := First(view, now, quota, allow);
    Max(t.evicted, Min(wanted, Count(view, Evictable(now, allow))))
  }

  /** Timeouts of objects on disk only that the first pass lists for a shard: all of them if it has no quota. */
  function StraysOf(es: Shard, now: nat, ideal: int): seq<nat> {
    if ideal <= 0 || Leases(es, Listed(now)) == [] then Leases(es, DiskListed(now)) else []
  }

  /** StraysOf the shard that comes after a tally. */
  ghost function StraysNext(t: Tally, s: Shard, now: nat, quota: (nat, nat) -> int): seq<nat> {
    StraysOf(s, now, quota(t.objects + |s|, t.evicted))
  }

  /** The same of all shards. */
  ghost function Strays(view: seq<Shard>, now: nat, quota: (nat, nat) -> int, allow: bool): seq<nat>
    decreases |view|
  {
    if view == [] then []
    else
      var n := |view| - 1;
      Strays(view[..n], now, quota, allow) + StraysNext(First(view[..n], now, quota, allow), view[n], now, quota)
  }

  /** Timeouts of soft-pinned objects on disk only, which are always listed if they may go. */
  function PinnedStrays(view: seq<Shard>, now: nat, allow: bool): seq<nat> {
    if allow then Leases(Flat(view), DiskPinned(now)) else []
  }

  /** The lists of a first pass hold what is in memory after it, and strays. */
  ghost predicate ListsSplit(view: seq<Shard>, t: Tally, strays: seq<nat>, now: nat, allow: bool, v: nat) {
    && Splits(t.noPin, Leases(Flat(t.view), Unpinned(now)), strays, v)
    && Splits(t.softPin, if allow then Leases(Flat(t.view), Pinned(now)) else [], PinnedStrays(view, now, allow), v)
  }

  /** ListsSplit, kept closed. */
  ghost predicate SplitOk(view: seq<Shard>, t: Tally, strays: seq<nat>, now: nat, allow: bool, v: nat) {
    forall k :: Opened(k) ==> ListsSplit(view, t, strays, now, allow, v)
  }

  lemma ShardSplits(es: Shard, now: nat, ideal: int, allow: bool, v: nat)
    ensures var r := FirstShard(es, now, ideal, allow);
            && Splits(r.noPin, Leases(r.shard, Unpinned(now)), StraysOf(es, now, ideal), v)
            && Splits(r.softPin, if allow then Leases(r.shard, Pinned(now)) else [],
                      if allow then Leases(es, DiskPinned(now)) else [], v)
  {
    FirstShardIs(es, now, ideal, allow);
    ListedSplits(es, now, v);
    var listed := Leases(es, Listed(now));
    if ideal > 0 && listed != [] {
      var t := Nth(listed, Min(ideal, |listed|));
      FirstPassLeaves(es, now, t, |es|);
      SweepSpares(es, FirstPass(now, t), |es|, Pinned(now));
    }
  }

  lemma SplitSnoc(view: seq<Shard>, t: Tally, strays: seq<nat>, s: Shard, ideal: int, now: nat, allow: bool, v: nat)
    requires SplitOk(view, t, strays, now, allow, v)
    ensures SplitOk(view + [s], Added(t, s, FirstShard(s, now, ideal, allow)), strays + StraysOf(s, now, ideal), now, allow, v)
  {
    assert Opened(0);
    var r := FirstShard(s, now, ideal, allow);
    ShardSplits(s, now, ideal, allow, v);
    CountSnoc(t.view, r.shard, Unpinned(now));
    CountSnoc(t.view, r.shard, Pinned(now));
    CountSnoc(view, s, DiskPinned(now));
    SplitsAppend(t.noPin, Leases(Flat(t.view), Unpinned(now)), strays,
                 r.noPin, Leases(r.shard, Unpinned(now)), StraysOf(s, now, ideal), v);
    if allow {
      SplitsAppend(t.softPin, Leases(Flat(t.view), Pinned(now)), PinnedStrays(view, now, allow),
                   r.softPin, Leases(r.shard, Pinned(now)), Leases(s, DiskPinned(now)), v);
    }
  }

  lemma SplitNext(view: seq<Shard>, t: Tally, strays: seq<nat>, s: Shard, now: nat, quota: (nat, nat) -> int, allow: bool, v: nat)
    requires SplitOk(view, t, strays, now, allow, v)
    ensures SplitOk(view + [s], FirstNext(t, s, now, quota, allow), strays + StraysNext(t, s, now, quota), now, allow, v)
  {
    SplitSnoc(view, t, strays, s, quota(t.objects + |s|, t.evicted), now, allow, v);
  }

  lemma {:induction false} FirstSplits(view: seq<Shard>, now: nat, quota: (nat, nat) -> int, allow: bool, v: nat)
    ensures SplitOk(view, First(view, now, quota, allow), Strays(view, now, quota, allow), now, allow, v)
    decreases |view|
  {
    if view != [] {
      var n := |view| - 1;
      FirstSplits(view[..n], now, quota, allow, v);
      SplitNext(view[..n], First(view[..n], now, quota, allow), Strays(view[..n], now, quota, allow), view[n], now, quota, allow, v);
      assert view == view[..n] + [view[n]];
    }
  }

  /** How many candidates up to the threshold, all unpinned ones among them in pass B, are strays. */
  ghost function StraysUpTo(t: Tally, strays: seq<nat>, pinned: seq<nat>, limit: nat): nat
    requires 1 <= limit <= |t.noPin| + |t.softPin|
  {
    if limit <= |t.noPin| then CountLeq(strays, Nth(t.noPin, limit))
    else |strays| + CountLeq(pinned, Nth(t.softPin, limit - |t.noPin|))
  }

  /** How many candidates there are up to the threshold. */
  ghost function ListedUpTo(t: Tally, limit: nat): nat
    requires 1 <= limit <= |t.noPin| + |t.softPin|
  {
    StraysUpTo(t, t.noPin, t.softPin, limit)
  }

  /**
    Of the candidates up to the threshold of the second pass, no more are on disk
    only than the candidates exceed what is missing after the first pass.
  */
  ghost predicate EnoughInMemory(view: seq<Shard>, now: nat, quota: (nat, nat) -> int, wanted: int, allow: bool) {
    var t := First(view, now, quota, allow);
    var limit, missing := Limit(t, wanted), Min(wanted, Count(view, Evictable(now, allow))) - t.evicted;
    limit > 0 ==>
      StraysUpTo(t, Strays(view, now, quota, allow), PinnedStrays(view, now, allow), limit) + missing <= ListedUpTo(t, limit)
  }

  /** The timeout of the last candidate asked for. */
  ghost function Threshold(t: Tally, limit: nat): nat
    requires 1 <= limit <= |t.noPin| + |t.softPin|
  {
    if limit <= |t.noPin| then Nth(t.noPin, limit) else Nth(t.softPin, limit - |t.noPin|)
  }

  /** A second pass picks the candidates up to its threshold that are no strays. */
  lemma PassPicks(view: seq<Shard>, t: Tally, strays: seq<nat>, now: nat, allow: bool, limit: nat)
    requires 1 <= limit <= |t.noPin| + |t.softPin| && (forall x :: x in t.noPin ==> x <= now) && (!allow ==> t.softPin == [])
    requires SplitOk(view, t, strays, now, allow, Threshold(t, limit))
    ensures Count(t.view, PassFilter(t, limit, now)) + StraysUpTo(t, strays, PinnedStrays(view, now, allow), limit) ==
            ListedUpTo(t, limit)
  {
    if limit <= |t.noPin| { PassAPicksListed(view, t, strays, now, allow, Threshold(t, limit)); }
    else { PassBPicksListed(view, t, strays, now, Threshold(t, limit)); }
  }

  lemma PassAPicksListed(view: seq<Shard>, t: Tally, strays: seq<nat>, now: nat, allow: bool, v: nat)
    requires SplitOk(view, t, strays, now, allow, v) && v <= now
    ensures Count(t.view, SecondPassA(now, v)) + CountLeq(strays, v) == CountLeq(t.noPin, v)
  {
    assert Opened(0);
    UnpinnedUpTo(Flat(t.view), now, v);
  }

  lemma PassBPicksListed(view: seq<Shard>, t: Tally, strays: seq<nat>, now: nat, v: nat)
    requires SplitOk(view, t, strays, now, true, v)
    ensures Count(t.view, SecondPassB(now, v)) + |strays| + CountLeq(PinnedStrays(view, now, true), v) == |t.noPin| + CountLeq(t.softPin, v)
  {
    assert Opened(0);
    PassBPicks(Flat(t.view), now, v);
  }

  /** The goal is never exceeded, and reached if and only if enough of the candidates are in memory. */
  lemma EvictCount(view: seq<Shard>, now: nat, quota: (nat, nat) -> int, wanted: int, allow: bool)
    ensures var first, out := First(view, now, quota, allow).evicted, Evict(view, now, quota, wanted, allow).evicted;
            && first <= out <= Goal(view, now, quota, wanted, allow)
            && (out == Goal(view, now, quota, wanted, allow) <==> EnoughInMemory(view, now, quota, wanted, allow))
  {
    var t := First(view, now, quota, allow);
    FirstAllOk(view, now, quota, allow);
    OpenFirst(view, t, now, allow);
    FirstEvictable(view, t, now, allow);
    var limit := Limit(t, wanted);
    if limit > 0 {
      PassWithin(t, limit, now, allow);
      LeasesWithin(Flat(t.view), PassFilter(t, limit, now), Evictable(now, allow));
      FirstSplits(view, now, quota, allow, Threshold(t, limit));
      PassPicks(view, t, Strays(view, now, quota, allow), now, allow, limit);
    }
  }

  lemma ListsYield(view: seq<Shard>, t: Tally, now: nat, allow: bool, limit: nat)
    requires FirstState(view, t, now, allow) && NoDiskOnly(Flat(view), now) && 1 <= limit <= |t.noPin| + |t.softPin|
    ensures Count(t.view, PassFilter(t, limit, now)) >= limit
  {
    if limit <= |t.noPin| {
      UnpinnedUpTo(Flat(t.view), now, Nth(t.noPin, limit));
    } else {
      PassBPicks(Flat(t.view), now, Nth(t.softPin, limit - |t.noPin|));
    }
  }

  /** Without eligible objects on disk only, the goal is always reached. */
  lemma EvictReaches(view: seq<Shard>, now: nat, quota: (nat, nat) -> int, wanted: int, allow: bool)
    requires NoDiskOnly(Flat(view), now)
    ensures Evict(view, now, quota, wanted, allow).evicted == Goal(view, now, quota, wanted, allow)
  {
    var t := First(view, now, quota, allow);
    EvictCount(view, now, quota, wanted, allow);
    FirstAllOk(view, now, quota, allow);
    OpenFirst(view, t, now, allow);
    FirstEvictable(view, t, now, allow);
    if Limit(t, wanted) > 0 {
      ListsYield(view, t, now, allow, Limit(t, wanted));
      FirstSplits(view, now, quota, allow, Threshold(t, Limit(t, wanted)));
      PassPicks(view, t, Strays(view, now, quota, allow), now, allow, Limit(t, wanted));
    }
  }
}
