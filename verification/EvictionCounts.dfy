/** What a sweep takes away and what it leaves. */
module EvictionCounts {
  import opened HeapModel
  import opened Eviction

  ghost predicate Within(f: Filter, g: Filter) {
    forall m :: Picks(f, m) ==> Picks(g, m)
  }

  ghost predicate Apart(f: Filter, g: Filter) {
    forall m :: Picks(f, m) ==> !Picks(g, m)
  }

  // ---- lists of lease timeouts

  lemma {:induction false} LeasesAppend(a: Shard, b: Shard, f: Filter)
    ensures Leases(a + b, f) == Leases(a, f) + Leases(b, f)
  {
    if a == [] {
      assert a + b == b;
    } else {
      assert (a + b)[0] == a[0] && (a + b)[1..] == a[1..] + b;
      LeasesAppend(a[1..], b, f);
    }
  }

  /** All filters but those of the scan ask for a memory replica. */
  predicate NeedsMemory(f: Filter) {
    !f.Listed? && !f.ListedPinned? && !f.DiskListed? && !f.DiskPinned?
  }

  /** An evicted entry has no memory replica, so no pass picks it again. */
  lemma NeverAgain(e: Entry, f: Filter)
    requires NeedsMemory(f)
    ensures Leases(Evicted(e), f) == []
  {
  }

  lemma {:induction false} LeasesBounded(es: Shard, f: Filter, now: nat)
    requires f.now == now && !f.SecondPassA?
    ensures forall x :: x in Leases(es, f) ==> x <= now
  {
    if es != [] { LeasesBounded(es[1..], f, now); }
  }

  lemma {:induction false} LeasesLength(es: Shard, f: Filter)
    ensures |Leases(es, f)| <= |es|
  {
    if es != [] { LeasesLength(es[1..], f); }
  }

  /** A wider filter picks at least as many. */
  lemma {:induction false} LeasesWithin(es: Shard, f: Filter, g: Filter)
    requires Within(f, g)
    ensures |Leases(es, f)| <= |Leases(es, g)|
  {
    if es != [] {
      LeasesWithin(es[1..], f, g);
      assert Picks(f, es[0].meta) ==> Picks(g, es[0].meta);
    }
  }

  lemma {:induction false} LeasesSame(es: Shard, f: Filter, g: Filter)
    requires forall e :: e in es ==> (Picks(f, e.meta) <==> Picks(g, e.meta))
    ensures Leases(es, f) == Leases(es, g)
  {
    if es != [] { LeasesSame(es[1..], f, g); }
  }

  lemma {:induction false} PinnedOrNot(es: Shard, now: nat)
    ensures |Leases(es, AnyPin(now))| == |Leases(es, Unpinned(now))| + |Leases(es, Pinned(now))|
  {
    if es != [] { PinnedOrNot(es[1..], now); }
  }

  /** A list of timeouts is made up of two others, in whatever order. */
  ghost predicate Splits(list: seq<nat>, a: seq<nat>, b: seq<nat>, v: nat) {
    CountLeq(list, v) == CountLeq(a, v) + CountLeq(b, v) && |list| == |a| + |b|
  }

  lemma SplitsAppend(l: seq<nat>, a: seq<nat>, b: seq<nat>, l': seq<nat>, a': seq<nat>, b': seq<nat>, v: nat)
    requires Splits(l, a, b, v) && Splits(l', a', b', v)
    ensures Splits(l + l', a + a', b + b', v)
  {
    CountsAppend(l, l', v);
    CountsAppend(a, a', v);
    CountsAppend(b, b', v);
  }

  /** What the scan lists is in memory, or on disk only. */
  lemma {:induction false} ListedSplits(es: Shard, now: nat, v: nat)
    ensures Splits(Leases(es, Listed(now)), Leases(es, Unpinned(now)), Leases(es, DiskListed(now)), v)
    ensures Splits(Leases(es, ListedPinned(now)), Leases(es, Pinned(now)), Leases(es, DiskPinned(now)), v)
  {
    if es != [] {
      var head, tail := [es[0]], es[1..];
      assert es == head + tail;
      ListedSplits(tail, now, v);
      HeadSplits(es[0], now, v);
      SplitsOver(head, tail, Listed(now), Unpinned(now), DiskListed(now), v);
      SplitsOver(head, tail, ListedPinned(now), Pinned(now), DiskPinned(now), v);
    }
  }

  lemma SplitsOver(a: Shard, b: Shard, f: Filter, g: Filter, h: Filter, v: nat)
    requires Splits(Leases(a, f), Leases(a, g), Leases(a, h), v) && Splits(Leases(b, f), Leases(b, g), Leases(b, h), v)
    ensures Splits(Leases(a + b, f), Leases(a + b, g), Leases(a + b, h), v)
  {
    LeasesAppend(a, b, f);
    LeasesAppend(a, b, g);
    LeasesAppend(a, b, h);
    SplitsAppend(Leases(a, f), Leases(a, g), Leases(a, h), Leases(b, f), Leases(b, g), Leases(b, h), v);
  }

  lemma HeadSplits(e: Entry, now: nat, v: nat)
    ensures Splits(Leases([e], Listed(now)), Leases([e], Unpinned(now)), Leases([e], DiskListed(now)), v)
    ensures Splits(Leases([e], ListedPinned(now)), Leases([e], Pinned(now)), Leases([e], DiskPinned(now)), v)
  {
    assert forall f :: Leases([e], f) == if Picks(f, e.meta) then [e.meta.lease] else [];
  }

  /** The unpinned objects up to a timeout are the ones passes one and A pick. */
  lemma {:induction false} UnpinnedUpTo(es: Shard, now: nat, t: nat)
    ensures |Leases(es, FirstPass(now, t))| == CountLeq(Leases(es, Unpinned(now)), t)
    ensures |Leases(es, FirstPass(now, t))| + |Leases(es, FirstPassLater(now, t))| == |Leases(es, Unpinned(now))|
    ensures t <= now ==> |Leases(es, SecondPassA(now, t))| == CountLeq(Leases(es, Unpinned(now)), t)
  {
    if es != [] {
      UnpinnedUpTo(es[1..], now, t);
      if Picks(Unpinned(now), es[0].meta) {
        assert Leases(es, Unpinned(now))[1..] == Leases(es[1..], Unpinned(now));
      }
    }
  }

  lemma {:induction false} PassBPicks(es: Shard, now: nat, t: nat)
    ensures |Leases(es, SecondPassB(now, t))| == |Leases(es, Unpinned(now))| + CountLeq(Leases(es, Pinned(now)), t)
  {
    if es != [] {
      PassBPicks(es[1..], now, t);
      if Picks(Pinned(now), es[0].meta) {
        assert Leases(es, Pinned(now))[1..] == Leases(es[1..], Pinned(now));
      }
    }
  }

  // ---- sweeps

  /** One step of a sweep, seen through another filter. */
  lemma SweepHead(es: Shard, f: Filter, limit: nat, g: Filter)
    requires es != [] && limit > 0 && NeedsMemory(g)
    ensures Leases(Sweep(es, f, limit), g) ==
            if Picks(f, es[0].meta) then Leases(Sweep(es[1..], f, limit - 1), g)
            else Leases([es[0]], g) + Leases(Sweep(es[1..], f, limit), g)
  {
    if Picks(f, es[0].meta) {
      NeverAgain(es[0], g);
      LeasesAppend(Evicted(es[0]), Sweep(es[1..], f, limit - 1), g);
    } else {
      LeasesAppend([es[0]], Sweep(es[1..], f, limit), g);
    }
  }

  /** A sweep takes one object off its own class for every one it evicts. */
  lemma {:induction false} SweepCount(es: Shard, f: Filter, limit: nat, g: Filter)
    requires Within(f, g) && NeedsMemory(g)
    ensures |Leases(Sweep(es, f, limit), g)| + Min(limit, |Leases(es, f)|) == |Leases(es, g)|
    decreases |es|
  {
    if es != [] && limit > 0 {
      SweepHead(es, f, limit, g);
      SweepCount(es[1..], f, if Picks(f, es[0].meta) then limit - 1 else limit, g);
    }
  }

  /** A sweep leaves every other class as it is. */
  lemma {:induction false} SweepSpares(es: Shard, f: Filter, limit: nat, g: Filter)
    requires Apart(f, g) && NeedsMemory(g)
    ensures Leases(Sweep(es, f, limit), g) == Leases(es, g)
    decreases |es|
  {
    if es != [] && limit > 0 {
      SweepHead(es, f, limit, g);
      SweepSpares(es[1..], f, if Picks(f, es[0].meta) then limit - 1 else limit, g);
    }
  }

  /** After the first pass the unpinned objects left are the later ones, in order. */
  lemma {:induction false} FirstPassLeaves(es: Shard, now: nat, t: nat, limit: nat)
    requires limit >= |es|
    ensures Leases(Sweep(es, FirstPass(now, t), limit), Unpinned(now)) == Leases(es, FirstPassLater(now, t))
    decreases |es|
  {
    if es != [] {
      var f := FirstPass(now, t);
      SweepHead(es, f, limit, Unpinned(now));
      FirstPassLeaves(es[1..], now, t, if Picks(f, es[0].meta) then limit - 1 else limit);
    }
  }

  // ---- what may happen to an entry

  /** e is an entry of es, or what eviction leaves of one that g picks. */
  ghost predicate Traced(e: Entry, es: Shard, g: Filter) {
    e in es || exists x :: x in es && Picks(g, x.meta) && Evicted(x) == [e]
  }

  /** `after` is `before` with nothing evicted but entries that g picks. */
  ghost predicate OnlyEvicts(before: Shard, after: Shard, g: Filter) {
    && (forall e :: e in before && !Picks(g, e.meta) ==> e in after)
    && (forall e :: e in after ==> Traced(e, before, g))
  }

  /** One more entry in front, kept or evicted. */
  lemma OnlyCons(e: Entry, es: Shard, head: Shard, after: Shard, g: Filter)
    requires OnlyEvicts(es, after, g) && (head == [e] || (Picks(g, e.meta) && head == Evicted(e)))
    ensures OnlyEvicts([e] + es, head + after, g)
  {
  }

  lemma {:induction false} SweepOnly(es: Shard, f: Filter, limit: nat, g: Filter)
    requires Within(f, g)
    ensures OnlyEvicts(es, Sweep(es, f, limit), g)
    decreases |es|
  {
    if es == [] || limit == 0 {
      assert forall e :: e in es ==> Traced(e, es, g);
    } else {
      var e, tail := es[0], es[1..];
      assert es == [e] + tail;
      if Picks(f, e.meta) {
        SweepOnly(tail, f, limit - 1, g);
        OnlyCons(e, tail, Evicted(e), Sweep(tail, f, limit - 1), g);
      } else {
        SweepOnly(tail, f, limit, g);
        OnlyCons(e, tail, [e], Sweep(tail, f, limit), g);
      }
    }
  }
}
