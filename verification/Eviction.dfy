/**
  BatchEvict run on its own: two passes over all shards that evict the memory
  replicas of near-least-recently leased objects. The map of a shard is the
  sequence of its entries in iteration order.
*/
module Eviction {
  import opened HeapModel
  import opened ObjectMetadata

  datatype Entry = Entry(key: string, meta: Metadata)

  type Shard = seq<Entry>

  // ---- selecting and sweeping entries

  /** The conditions under which the loops of BatchEvict select an object. */
  datatype Filter =
    | Unpinned(now: nat)
    | Pinned(now: nat)
    | AnyPin(now: nat)
    | Listed(now: nat)
    | ListedPinned(now: nat)
    | DiskListed(now: nat)
    | DiskPinned(now: nat)
    | FirstPass(now: nat, target: nat)
    | FirstPassLater(now: nat, target: nat)
    | SecondPassA(now: nat, target: nat)
    | SecondPassB(now: nat, target: nat)

  /** Expired lease and no memory replica still being written. */
  predicate Eligible(m: Metadata, now: nat) {
    Expired(m, now) && !HasDiffRepStatus(m, COMPLETE, MEMORY)
  }

  predicate Picks(f: Filter, m: Metadata) {
    match f
    case Unpinned(now) => Eligible(m, now) && HasMemReplica(m) && !SoftPinned(m, now)
    case Pinned(now) => Eligible(m, now) && HasMemReplica(m) && SoftPinned(m, now)
    case AnyPin(now) => Eligible(m, now) && HasMemReplica(m)
    case Listed(now) => Eligible(m, now) && !SoftPinned(m, now)
    case ListedPinned(now) => Eligible(m, now) && SoftPinned(m, now)
    case DiskListed(now) => Eligible(m, now) && !HasMemReplica(m) && !SoftPinned(m, now)
    case DiskPinned(now) => Eligible(m, now) && !HasMemReplica(m) && SoftPinned(m, now)
    case FirstPass(now, target) => Eligible(m, now) && HasMemReplica(m) && !SoftPinned(m, now) && m.lease <= target
    case FirstPassLater(now, target) => Eligible(m, now) && HasMemReplica(m) && !SoftPinned(m, now) && m.lease > target
    case SecondPassA(now, target) =>
      m.lease <= target && !SoftPinned(m, now) && !HasDiffRepStatus(m, COMPLETE, MEMORY) && HasMemReplica(m)
    case SecondPassB(now, target) =>
      Eligible(m, now) && HasMemReplica(m) && (!SoftPinned(m, now) || m.lease <= target)
  }

  /** Lease timeouts of the picked entries, in iteration order. */
  function Leases(es: Shard, f: Filter): seq<nat> {
    if es == [] then []
    else if Picks(f, es[0].meta) then [es[0].meta.lease] + Leases(es[1..], f)
    else Leases(es[1..], f)
  }

  /** An evicted entry loses its memory replicas and disappears if nothing valid is left. */
  function Evicted(e: Entry): Shard {
    var m := EraseReplica(e.meta, MEMORY);
    if IsValid(m) then [Entry(e.key, m)] else []
  }

  /** Evict picked entries in iteration order, at most `limit` of them. */
  function Sweep(es: Shard, f: Filter, limit: nat): Shard {
    if es == [] || limit == 0 then es
    else if Picks(f, es[0].meta) then Evicted(es[0]) + Sweep(es[1..], f, limit - 1)
    else [es[0]] + Sweep(es[1..], f, limit)
  }

  /** Evicts the entry at i in place; `next` is the index the iterator moves to. */
  method EvictAt(es: Shard, i: nat) returns (r: Shard, next: nat)
    requires i < |es|
    ensures r == es[..i] + Evicted(es[i]) + es[i + 1..] && next == i + |Evicted(es[i])|
  {
    var m := EraseReplica(es[i].meta, MEMORY);
    if IsValid(m) {
      r, next := es[i := Entry(es[i].key, m)], i + 1;
    } else {
      r, next := es[..i] + es[i + 1..], i;
    }
  }

  lemma Assoc<T>(a: seq<T>, b: seq<T>, c: seq<T>)
    ensures a + (b + c) == (a + b) + c
  {
  }

  /** A sweep has turned a prefix of es into `done` and has `rest` still to do. */
  ghost predicate SweptTo(es: Shard, f: Filter, limit: nat, done: Shard, rest: Shard, evicted: nat) {
    && evicted <= limit
    && Sweep(es, f, limit) == done + Sweep(rest, f, limit - evicted)
    && |Leases(es, f)| == evicted + |Leases(rest, f)|
  }

  lemma SweepOne(es: Shard, f: Filter, limit: nat, done: Shard, rest: Shard, evicted: nat)
    requires SweptTo(es, f, limit, done, rest, evicted) && rest != [] && evicted < limit
    ensures Picks(f, rest[0].meta) ==> SweptTo(es, f, limit, done + Evicted(rest[0]), rest[1..], evicted + 1)
    ensures !Picks(f, rest[0].meta) ==> SweptTo(es, f, limit, done + [rest[0]], rest[1..], evicted)
  {
    if Picks(f, rest[0].meta) {
      Assoc(done, Evicted(rest[0]), Sweep(rest[1..], f, limit - evicted - 1));
    } else {
      Assoc(done, [rest[0]], Sweep(rest[1..], f, limit - evicted));
    }
  }

  /** The eviction loop of a second pass over one shard. */
  method EvictFrom(es: Shard, f: Filter, limit: nat) returns (r: Shard, evicted: nat)
    ensures r == Sweep(es, f, limit) && evicted == Min(limit, |Leases(es, f)|)
  {
    var i := 0;
    r, evicted := es, 0;
    ghost var done, rest: Shard := [], es;
    while i < |r| && evicted < limit
      invariant |done| == i && r == done + rest && SweptTo(es, f, limit, done, rest, evicted)
      decreases |rest|
    {
      assert rest[0] == r[i] && r[..i] == done && r[i + 1..] == rest[1..];
      SweepOne(es, f, limit, done, rest, evicted);
      if Picks(f, r[i].meta) {
        r, i := EvictAt(r, i);
        evicted := evicted + 1;
        done := done + Evicted(rest[0]);
      } else {
        i := i + 1;
        done := done + [rest[0]];
      }
      rest := rest[1..];
    }
  }

  // ---- the n-th smallest lease timeout

  function CountLeq(s: seq<nat>, v: nat): nat {
    if s == [] then 0 else (if s[0] <= v then 1 else 0) + CountLeq(s[1..], v)
  }

  function CountLess(s: seq<nat>, v: nat): nat {
    if s == [] then 0 else (if s[0] < v then 1 else 0) + CountLess(s[1..], v)
  }

  /** v is at place n, counted from 1, of s in sorted order. */
  ghost predicate IsNth(s: seq<nat>, n: nat, v: nat) {
    v in s && CountLess(s, v) < n <= CountLeq(s, v)
  }

  lemma {:induction false} CountsAppend(a: seq<nat>, b: seq<nat>, v: nat)
    ensures CountLeq(a + b, v) == CountLeq(a, v) + CountLeq(b, v)
    ensures CountLess(a + b, v) == CountLess(a, v) + CountLess(b, v)
  {
    if a == [] {
      assert a + b == b;
    } else {
      assert (a + b)[1..] == a[1..] + b;
      CountsAppend(a[1..], b, v);
    }
  }

  lemma {:induction false} CountAllLeq(s: seq<nat>, v: nat)
    requires forall i :: 0 <= i < |s| ==> s[i] <= v
    ensures CountLeq(s, v) == |s|
  {
    if s != [] { CountAllLeq(s[1..], v); }
  }

  lemma {:induction false} CountNoneLess(s: seq<nat>, v: nat)
    requires forall i :: 0 <= i < |s| ==> v <= s[i]
    ensures CountLess(s, v) == 0
  {
    if s != [] { CountNoneLess(s[1..], v); }
  }

  lemma {:induction false} CountAtMost(s: seq<nat>, v: nat)
    ensures CountLess(s, v) <= |s| && CountLeq(s, v) <= |s|
  {
    if s != [] { CountAtMost(s[1..], v); }
  }

  lemma RemoveSame(x: nat, a: seq<nat>, p: seq<nat>, q: seq<nat>)
    requires multiset([x] + a) == multiset(p + ([x] + q))
    ensures multiset(a) == multiset(p + q)
  {
    assert multiset([x] + a) == multiset{x} + multiset(a);
    assert multiset(p + ([x] + q)) == multiset{x} + multiset(p + q);
    assert multiset{x} + multiset(a) - multiset{x} == multiset(a);
    assert multiset{x} + multiset(p + q) - multiset{x} == multiset(p + q);
  }

  /** Counting does not depend on the order. */
  lemma {:induction false} CountsPermute(a: seq<nat>, b: seq<nat>, v: nat)
    requires multiset(a) == multiset(b)
    ensures CountLeq(a, v) == CountLeq(b, v) && CountLess(a, v) == CountLess(b, v)
  {
    if a == [] {
      assert |multiset(b)| == |b|;
    } else {
      assert a[0] in multiset(b);
      var k :| 0 <= k < |b| && b[k] == a[0];
      assert a == [a[0]] + a[1..] && b == b[..k] + ([b[k]] + b[k + 1..]);
      RemoveSame(a[0], a[1..], b[..k], b[k + 1..]);
      CountsPermute(a[1..], b[..k] + b[k + 1..], v);
      CountsAppend(b[..k], [b[k]] + b[k + 1..], v);
      CountsAppend([b[k]], b[k + 1..], v);
      CountsAppend(b[..k], b[k + 1..], v);
    }
  }

  method IndexOfMin(s: seq<nat>) returns (k: nat)
    requires s != []
    ensures k < |s| && forall x :: x in s ==> s[k] <= x
  {
    k := 0;
    for i := 1 to |s|
      invariant k < |s| && forall j :: 0 <= j < i ==> s[k] <= s[j]
    {
      if s[i] < s[k] { k := i; }
    }
  }

  /** `gone` holds the smallest elements of s, `rest` the others. */
  ghost predicate Selected(s: seq<nat>, gone: seq<nat>, rest: seq<nat>) {
    && multiset(s) == multiset(gone + rest)
    && forall j, k :: 0 <= j < |gone| && 0 <= k < |rest| ==> gone[j] <= rest[k]
  }

  lemma SelectOne(s: seq<nat>, gone: seq<nat>, rest: seq<nat>, k: nat)
    requires Selected(s, gone, rest) && k < |rest| && forall x :: x in rest ==> rest[k] <= x
    ensures Selected(s, gone + [rest[k]], rest[..k] + rest[k + 1..]) && rest[k] in s
    ensures forall j :: 0 <= j < |gone| ==> gone[j] <= rest[k]
  {
    var v, rest' := rest[k], rest[..k] + rest[k + 1..];
    assert rest == rest[..k] + [v] + rest[k + 1..];
    assert multiset(gone + [v] + rest') == multiset(gone + rest);
    assert v in multiset(gone + rest);
    forall i | 0 <= i < |rest'| ensures rest'[i] in rest && forall j :: 0 <= j < |gone| ==> gone[j] <= rest'[i] {
      assert rest'[i] == if i < k then rest[i] else rest[i + 1];
    }
  }

  lemma SelectedIsNth(s: seq<nat>, gone: seq<nat>, v: nat, rest: seq<nat>)
    requires Selected(s, gone + [v], rest) && v in s && forall j :: 0 <= j < |gone| ==> gone[j] <= v
    ensures IsNth(s, |gone| + 1, v)
  {
    CountsPermute(s, gone + [v] + rest, v);
    CountsAppend(gone + [v], rest, v);
    CountAllLeq(gone + [v], v);
    assert forall k :: 0 <= k < |rest| ==> (gone + [v])[|gone|] <= rest[k];
    CountNoneLess(rest, v);
    CountsAppend(gone, [v], v);
    CountAtMost(gone, v);
  }

  lemma {:induction false} CountsMonotone(s: seq<nat>, v: nat, w: nat)
    requires v < w
    ensures CountLeq(s, v) <= CountLess(s, w)
  {
    if s != [] { CountsMonotone(s[1..], v, w); }
  }

  lemma NthUnique(s: seq<nat>, n: nat, v: nat, w: nat)
    requires IsNth(s, n, v) && IsNth(s, n, w)
    ensures v == w
  {
    if v < w { CountsMonotone(s, v, w); }
    if w < v { CountsMonotone(s, w, v); }
  }

  lemma {:induction false} MinAt(s: seq<nat>) returns (k: nat)
    requires s != []
    ensures k < |s| && forall x :: x in s ==> s[k] <= x
  {
    if |s| == 1 {
      k := 0;
    } else {
      var j := MinAt(s[1..]);
      k := if s[0] <= s[1..][j] then 0 else j + 1;
      assert s == [s[0]] + s[1..];
    }
  }

  lemma {:induction false} NthExists(s: seq<nat>, gone: seq<nat>, rest: seq<nat>, n: nat)
    requires Selected(s, gone, rest) && |gone| < n <= |gone| + |rest|
    ensures exists v :: IsNth(s, n, v)
    decreases |rest|
  {
    var k := MinAt(rest);
    SelectOne(s, gone, rest, k);
    var rest' := rest[..k] + rest[k + 1..];
    SelectedIsNth(s, gone, rest[k], rest');
    if |gone| + 1 < n { NthExists(s, gone + [rest[k]], rest', n); }
  }

  /** The value at place n, counted from 1, of s in sorted order. */
  ghost function Nth(s: seq<nat>, n: nat): (v: nat)
    requires 1 <= n <= |s|
    ensures IsNth(s, n, v)
  {
    assert [] + s == s;
    NthExists(s, [], s, n);
    var v :| IsNth(s, n, v);
    v
  }

  /** What nth_element leaves at index n - 1, by selection. */
  method NthSmallest(s: seq<nat>, n: nat) returns (v: nat)
    requires 1 <= n <= |s|
    ensures v == Nth(s, n)
  {
    var rest := s;
    ghost var gone: seq<nat> := [];
    v := s[0];
    for i := 0 to n
      invariant |gone| == i && |rest| == |s| - i && Selected(s, gone, rest)
      invariant i > 0 ==> IsNth(s, i, v)
    {
      var k := IndexOfMin(rest);
      v := rest[k];
      SelectOne(s, gone, rest, k);
      rest := rest[..k] + rest[k + 1..];
      SelectedIsNth(s, gone, v, rest);
      gone := gone + [v];
    }
    NthUnique(s, n, v, Nth(s, n));
  }
}
