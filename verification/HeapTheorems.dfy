/** What every run of the offset allocator promises its callers. */
module HeapTheorems {
  import opened SmallFloat
  import opened HeapModel

  ghost function UsedBlocks(bs: seq<Block>): set<Block> {
    set b | b in bs && b.used
  }

  function FreeTotal(bs: seq<Block>): nat {
    if bs == [] then 0 else (if bs[0].used then 0 else bs[0].size) + FreeTotal(bs[1..])
  }

  function UsedTotal(bs: seq<Block>): nat {
    if bs == [] then 0 else (if bs[0].used then bs[0].size else 0) + UsedTotal(bs[1..])
  }

  /** The allocator's report: the floor of the highest non-empty bin, 0 when out of node slots. */
  function LargestFreeRegion(h: Heap): nat
    requires |h.bins| == NUM_LEAF_BINS
  {
    var n := LastBin(h.bins, |h.bins|);
    if |h.blocks| < h.maxCapacity && n > 0 then FloatToUint(n - 1) else 0
  }

  // ---- non-overlap and conservation

  /** Blocks at different places never overlap. */
  lemma {:induction false} BlocksDisjoint(bs: seq<Block>, size: nat, i: nat, j: nat)
    requires Tiles(bs, size) && i < j < |bs|
    ensures bs[i].offset + bs[i].size <= bs[j].offset <= bs[j].offset + bs[j].size <= size
    decreases j
  {
    BlockWithin(bs, size, j);
    assert Follows(bs, j);
    if i < j - 1 { BlocksDisjoint(bs, size, i, j - 1); }
  }

  lemma {:induction false} TotalsAppend(a: seq<Block>, b: seq<Block>)
    ensures FreeTotal(a + b) == FreeTotal(a) + FreeTotal(b)
    ensures UsedTotal(a + b) == UsedTotal(a) + UsedTotal(b)
  {
    if a == [] {
      assert a + b == b;
    } else {
      assert (a + b)[1..] == a[1..] + b;
      TotalsAppend(a[1..], b);
    }
  }

  lemma {:induction false} TotalsOfPrefix(bs: seq<Block>, size: nat, n: nat)
    requires Tiles(bs, size) && 0 < n <= |bs|
    ensures FreeTotal(bs[..n]) + UsedTotal(bs[..n]) == bs[n - 1].offset + bs[n - 1].size
  {
    assert bs[..n] == bs[..n - 1] + [bs[n - 1]];
    TotalsAppend(bs[..n - 1], [bs[n - 1]]);
    if n > 1 {
      TotalsOfPrefix(bs, size, n - 1);
      assert Follows(bs, n - 1);
    }
  }

  /** Free and used bytes always add up to the storage. */
  lemma Conservation(h: Heap)
    requires Inv(h)
    ensures FreeTotal(h.blocks) + UsedTotal(h.blocks) == h.size
  {
    TotalsOfPrefix(h.blocks, h.size, |h.blocks|);
    assert h.blocks[..|h.blocks|] == h.blocks;
  }

  // ---- when a request is granted

  /** Granted exactly when a slot is left and some free block's bin floor covers the request. */
  lemma GrantExact(h: Heap, size: nat)
    requires Inv(h) && size < TWO32
    ensures Allocate(h, size).1.Some? <==>
            |h.blocks| < h.maxCapacity && exists b :: b in FreeBlocks(h.blocks) && size <= BinFloor(RoundDown(b.size))
  {
    GrantedIff(h, size);
    if Allocate(h, size).1.Some? {
      var bin, i := Granted(h, size);
      RoundUpGalois(size, bin);
      assert h.blocks[i] in FreeBlocks(h.blocks);
    }
    forall b | b in FreeBlocks(h.blocks) && size <= BinFloor(RoundDown(b.size))
      ensures FirstBin(h.bins, RoundUp(size)) < |h.bins|
    {
      RoundUpGalois(size, RoundDown(b.size));
      assert h.bins[RoundDown(b.size)] != [];
    }
  }

  lemma LastBinRange(h: Heap)
    requires Inv(h)
    ensures LastBin(h.bins, |h.bins|) <= LAST_BIN + 1
  {
    var n := LastBin(h.bins, |h.bins|);
    if n > 0 {
      assert h.bins[n - 1][0] in h.bins[n - 1];
      var b :| b in FreeBlocks(h.blocks) && b.id == h.bins[n - 1][0] && RoundDown(b.size) == n - 1;
      var i :| 0 <= i < |h.blocks| && h.blocks[i] == b;
      BlockWithin(h.blocks, h.size, i);
      BinRange(b.size);
    }
  }

  lemma FirstMeetsLast(bins: seq<seq<nat>>, from: nat)
    requires from <= |bins|
    ensures FirstBin(bins, from) < |bins| <==> from < LastBin(bins, |bins|)
  {
  }

  lemma FloorCovers(size: nat, bin: nat)
    requires bin <= LAST_BIN
    ensures RoundUp(size) <= bin <==> size <= FloatToUint(bin)
  {
    NoTruncation(bin);
    RoundUpGalois(size, bin);
  }

  lemma LargestServes(h: Heap, size: nat)
    requires Inv(h) && 1 <= size < TWO32 && RoundUp(size) < |h.bins|
    ensures |h.blocks| < h.maxCapacity && FirstBin(h.bins, RoundUp(size)) < |h.bins| <==> size <= LargestFreeRegion(h)
  {
    LastBinRange(h);
    FirstMeetsLast(h.bins, RoundUp(size));
    var n := LastBin(h.bins, |h.bins|);
    if n > 0 { FloorCovers(size, n - 1); }
  }

  /** The two-level search is exact: a request of at least one byte is granted
      if and only if it does not exceed the reported largest free region. */
  lemma LargestExact(h: Heap, size: nat)
    requires Inv(h) && 1 <= size < TWO32
    ensures Allocate(h, size).1.Some? <==> size <= LargestFreeRegion(h)
  {
    GrantedIff(h, size);
    LargestServes(h, size);
  }

  // ---- what a grant and a release change

  lemma SpliceUsed(bs: seq<Block>, lo: nat, hi: nat, mid: seq<Block>)
    requires DistinctIds(bs) && lo < hi <= |bs|
    ensures UsedBlocks(Splice(bs, lo, hi, mid)) == UsedBlocks(bs) - UsedBlocks(bs[lo..hi]) + UsedBlocks(mid)
    ensures FreeTotal(Splice(bs, lo, hi, mid)) + FreeTotal(bs[lo..hi]) == FreeTotal(bs) + FreeTotal(mid)
  {
    assert bs == bs[..lo] + bs[lo..hi] + bs[hi..];
    TotalsAppend(bs[..lo] + bs[lo..hi], bs[hi..]);
    TotalsAppend(bs[..lo], bs[lo..hi]);
    TotalsAppend(bs[..lo] + mid, bs[hi..]);
    TotalsAppend(bs[..lo], mid);
  }

  /** A grant adds one used block, of the rounded-up size, at the granted place; the waste
      is under an eighth of the request, and nothing already in use is touched. */
  lemma GrantEffect(h: Heap, size: nat)
    requires Inv(h) && size < TWO32 && Allocate(h, size).1.Some?
    ensures var (h', grant) := Allocate(h, size);
            var taken := Block(grant.value.id, grant.value.offset, BinFloor(RoundUp(size)), true);
            && size <= taken.size && (size >= 1 ==> 8 * (taken.size - size) < size)
            && taken !in UsedBlocks(h.blocks) && UsedBlocks(h'.blocks) == UsedBlocks(h.blocks) + {taken}
            && FreeTotal(h'.blocks) == FreeTotal(h.blocks) - taken.size
            && h'.size == h.size && h'.maxCapacity == h.maxCapacity
  {
    var bin, i := Granted(h, size);
    var b, r := h.blocks[i], BinFloor(RoundUp(size));
    if size >= 1 { RoundUpWaste(size); }
    CutEffect(h.blocks, i, r, if b.size == r then 0 else Grow(h).slots[0]);
  }

  lemma CutEffect(bs: seq<Block>, i: nat, size: nat, rest: nat)
    requires DistinctIds(bs) && i < |bs| && !bs[i].used && size <= bs[i].size
    ensures var taken := bs[i].(size := size, used := true);
            var bs' := Splice(bs, i, i + 1, Cut(bs[i], size, rest));
            && taken !in UsedBlocks(bs) && UsedBlocks(bs') == UsedBlocks(bs) + {taken}
            && FreeTotal(bs') == FreeTotal(bs) - size
  {
    var b, cut := bs[i], Cut(bs[i], size, rest);
    var taken := b.(size := size, used := true);
    SpliceUsed(bs, i, i + 1, cut);
    assert bs[i..i + 1] == [b] && UsedBlocks([b]) == {} && UsedBlocks(cut) == {taken};
    assert FreeTotal([b]) == b.size;
    assert FreeTotal(cut) == b.size - size by {
      if b.size > size { TotalsAppend([taken], [cut[1]]); assert cut == [taken] + [cut[1]]; }
    }
    forall p | p in UsedBlocks(bs) ensures p != taken { assert b in bs; }
  }

  /** A refused request changes nothing but, possibly, the slot capacity. */
  lemma RefusalEffect(h: Heap, size: nat)
    requires Inv(h) && size < TWO32 && Allocate(h, size).1.None?
    ensures Allocate(h, size).0.blocks == h.blocks && Allocate(h, size).0.bins == h.bins
  {
  }

  /** A release removes exactly the released block from the used ones. */
  lemma ReleaseEffect(h: Heap, i: nat)
    requires Inv(h) && i < |h.blocks| && h.blocks[i].used
    ensures UsedBlocks(FreeAt(h, i).blocks) == UsedBlocks(h.blocks) - {h.blocks[i]}
    ensures FreeTotal(FreeAt(h, i).blocks) == FreeTotal(h.blocks) + h.blocks[i].size
  {
    var bs, lo, hi, joined := h.blocks, JoinFrom(h.blocks, i), JoinTo(h.blocks, i), Joined(h.blocks, i);
    SpliceUsed(bs, lo, hi, [joined]);
    assert UsedBlocks([joined]) == {};
    RunTotals(bs, i);
  }

  lemma RunTotals(bs: seq<Block>, i: nat)
    requires i < |bs| && bs[i].used
    ensures UsedBlocks(bs[JoinFrom(bs, i)..JoinTo(bs, i)]) == {bs[i]}
    ensures FreeTotal(bs[JoinFrom(bs, i)..JoinTo(bs, i)]) + bs[i].size == Joined(bs, i).size == FreeTotal([Joined(bs, i)])
  {
    var lo, hi := JoinFrom(bs, i), JoinTo(bs, i);
    var run := bs[lo..hi];
    assert run == bs[lo..i] + ([bs[i]] + bs[i + 1..hi]);
    TotalsAppend(bs[lo..i], [bs[i]] + bs[i + 1..hi]);
    TotalsAppend([bs[i]], bs[i + 1..hi]);
  }

  // ---- whole runs

  datatype Request = AllocateRequest(size: nat) | FreeRequest(id: nat)

  /** A caller may ask for any 32-bit size, and may free what is in use. */
  ghost predicate Allowed(h: Heap, r: Request) {
    match r
    case AllocateRequest(size) => size < TWO32
    case FreeRequest(id) => exists b :: b in h.blocks && b.id == id && b.used
  }

  lemma UsedAt(h: Heap, id: nat)
    requires DistinctIds(h.blocks) && Allowed(h, FreeRequest(id))
    ensures (exists b :: b in h.blocks && b.id == id) && h.blocks[IndexOf(h.blocks, id)].used
  {
  }

  ghost function Serve(h: Heap, r: Request): Heap
    requires Inv(h) && Allowed(h, r)
  {
    match r
    case AllocateRequest(size) => Allocate(h, size).0
    case FreeRequest(id) => UsedAt(h, id); FreeAt(h, IndexOf(h.blocks, id))
  }

  lemma ServeInv(h: Heap, r: Request)
    requires Inv(h) && Allowed(h, r)
    ensures Inv(Serve(h, r)) && Serve(h, r).size == h.size
  {
    match r
    case AllocateRequest(size) =>
      AllocateInv(h, size);
      GrantedIff(h, size);
      if Allocate(h, size).1.Some? { GrantEffect(h, size); }
    case FreeRequest(id) =>
      UsedAt(h, id);
      FreeInv(h, IndexOf(h.blocks, id));
  }

  ghost predicate Step(h: Heap, r: Request, h': Heap) {
    Inv(h) && Allowed(h, r) && h' == Serve(h, r)
  }

  /** Serving the requests one after the other leads from h to h'. */
  ghost predicate Runs(h: Heap, requests: seq<Request>, h': Heap)
    decreases |requests|
  {
    if requests == [] then h == h' else
      var n := |requests| - 1;
      exists g :: Runs(h, requests[..n], g) && Step(g, requests[n], h')
  }

  ghost predicate LiveDisjoint(h: Heap) {
    forall p, q :: p in UsedBlocks(h.blocks) && q in UsedBlocks(h.blocks) && p.id != q.id ==>
      p.offset + p.size <= q.offset || q.offset + q.size <= p.offset
  }

  lemma InvDisjoint(h: Heap)
    requires Inv(h)
    ensures LiveDisjoint(h)
  {
    forall p, q | p in UsedBlocks(h.blocks) && q in UsedBlocks(h.blocks) && p.id != q.id
      ensures p.offset + p.size <= q.offset || q.offset + q.size <= p.offset
    {
      var i :| 0 <= i < |h.blocks| && h.blocks[i] == p;
      var j :| 0 <= j < |h.blocks| && h.blocks[j] == q;
      if i < j { BlocksDisjoint(h.blocks, h.size, i, j); } else { BlocksDisjoint(h.blocks, h.size, j, i); }
    }
  }

  /** After every run: the blocks still tile the storage, live allocations never overlap,
      and free plus used bytes are the storage. */
  lemma {:induction false} RunSafety(h: Heap, requests: seq<Request>, h': Heap)
    requires Inv(h) && Runs(h, requests, h')
    ensures Inv(h') && h'.size == h.size && LiveDisjoint(h')
    ensures FreeTotal(h'.blocks) + UsedTotal(h'.blocks) == h.size
    decreases |requests|
  {
    if requests != [] {
      var n := |requests| - 1;
      var g :| Runs(h, requests[..n], g) && Step(g, requests[n], h');
      RunSafety(h, requests[..n], g);
      ServeInv(g, requests[n]);
    }
    Conservation(h');
    InvDisjoint(h');
  }

  lemma NeighbourUsed(bs: seq<Block>)
    requires Coalesced(bs)
    ensures |bs| > 1 ==> UsedBlocks(bs) != {}
  {
    if |bs| > 1 {
      assert Separated(bs, 1);
      assert (if bs[1].used then bs[1] else bs[0]) in UsedBlocks(bs);
    }
  }

  // ---- sound heaps

  /** Inv(h), kept closed: clients pass it on as a unit and only the lemmas below look inside. */
  ghost predicate Sound(h: Heap) {
    forall k :: Opened(k) ==> Inv(h)
  }

  lemma Open(h: Heap)
    requires Sound(h)
    ensures Inv(h)
  {
    assert Opened(0);
  }

  function AllocateOn(h: Heap, size: nat): (Heap, Option<Grant>)
    requires Sound(h) && size < TWO32
  {
    Open(h);
    Allocate(h, size)
  }

  function FreeOn(h: Heap, id: nat): Heap
    requires Sound(h) && Allowed(h, FreeRequest(id))
  {
    Open(h);
    UsedAt(h, id);
    FreeAt(h, IndexOf(h.blocks, id))
  }

  function LargestOn(h: Heap): nat
    requires Sound(h)
  {
    Open(h);
    LargestFreeRegion(h)
  }

  lemma RunsOneMore(h: Heap, requests: seq<Request>, h': Heap, r: Request, h'': Heap)
    requires Runs(h, requests, h') && Step(h', r, h'')
    ensures Runs(h, requests + [r], h'')
  {
    assert (requests + [r])[..|requests|] == requests;
  }

  /** With nothing in use the storage is again a single free block. */
  lemma Drained(h: Heap)
    requires Inv(h) && UsedBlocks(h.blocks) == {}
    ensures h.blocks == [Block(h.blocks[0].id, 0, h.size, false)]
  {
    NeighbourUsed(h.blocks);
    assert h.blocks[0] !in UsedBlocks(h.blocks);
  }

  ghost function IdsInUse(bs: seq<Block>): set<nat> {
    if bs == [] then {} else (if bs[0].used then {bs[0].id} else {}) + IdsInUse(bs[1..])
  }

  ghost function UsedIds(h: Heap): set<nat> {
    IdsInUse(h.blocks)
  }

  lemma {:induction false} IdInUse(bs: seq<Block>, id: nat)
    ensures id in IdsInUse(bs) <==> exists b :: b in bs && b.used && b.id == id
  {
    if bs != [] {
      IdInUse(bs[1..], id);
      assert bs == [bs[0]] + bs[1..];
    }
  }

  lemma UsedIdsExact(h: Heap)
    ensures UsedIds(h) == set b | b in UsedBlocks(h.blocks) :: b.id
  {
    var ids := set b | b in UsedBlocks(h.blocks) :: b.id;
    forall x
      ensures x in UsedIds(h) <==> x in ids
    {
      IdInUse(h.blocks, x);
      if x in UsedIds(h) {
        var b :| b in h.blocks && b.used && b.id == x;
        assert b in UsedBlocks(h.blocks);
      }
    }
  }

  lemma NoIds(h: Heap)
    ensures UsedIds(h) == {} ==> UsedBlocks(h.blocks) == {}
  {
    UsedIdsExact(h);
    if UsedBlocks(h.blocks) != {} {
      var b :| b in UsedBlocks(h.blocks);
      assert b.id in UsedIds(h);
    }
  }

  lemma FreeOne(h: Heap, id: nat)
    requires Inv(h) && id in UsedIds(h)
    ensures Allowed(h, FreeRequest(id)) && Inv(Serve(h, FreeRequest(id)))
    ensures Serve(h, FreeRequest(id)).size == h.size
    ensures UsedIds(Serve(h, FreeRequest(id))) == UsedIds(h) - {id}
  {
    IdInUse(h.blocks, id);
    var b :| b in h.blocks && b.id == id && b.used;
    var i := IndexOf(h.blocks, id);
    assert h.blocks[i] == b;
    ServeInv(h, FreeRequest(id));
    ReleaseEffect(h, i);
    UsedIdsAfter(h, FreeAt(h, i), b);
  }

  function FreeRequests(ids: seq<nat>): seq<Request> {
    if ids == [] then [] else FreeRequests(ids[..|ids| - 1]) + [FreeRequest(ids[|ids| - 1])]
  }

  lemma PrefixSet(ids: seq<nat>)
    requires Distinct(ids) && ids != []
    ensures var p, x := ids[..|ids| - 1], ids[|ids| - 1];
            Distinct(p) && (set y | y in ids) == (set y | y in p) + {x} && x !in (set y | y in p)
  {
  }

  lemma FreeOneMore(h: Heap, requests: seq<Request>, g: Heap, id: nat) returns (h': Heap)
    requires Runs(h, requests, g) && Sound(g) && id in UsedIds(g)
    ensures Runs(h, requests + [FreeRequest(id)], h') && Sound(h') && h'.size == g.size && UsedIds(h') == UsedIds(g) - {id}
  {
    Open(g);
    FreeOne(g, id);
    h' := Serve(g, FreeRequest(id));
    RunsOneMore(h, requests, g, FreeRequest(id), h');
  }

  lemma {:induction false} FreeSome(h: Heap, ids: seq<nat>) returns (h': Heap)
    requires Sound(h) && Distinct(ids) && (set x | x in ids) <= UsedIds(h)
    ensures Runs(h, FreeRequests(ids), h') && Sound(h') && h'.size == h.size
    ensures UsedIds(h') == UsedIds(h) - (set x | x in ids)
    decreases |ids|
  {
    if ids == [] {
      h' := h;
    } else {
      var n := |ids| - 1;
      PrefixSet(ids);
      var g := FreeSome(h, ids[..n]);
      h' := FreeOneMore(h, FreeRequests(ids[..n]), g, ids[n]);
    }
  }

  /** Freeing everything that is in use, in any order, restores one free region of full size. */
  lemma FreeAll(h: Heap, ids: seq<nat>) returns (h': Heap)
    requires Inv(h) && Distinct(ids) && (set x | x in ids) == UsedIds(h)
    ensures Runs(h, FreeRequests(ids), h')
    ensures h'.blocks != [] && h'.blocks == [Block(h'.blocks[0].id, 0, h.size, false)]
  {
    h' := FreeSome(h, ids);
    Open(h');
    NoIds(h');
    Drained(h');
  }

  lemma UsedIdsAfter(h: Heap, h': Heap, b: Block)
    requires DistinctIds(h.blocks) && b in UsedBlocks(h.blocks)
    requires UsedBlocks(h'.blocks) == UsedBlocks(h.blocks) - {b}
    ensures UsedIds(h') == UsedIds(h) - {b.id}
  {
    UsedIdsExact(h);
    UsedIdsExact(h');
    forall p | p in UsedBlocks(h.blocks) && p.id == b.id ensures p == b { }
  }

  /** What was granted for `size` can be granted again as soon as it is freed, if a slot is left. */
  lemma ReuseAfterFree(h: Heap, i: nat, size: nat)
    requires Inv(h) && i < |h.blocks| && h.blocks[i].used && size < TWO32
    requires h.blocks[i].size == BinFloor(RoundUp(size))
    ensures Inv(FreeAt(h, i))
    ensures Allocate(FreeAt(h, i), size).1.Some? <==> |FreeAt(h, i).blocks| < h.maxCapacity
  {
    FreeInv(h, i);
    var h' := FreeAt(h, i);
    GrantExact(h', size);
    var joined := Joined(h.blocks, i);
    assert joined in FreeBlocks(h'.blocks);
    RoundUpGalois(size, RoundUp(size));
    RoundDownGalois(joined.size, RoundUp(size));
    RoundUpGalois(size, RoundDown(joined.size));
  }
}
