/**
  The offset allocator's storage seen as a plain value: the blocks in address
  order, the contents of every bin, and the stack of node slots. `Allocate` and
  `Free` say what the array-and-bitmap implementation (module NodeAllocator)
  computes; everything promised about allocation is proved here, for every heap
  that satisfies `Inv`.
*/
module HeapModel {
  import opened SmallFloat

  const NUM_LEAF_BINS: nat := 256

  /**
    Guards an invariant that is passed on as a unit: `forall k :: Opened(k) ==> I`
    says I, and an instance of the guard opens it. To prove a closed fact is to
    open all closed facts with the same guard, so facts that meet in one proof
    and should not open each other have guards of their own.
  */
  predicate Opened(k: nat) {
    true
  }

  /** Guards the definition of a function where only its name is needed; an invariant that is opened should not unfold it. */
  predicate Named(k: nat) {
    true
  }

  datatype Option<T> = None | Some(value: T)

  function Min(a: int, b: int): int {
    if a < b then a else b
  }

  datatype Block = Block(id: nat, offset: nat, size: nat, used: bool)

  /** `slots` is the unused part of the node-slot stack, top first. */
  datatype Heap = Heap(size: nat, maxCapacity: nat, capacity: nat,
                       slots: seq<nat>, blocks: seq<Block>, bins: seq<seq<nat>>)

  datatype Grant = Grant(offset: nat, id: nat)

  // ---- well-formed heaps

  ghost predicate Distinct(s: seq<nat>) {
    forall i, j :: 0 <= i < j < |s| ==> s[i] != s[j]
  }

  ghost predicate DistinctIds(bs: seq<Block>) {
    forall i, j :: 0 <= i < j < |bs| ==> bs[i].id != bs[j].id
  }

  ghost predicate Follows(bs: seq<Block>, i: nat)
    requires 0 < i < |bs|
  {
    bs[i].offset == bs[i - 1].offset + bs[i - 1].size
  }

  ghost predicate Separated(bs: seq<Block>, i: nat)
    requires 0 < i < |bs|
  {
    bs[i].used || bs[i - 1].used
  }

  /** The blocks cover [0, size) in address order, with no gap and no overlap. */
  ghost predicate Tiles(bs: seq<Block>, size: nat) {
    && |bs| > 0 && bs[0].offset == 0
    && (forall i :: 0 < i < |bs| ==> Follows(bs, i))
    && bs[|bs| - 1].offset + bs[|bs| - 1].size == size
  }

  ghost predicate Coalesced(bs: seq<Block>) {
    forall i :: 0 < i < |bs| ==> Separated(bs, i)
  }

  /** Blocks and unused slots together are exactly the slots below the capacity. */
  ghost predicate SlotsPartition(bs: seq<Block>, slots: seq<nat>, capacity: nat) {
    && |bs| + |slots| == capacity
    && Distinct(slots) && DistinctIds(bs)
    && (forall k :: 0 <= k < |slots| ==> slots[k] < capacity)
    && (forall b :: b in bs ==> b.id < capacity && b.id !in slots)
  }

  ghost function FreeBlocks(bs: seq<Block>): set<Block> {
    set b | b in bs && !b.used
  }

  ghost predicate UniqueIds(free: set<Block>) {
    forall p, q :: p in free && q in free && p.id == q.id ==> p == q
  }

  /** Every bin lists exactly the free blocks of its size class, each once. */
  ghost predicate BinsExact(free: set<Block>, bins: seq<seq<nat>>) {
    && |bins| == NUM_LEAF_BINS
    && (forall bin :: 0 <= bin < |bins| ==> Distinct(bins[bin]))
    && (forall b :: b in free ==> RoundDown(b.size) < |bins| && b.id in bins[RoundDown(b.size)])
    && (forall bin, x :: 0 <= bin < |bins| && x in bins[bin] ==> exists b :: b in free && b.id == x && RoundDown(b.size) == bin)
  }

  ghost predicate Inv(h: Heap) {
    && h.size < TWO32 && h.maxCapacity < TWO32
    && Tiles(h.blocks, h.size) && Coalesced(h.blocks)
    && SlotsPartition(h.blocks, h.slots, h.capacity) && h.capacity <= h.maxCapacity
    && BinsExact(FreeBlocks(h.blocks), h.bins)
  }

  // ---- operations

  function Init(size: nat, initCapacity: nat, maxCapacity: nat): Heap
    requires initCapacity >= 1 && size < TWO32
  {
    BinRange(size);
    Heap(size, if maxCapacity < initCapacity then initCapacity else maxCapacity, initCapacity,
         seq(initCapacity - 1, i => i + 1), [Block(0, 0, size, false)],
         seq(NUM_LEAF_BINS, _ => [])[RoundDown(size) := [0]])
  }

  function IndexOf(bs: seq<Block>, id: nat): (i: nat)
    requires exists b :: b in bs && b.id == id
    ensures i < |bs| && bs[i].id == id
  {
    if bs[0].id == id then 0 else 1 + IndexOf(bs[1..], id)
  }

  function PositionOf(s: seq<nat>, x: nat): (i: nat)
    requires x in s
    ensures i < |s| && s[i] == x
  {
    if s[0] == x then 0 else 1 + PositionOf(s[1..], x)
  }

  /** The first non-empty bin at or after `from`, or |bins|. */
  function FirstBin(bins: seq<seq<nat>>, from: nat): (b: nat)
    requires from <= |bins|
    ensures from <= b <= |bins|
    ensures forall k :: from <= k < b ==> bins[k] == []
    ensures b < |bins| ==> bins[b] != []
    decreases |bins| - from
  {
    if from == |bins| || bins[from] != [] then from else FirstBin(bins, from + 1)
  }

  /** One past the last non-empty bin below n. */
  function LastBin(bins: seq<seq<nat>>, n: nat): (b: nat)
    requires n <= |bins|
    ensures b <= n
    ensures forall k :: b <= k < n ==> bins[k] == []
    ensures b > 0 ==> bins[b - 1] != []
  {
    if n == 0 || bins[n - 1] != [] then n else LastBin(bins, n - 1)
  }

  function Push(bins: seq<seq<nat>>, bin: nat, id: nat): seq<seq<nat>>
    requires bin < |bins|
  {
    bins[bin := [id] + bins[bin]]
  }

  function Drop(bins: seq<seq<nat>>, bin: nat, id: nat): seq<seq<nat>>
    requires bin < |bins| && id in bins[bin]
  {
    var k := PositionOf(bins[bin], id);
    bins[bin := bins[bin][..k] + bins[bin][k + 1..]]
  }

  function Grow(h: Heap): Heap {
    if |h.blocks| == h.capacity
    then h.(slots := [h.capacity] + h.slots, capacity := h.capacity + 1) else h
  }

  /** Blocks lo..hi-1 replaced by mid. */
  function Splice(bs: seq<Block>, lo: nat, hi: nat, mid: seq<Block>): seq<Block>
    requires lo <= hi <= |bs|
  {
    bs[..lo] + mid + bs[hi..]
  }

  /** Block b cut after `size` bytes: the taken part and, unless empty, the free rest. */
  function Cut(b: Block, size: nat, rest: nat): seq<Block>
    requires size <= b.size
  {
    var taken := b.(size := size, used := true);
    if b.size == size then [taken] else [taken, Block(rest, b.offset + size, b.size - size, false)]
  }

  function JoinsLeft(bs: seq<Block>, i: nat): bool
    requires i < |bs|
  {
    i > 0 && !bs[i - 1].used
  }

  function JoinsRight(bs: seq<Block>, i: nat): bool
    requires i < |bs|
  {
    i + 1 < |bs| && !bs[i + 1].used
  }

  /** Block i together with its free neighbours, as one free block under block i's id. */
  function Joined(bs: seq<Block>, i: nat): Block
    requires i < |bs|
  {
    Block(bs[i].id,
          if JoinsLeft(bs, i) then bs[i - 1].offset else bs[i].offset,
          bs[i].size + (if JoinsLeft(bs, i) then bs[i - 1].size else 0) + (if JoinsRight(bs, i) then bs[i + 1].size else 0),
          false)
  }

  function JoinFrom(bs: seq<Block>, i: nat): (lo: nat)
    requires i < |bs|
    ensures lo <= i
  {
    if JoinsLeft(bs, i) then i - 1 else i
  }

  function JoinTo(bs: seq<Block>, i: nat): (hi: nat)
    requires i < |bs|
    ensures i < hi <= |bs|
  {
    if JoinsRight(bs, i) then i + 2 else i + 1
  }

  /** Take `size` bytes from the front of free block i, the head of its bin. */
  function Take(h: Heap, bin: nat, i: nat, size: nat): Heap
    requires i < |h.blocks| && size <= h.blocks[i].size < TWO32
    requires |h.bins| == NUM_LEAF_BINS && bin < |h.bins| && h.bins[bin] != [] && h.slots != []
  {
    var popped := h.bins[bin := h.bins[bin][1..]];
    var rem := h.blocks[i].size - size;
    BinRange(rem);
    if rem == 0 then h.(blocks := Splice(h.blocks, i, i + 1, Cut(h.blocks[i], size, 0)), bins := popped)
    else h.(blocks := Splice(h.blocks, i, i + 1, Cut(h.blocks[i], size, h.slots[0])), slots := h.slots[1..],
            bins := Push(popped, RoundDown(rem), h.slots[0]))
  }

  function Allocate(h: Heap, size: nat): (Heap, Option<Grant>)
    requires Inv(h) && size < TWO32
  {
    if |h.blocks| == h.maxCapacity then (h, None) else
      BinRange(size);
      var g := Grow(h);
      var bin := FirstBin(g.bins, RoundUp(size));
      if bin == |g.bins| then (g, None) else
        assert g.bins[bin][0] in g.bins[bin] && exists b :: b in FreeBlocks(g.blocks) && b.id == g.bins[bin][0];
        var i := IndexOf(g.blocks, g.bins[bin][0]);
        HeadFits(g.blocks, g.bins, bin, i, size);
        BlockWithin(g.blocks, g.size, i);
        (Take(g, bin, i, FloatToUint(RoundUp(size))), Some(Grant(g.blocks[i].offset, g.blocks[i].id)))
  }

  /** Every block lies inside the storage. */
  lemma {:induction false} BlockWithin(bs: seq<Block>, size: nat, i: nat)
    requires Tiles(bs, size) && i < |bs|
    ensures bs[i].offset + bs[i].size <= size
    decreases |bs| - i
  {
    if i + 1 < |bs| {
      BlockWithin(bs, size, i + 1);
      assert Follows(bs, i + 1);
    }
  }

  /** The head of any bin at or above the request's rounded-up bin is large enough. */
  lemma HeadFits(bs: seq<Block>, bins: seq<seq<nat>>, bin: nat, i: nat, size: nat)
    requires DistinctIds(bs) && BinsExact(FreeBlocks(bs), bins) && size < TWO32
    requires RoundUp(size) <= bin < |bins| && bins[bin] != []
    requires i < |bs| && bs[i].id == bins[bin][0]
    ensures !bs[i].used && RoundDown(bs[i].size) == bin
    ensures size <= BinFloor(RoundUp(size)) <= bs[i].size
    ensures bs[i].size < TWO32 ==> RoundUp(size) <= LAST_BIN && FloatToUint(RoundUp(size)) == BinFloor(RoundUp(size))
  {
    assert bins[bin][0] in bins[bin];
    var b :| b in FreeBlocks(bs) && b.id == bins[bin][0] && RoundDown(b.size) == bin;
    assert b == bs[i];
    RoundUpGalois(size, RoundUp(size));
    RoundDownGalois(bs[i].size, RoundUp(size));
    if bs[i].size < TWO32 {
      BinRange(bs[i].size);
      NoTruncation(RoundUp(size));
    }
  }

  /** Dropping a member keeps every other member, in order. */
  lemma DropMembers(bins: seq<seq<nat>>, bin: nat, id: nat)
    requires bin < |bins| && id in bins[bin] && Distinct(bins[bin])
    ensures Distinct(Drop(bins, bin, id)[bin])
    ensures forall x :: x in Drop(bins, bin, id)[bin] <==> x in bins[bin] && x != id
  {
  }

  /** The bins once block b has left its list. */
  function Unlink(bins: seq<seq<nat>>, b: Block): seq<seq<nat>>
    requires RoundDown(b.size) < |bins| && b.id in bins[RoundDown(b.size)]
  {
    Drop(bins, RoundDown(b.size), b.id)
  }

  /** The bins without the left neighbour of block i, if that is free. */
  function UnlinkLeft(bs: seq<Block>, bins: seq<seq<nat>>, i: nat): (r: seq<seq<nat>>)
    requires i < |bs| && DistinctIds(bs) && BinsExact(FreeBlocks(bs), bins)
    ensures |r| == |bins|
    ensures JoinsRight(bs, i) ==> RoundDown(bs[i + 1].size) < |r| && bs[i + 1].id in r[RoundDown(bs[i + 1].size)]
  {
    assert JoinsRight(bs, i) ==> bs[i + 1] in FreeBlocks(bs);
    if JoinsLeft(bs, i) then
      assert bs[i - 1] in FreeBlocks(bs);
      DropMembers(bins, RoundDown(bs[i - 1].size), bs[i - 1].id);
      Unlink(bins, bs[i - 1])
    else bins
  }

  function UnlinkNeighbours(bs: seq<Block>, bins: seq<seq<nat>>, i: nat): (r: seq<seq<nat>>)
    requires i < |bs| && DistinctIds(bs) && BinsExact(FreeBlocks(bs), bins)
    ensures |r| == |bins|
  {
    var left := UnlinkLeft(bs, bins, i);
    if JoinsRight(bs, i) then Unlink(left, bs[i + 1]) else left
  }

  /** Block i is given back: it absorbs its free neighbours and keeps its own slot. */
  function FreeAt(h: Heap, i: nat): Heap
    requires Inv(h) && i < |h.blocks| && h.blocks[i].used
  {
    var bs := h.blocks;
    JoinedWithin(bs, h.size, i);
    BinRange(Joined(bs, i).size);
    h.(blocks := Splice(bs, JoinFrom(bs, i), JoinTo(bs, i), [Joined(bs, i)]),
       slots := FreedSlots(bs, i) + h.slots,
       bins := Push(UnlinkNeighbours(bs, h.bins, i), RoundDown(Joined(bs, i).size), bs[i].id))
  }

  lemma JoinedWithin(bs: seq<Block>, size: nat, i: nat)
    requires Tiles(bs, size) && i < |bs|
    ensures Joined(bs, i).offset + Joined(bs, i).size <= size
  {
    BlockWithin(bs, size, if JoinsRight(bs, i) then i + 1 else i);
    assert i > 0 ==> Follows(bs, i);
    assert i + 1 < |bs| ==> Follows(bs, i + 1);
  }

  // ---- replacing a run of blocks

  lemma SpliceTiles(bs: seq<Block>, lo: nat, hi: nat, mid: seq<Block>, total: nat)
    requires Tiles(bs, total) && lo < hi <= |bs| && |mid| > 0
    requires mid[0].offset == bs[lo].offset
    requires forall k :: 0 < k < |mid| ==> Follows(mid, k)
    requires mid[|mid| - 1].offset + mid[|mid| - 1].size == bs[hi - 1].offset + bs[hi - 1].size
    ensures Tiles(Splice(bs, lo, hi, mid), total)
  {
    var r := Splice(bs, lo, hi, mid);
    forall k | 0 < k < |r|
      ensures Follows(r, k)
    {
      if k < lo {
        assert Follows(bs, k);
      } else if k == lo {
        assert r[k] == mid[0] && r[k - 1] == bs[lo - 1] && Follows(bs, lo);
      } else if k < lo + |mid| {
        assert r[k] == mid[k - lo] && r[k - 1] == mid[k - lo - 1] && Follows(mid, k - lo);
      } else {
        var j := k - lo - |mid| + hi;
        assert r[k] == bs[j] && Follows(bs, j);
        assert r[k - 1] == if j == hi then mid[|mid| - 1] else bs[j - 1];
      }
    }
    if hi < |bs| { assert r[|r| - 1] == bs[|bs| - 1]; }
  }

  lemma SpliceCoalesced(bs: seq<Block>, lo: nat, hi: nat, mid: seq<Block>)
    requires Coalesced(bs) && lo < hi <= |bs| && |mid| > 0 && Coalesced(mid)
    requires lo > 0 ==> bs[lo - 1].used || mid[0].used
    requires hi < |bs| ==> bs[hi].used || mid[|mid| - 1].used
    ensures Coalesced(Splice(bs, lo, hi, mid))
  {
    var r := Splice(bs, lo, hi, mid);
    forall k | 0 < k < |r|
      ensures Separated(r, k)
    {
      if k < lo {
        assert Separated(bs, k);
      } else if k == lo {
        assert r[k] == mid[0] && r[k - 1] == bs[lo - 1];
      } else if k < lo + |mid| {
        assert r[k] == mid[k - lo] && r[k - 1] == mid[k - lo - 1] && Separated(mid, k - lo);
      } else {
        var j := k - lo - |mid| + hi;
        assert r[k] == bs[j] && Separated(bs, j);
        assert r[k - 1] == if j == hi then mid[|mid| - 1] else bs[j - 1];
      }
    }
  }

  lemma SpliceDistinct(bs: seq<Block>, lo: nat, hi: nat, mid: seq<Block>)
    requires DistinctIds(bs) && lo < hi <= |bs| && DistinctIds(mid)
    requires forall m, b :: m in mid && b in bs[..lo] + bs[hi..] ==> m.id != b.id
    ensures DistinctIds(Splice(bs, lo, hi, mid))
  {
  }

  /** A block outside the replaced run differs from every block inside it. */
  lemma OutsideRun(bs: seq<Block>, lo: nat, hi: nat, b: Block)
    requires DistinctIds(bs) && lo < hi <= |bs| && b in bs[..lo] + bs[hi..]
    ensures b in bs && forall k :: lo <= k < hi ==> bs[k].id != b.id
  {
  }

  lemma SpliceFree(bs: seq<Block>, lo: nat, hi: nat, mid: seq<Block>)
    requires DistinctIds(bs) && lo < hi <= |bs|
    ensures FreeBlocks(Splice(bs, lo, hi, mid)) == FreeBlocks(bs) - FreeBlocks(bs[lo..hi]) + FreeBlocks(mid)
  {
  }

  // ---- linking and unlinking one block

  lemma UnlinkExact(free: set<Block>, bins: seq<seq<nat>>, b: Block)
    requires UniqueIds(free) && BinsExact(free, bins) && b in free
    ensures BinsExact(free - {b}, Unlink(bins, b))
  {
    var bin := RoundDown(b.size);
    var r := Unlink(bins, b);
    DropMembers(bins, bin, b.id);
    forall k, x | 0 <= k < |r| && x in r[k]
      ensures exists p :: p in free - {b} && p.id == x && RoundDown(p.size) == k
    {
      assert x in bins[k];
      var p :| p in free && p.id == x && RoundDown(p.size) == k;
      assert p in free - {b};
    }
  }

  lemma PopIsUnlink(bins: seq<seq<nat>>, b: Block)
    requires RoundDown(b.size) < |bins| && bins[RoundDown(b.size)] != [] && bins[RoundDown(b.size)][0] == b.id
    ensures Unlink(bins, b) == bins[RoundDown(b.size) := bins[RoundDown(b.size)][1..]]
  {
    var s := bins[RoundDown(b.size)];
    assert s[..0] + s[1..] == s[1..];
  }

  lemma PushExact(free: set<Block>, bins: seq<seq<nat>>, b: Block)
    requires BinsExact(free, bins) && RoundDown(b.size) < |bins| && forall p :: p in free ==> p.id != b.id
    ensures BinsExact(free + {b}, Push(bins, RoundDown(b.size), b.id))
  {
    var bin := RoundDown(b.size);
    var r := Push(bins, bin, b.id);
    assert b.id !in bins[bin];
    forall k, x | 0 <= k < |r| && x in r[k]
      ensures exists p :: p in free + {b} && p.id == x && RoundDown(p.size) == k
    {
      if k == bin && x == b.id {
        assert b in free + {b};
      } else {
        assert x in bins[k];
        var p :| p in free && p.id == x && RoundDown(p.size) == k;
        assert p in free + {b};
      }
    }
  }

  /** A fresh allocator is one free block. */
  lemma InitInv(size: nat, initCapacity: nat, maxCapacity: nat)
    requires 1 <= initCapacity < TWO32 && size < TWO32 && maxCapacity < TWO32
    ensures Inv(Init(size, initCapacity, maxCapacity))
  {
    BinRange(size);
    var b := Block(0, 0, size, false);
    assert FreeBlocks([b]) == {b};
  }

  // ---- Allocate keeps the invariant

  lemma GrowInv(h: Heap)
    requires Inv(h) && |h.blocks| < h.maxCapacity
    ensures Inv(Grow(h)) && Grow(h).slots != []
  {
  }

  lemma TakeSlots(bs: seq<Block>, slots: seq<nat>, capacity: nat, i: nat, size: nat)
    requires SlotsPartition(bs, slots, capacity) && slots != [] && i < |bs| && size <= bs[i].size
    ensures SlotsPartition(Splice(bs, i, i + 1, Cut(bs[i], size, slots[0])),
                           if bs[i].size == size then slots else slots[1..], capacity)
  {
  }

  lemma CutFree(bs: seq<Block>, i: nat, size: nat, rest: nat)
    requires DistinctIds(bs) && i < |bs| && !bs[i].used && size <= bs[i].size
    ensures var cut := Cut(bs[i], size, rest);
            FreeBlocks(Splice(bs, i, i + 1, cut)) ==
            FreeBlocks(bs) - {bs[i]} + (if bs[i].size == size then {} else {cut[1]})
  {
  }

  lemma PopExact(bs: seq<Block>, bins: seq<seq<nat>>, bin: nat, i: nat)
    requires DistinctIds(bs) && BinsExact(FreeBlocks(bs), bins) && i < |bs| && !bs[i].used
    requires bin == RoundDown(bs[i].size) < |bins| && bins[bin] != [] && bins[bin][0] == bs[i].id
    ensures BinsExact(FreeBlocks(bs) - {bs[i]}, bins[bin := bins[bin][1..]])
  {
    PopIsUnlink(bins, bs[i]);
    UnlinkExact(FreeBlocks(bs), bins, bs[i]);
  }

  lemma CutBins(bs: seq<Block>, bins: seq<seq<nat>>, bin: nat, i: nat, size: nat, slot: nat)
    requires DistinctIds(bs) && BinsExact(FreeBlocks(bs), bins) && i < |bs| && size < bs[i].size < TWO32 && !bs[i].used
    requires bin == RoundDown(bs[i].size) < |bins| && bins[bin] != [] && bins[bin][0] == bs[i].id
    requires forall b :: b in bs ==> b.id != slot
    ensures RoundDown(bs[i].size - size) < |bins|
    ensures BinsExact(FreeBlocks(Splice(bs, i, i + 1, Cut(bs[i], size, slot))),
                      Push(bins[bin := bins[bin][1..]], RoundDown(bs[i].size - size), slot))
  {
    var rest := Cut(bs[i], size, slot)[1];
    BinRange(rest.size);
    PopExact(bs, bins, bin, i);
    PushExact(FreeBlocks(bs) - {bs[i]}, bins[bin := bins[bin][1..]], rest);
    CutFree(bs, i, size, slot);
  }

  lemma TakeBins(h: Heap, bin: nat, i: nat, size: nat)
    requires SlotsPartition(h.blocks, h.slots, h.capacity) && BinsExact(FreeBlocks(h.blocks), h.bins) && h.slots != []
    requires i < |h.blocks| && size <= h.blocks[i].size < TWO32 && !h.blocks[i].used
    requires bin == RoundDown(h.blocks[i].size) < |h.bins| && h.bins[bin] != [] && h.bins[bin][0] == h.blocks[i].id
    ensures BinsExact(FreeBlocks(Take(h, bin, i, size).blocks), Take(h, bin, i, size).bins)
  {
    var bs, h' := h.blocks, Take(h, bin, i, size);
    if bs[i].size > size {
      BinRange(bs[i].size - size);
      assert h'.bins == Push(h.bins[bin := h.bins[bin][1..]], RoundDown(bs[i].size - size), h.slots[0]);
      assert h'.blocks == Splice(bs, i, i + 1, Cut(bs[i], size, h.slots[0]));
      CutBins(bs, h.bins, bin, i, size, h.slots[0]);
    } else {
      PopExact(bs, h.bins, bin, i);
      CutFree(bs, i, size, 0);
      assert h'.blocks == Splice(bs, i, i + 1, Cut(bs[i], size, 0)) && h'.bins == h.bins[bin := h.bins[bin][1..]];
      assert FreeBlocks(h'.blocks) == FreeBlocks(bs) - {bs[i]};
    }
  }

  lemma TakeInv(h: Heap, bin: nat, i: nat, size: nat)
    requires Inv(h) && h.slots != [] && i < |h.blocks| && size <= h.blocks[i].size && !h.blocks[i].used
    requires bin == RoundDown(h.blocks[i].size) < |h.bins| && h.bins[bin] != [] && h.bins[bin][0] == h.blocks[i].id
    ensures h.blocks[i].size < TWO32 && Inv(Take(h, bin, i, size))
  {
    BlockWithin(h.blocks, h.size, i);
    var mid := Cut(h.blocks[i], size, h.slots[0]);
    assert Take(h, bin, i, size).blocks == Splice(h.blocks, i, i + 1, mid);
    assert i > 0 ==> Separated(h.blocks, i);
    assert i + 1 < |h.blocks| ==> Separated(h.blocks, i + 1);
    SpliceTiles(h.blocks, i, i + 1, mid, h.size);
    SpliceCoalesced(h.blocks, i, i + 1, mid);
    TakeSlots(h.blocks, h.slots, h.capacity, i, size);
    TakeBins(h, bin, i, size);
  }

  lemma GrantedIff(h: Heap, size: nat)
    requires Inv(h) && size < TWO32
    ensures RoundUp(size) < |h.bins|
    ensures Allocate(h, size).1.Some? <==> |h.blocks| < h.maxCapacity && FirstBin(h.bins, RoundUp(size)) < |h.bins|
    ensures Allocate(h, size).1.None? ==> Allocate(h, size).0 == h || Allocate(h, size).0 == Grow(h)
  {
    BinRange(size);
  }

  /** Where a granted request is served from. */
  lemma Granted(h: Heap, size: nat) returns (bin: nat, i: nat)
    requires Inv(h) && size < TWO32 && Allocate(h, size).1.Some?
    ensures RoundUp(size) <= bin == FirstBin(h.bins, RoundUp(size)) < |h.bins| && i < |h.blocks| < h.maxCapacity
    ensures h.blocks[i].id == h.bins[bin][0] && !h.blocks[i].used && RoundDown(h.blocks[i].size) == bin
    ensures size <= BinFloor(RoundUp(size)) <= h.blocks[i].size < TWO32
    ensures RoundUp(size) <= LAST_BIN && Grow(h).slots != []
    ensures Allocate(h, size) == (Take(Grow(h), bin, i, BinFloor(RoundUp(size))), Some(Grant(h.blocks[i].offset, h.blocks[i].id)))
  {
    GrantedIff(h, size);
    var g := Grow(h);
    bin := FirstBin(g.bins, RoundUp(size));
    assert g.bins[bin][0] in g.bins[bin] && exists b :: b in FreeBlocks(g.blocks) && b.id == g.bins[bin][0];
    i := IndexOf(g.blocks, g.bins[bin][0]);
    HeadFits(g.blocks, g.bins, bin, i, size);
    BlockWithin(g.blocks, g.size, i);
  }

  lemma AllocateInv(h: Heap, size: nat)
    requires Inv(h) && size < TWO32
    ensures Inv(Allocate(h, size).0)
  {
    GrantedIff(h, size);
    if |h.blocks| < h.maxCapacity {
      GrowInv(h);
      if Allocate(h, size).1.Some? {
        var bin, i := Granted(h, size);
        TakeInv(Grow(h), bin, i, BinFloor(RoundUp(size)));
      }
    }
  }

  // ---- Free keeps the invariant

  lemma JoinShape(bs: seq<Block>, i: nat, total: nat)
    requires Tiles(bs, total) && Coalesced(bs) && i < |bs| && bs[i].used
    ensures Tiles(Splice(bs, JoinFrom(bs, i), JoinTo(bs, i), [Joined(bs, i)]), total)
    ensures Coalesced(Splice(bs, JoinFrom(bs, i), JoinTo(bs, i), [Joined(bs, i)]))
  {
    assert i > 0 ==> Follows(bs, i);
    assert i > 1 ==> Separated(bs, i - 1);
    assert i + 1 < |bs| ==> Follows(bs, i + 1);
    assert i + 2 < |bs| ==> Separated(bs, i + 2);
    SpliceTiles(bs, JoinFrom(bs, i), JoinTo(bs, i), [Joined(bs, i)], total);
    SpliceCoalesced(bs, JoinFrom(bs, i), JoinTo(bs, i), [Joined(bs, i)]);
  }

  /** The slots given back by a merge, last pushed first. */
  function FreedSlots(bs: seq<Block>, i: nat): seq<nat>
    requires i < |bs|
  {
    (if JoinsRight(bs, i) then [bs[i + 1].id] else []) + (if JoinsLeft(bs, i) then [bs[i - 1].id] else [])
  }

  lemma FreeSlots(bs: seq<Block>, slots: seq<nat>, capacity: nat, i: nat)
    requires SlotsPartition(bs, slots, capacity) && i < |bs|
    ensures SlotsPartition(Splice(bs, JoinFrom(bs, i), JoinTo(bs, i), [Joined(bs, i)]), FreedSlots(bs, i) + slots, capacity)
  {
    var lo, hi, mid := JoinFrom(bs, i), JoinTo(bs, i), [Joined(bs, i)];
    var freed := FreedSlots(bs, i);
    forall b | b in bs[..lo] + bs[hi..]
      ensures b in bs && b.id != bs[i].id && b.id !in freed
    {
      OutsideRun(bs, lo, hi, b);
    }
    SpliceDistinct(bs, lo, hi, mid);
    assert Distinct(freed);
    forall x | x in freed
      ensures x !in slots && x < capacity && x != bs[i].id
    {
      assert x == bs[lo].id || x == bs[hi - 1].id;
      assert bs[lo] in bs && bs[hi - 1] in bs;
    }
    assert bs[i] in bs;
  }

  lemma FreeOfRun(bs: seq<Block>, i: nat)
    requires i < |bs| && bs[i].used
    ensures FreeBlocks(bs[JoinFrom(bs, i)..JoinTo(bs, i)]) ==
            (if JoinsLeft(bs, i) then {bs[i - 1]} else {}) + (if JoinsRight(bs, i) then {bs[i + 1]} else {})
  {
  }

  lemma UnlinkNeighboursExact(bs: seq<Block>, bins: seq<seq<nat>>, i: nat)
    requires DistinctIds(bs) && BinsExact(FreeBlocks(bs), bins) && i < |bs| && bs[i].used
    ensures BinsExact(FreeBlocks(bs) - FreeBlocks(bs[JoinFrom(bs, i)..JoinTo(bs, i)]), UnlinkNeighbours(bs, bins, i))
  {
    var free := FreeBlocks(bs);
    FreeOfRun(bs, i);
    if JoinsLeft(bs, i) {
      var l := bs[i - 1];
      UnlinkExact(free, bins, l);
      if JoinsRight(bs, i) {
        var r := bs[i + 1];
        assert r in free - {l};
        UnlinkExact(free - {l}, Unlink(bins, l), r);
        assert free - {l} - {r} == free - ({l} + {r});
      } else {
        assert free - {l} == free - ({l} + {});
      }
    } else if JoinsRight(bs, i) {
      UnlinkExact(free, bins, bs[i + 1]);
      assert free - {bs[i + 1]} == free - ({} + {bs[i + 1]});
    } else {
      assert free == free - ({} + {});
    }
  }

  lemma FreeInv(h: Heap, i: nat)
    requires Inv(h) && i < |h.blocks| && h.blocks[i].used
    ensures Inv(FreeAt(h, i))
  {
    var bs, lo, hi, joined := h.blocks, JoinFrom(h.blocks, i), JoinTo(h.blocks, i), Joined(h.blocks, i);
    JoinShape(bs, i, h.size);
    FreeSlots(bs, h.slots, h.capacity, i);
    UnlinkNeighboursExact(bs, h.bins, i);
    JoinedWithin(bs, h.size, i);
    BinRange(joined.size);
    var free := FreeBlocks(bs) - FreeBlocks(bs[lo..hi]);
    forall p | p in free ensures p.id != joined.id { assert p in bs && p != bs[i]; }
    PushExact(free, UnlinkNeighbours(bs, h.bins, i), joined);
    SpliceFree(bs, lo, hi, [joined]);
    assert FreeBlocks([joined]) == {joined};
  }
}
