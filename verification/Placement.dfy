/**
  Replica placement: best-effort allocation of slices across segments, so that
  the replicas of one slice lie in different segments.
*/
module Placement {
  import opened SmallFloat
  import opened HeapModel
  import opened HeapTheorems
  import opened OffsetUnits

  // ---- one segment

  /** A mounted segment with its offset allocator; `live` is the requested size of every live buffer. */
  datatype Segment = Segment(name: string, heap: Heap, bits: nat, live: map<nat, nat>, curSize: int)

  /** `block` is the part of the segment that the buffer occupies. */
  datatype Buffer = Buffer(segment: nat, name: string, block: Block, size: nat)

  ghost predicate SegmentOk(s: Segment) {
    Sound(s.heap) && UsedIds(s.heap) == s.live.Keys && s.curSize == Total(s.live)
  }

  ghost predicate IsTaken(s: Segment, blocks: set<Block>) {
    forall k :: Named(k) ==> blocks == UsedBlocks(s.heap.blocks)
  }

  /** The blocks in use in a segment, kept closed. */
  ghost function Taken(s: Segment): set<Block> {
    assert IsTaken(s, UsedBlocks(s.heap.blocks));
    var blocks :| IsTaken(s, blocks);
    blocks
  }

  lemma TakenIs(s: Segment)
    ensures Taken(s) == UsedBlocks(s.heap.blocks)
  {
    assert Named(0);
  }

  function Largest(s: Segment): nat
    requires Sound(s.heap)
  {
    InBytes(LargestOn(s.heap), s.bits)
  }

  /** OffsetBufferAllocator::allocate. */
  function AllocateIn(s: Segment, size: nat): (Segment, Option<Block>)
    requires Sound(s.heap)
  {
    var (heap, grant) := AllocateBytes(s.heap, s.bits, size);
    match grant
    case None => (s.(heap := heap), None)
    case Some(g) =>
      (s.(heap := heap, live := s.live[g.id := size], curSize := s.curSize + size),
       Some(Block(g.id, g.offset, BinFloor(RoundUp(Units(size, s.bits))), true)))
  }

  /** The buffer's destructor: OffsetBufferAllocator::deallocate. */
  function DeallocateIn(s: Segment, id: nat, size: nat): Segment
    requires SegmentOk(s) && id in s.live
  {
    FreeLive(s.heap, id);
    s.(heap := FreeOn(s.heap, id), live := s.live - {id}, curSize := s.curSize - size)
  }

  /** What never changes about a mounted segment. */
  predicate SameSegment(s: Segment, s': Segment) {
    s'.name == s.name && s'.bits == s.bits && s'.heap.size == s.heap.size && s'.heap.maxCapacity == s.heap.maxCapacity
  }

  lemma TakenBlock(h: Heap, bits: nat, size: nat)
    requires Sound(h) && size >= 1
    ensures var (h', g) := AllocateBytes(h, bits, size);
            && h'.size == h.size && h'.maxCapacity == h.maxCapacity
            && (g.None? ==> UsedBlocks(h'.blocks) == UsedBlocks(h.blocks))
            && (g.Some? ==>
                  && var b := Block(g.value.id, g.value.offset, BinFloor(RoundUp(Units(size, bits))), true);
                  && b !in UsedBlocks(h.blocks) && UsedBlocks(h'.blocks) == UsedBlocks(h.blocks) + {b}
                  && size <= InBytes(b.size, bits))
  {
    AllocateKept(h, bits, size);
    if AllocateBytes(h, bits, size).1.Some? {
      Open(h);
      GrantEffect(h, Units(size, bits));
      UnitsFit(size, bits, BinFloor(RoundUp(Units(size, bits))));
    }
  }

  /** Allocation succeeds exactly when the size fits the largest free region. */
  lemma AllocateInOk(s: Segment, size: nat)
    requires SegmentOk(s) && size >= 1
    ensures var (s', b) := AllocateIn(s, size);
            && SegmentOk(s') && SameSegment(s, s')
            && (b.Some? <==> size <= Largest(s))
            && (b.Some? ==>
                  && b.value.id !in s.live && s'.live == s.live[b.value.id := size] && b.value !in Taken(s)
                  && Taken(s') == Taken(s) + {b.value} && size <= InBytes(b.value.size, s.bits))
            && (b.None? ==>
                  && s'.live == s.live && Largest(s') == Largest(s)
                  && Taken(s') == Taken(s))
  {
    AllocateLive(s.heap, s.bits, size);
    BytesExact(s.heap, s.bits, size);
    TakenBlock(s.heap, s.bits, size);
    TakenIs(s);
    TakenIs(AllocateIn(s, size).0);
    var (heap, grant) := AllocateBytes(s.heap, s.bits, size);
    if grant.Some? {
      TotalWith(s.live, grant.value.id, size);
    } else {
      RefusedLargest(s.heap, s.bits, size);
    }
  }

  lemma RefusedLargest(h: Heap, bits: nat, size: nat)
    requires Sound(h) && AllocateBytes(h, bits, size).1.None? && Sound(AllocateBytes(h, bits, size).0)
    ensures LargestOn(AllocateBytes(h, bits, size).0) == LargestOn(h)
  {
  }

  lemma FreedBlock(h: Heap, b: Block)
    requires Sound(h) && b in UsedBlocks(h.blocks) && Allowed(h, FreeRequest(b.id))
    ensures FreeOn(h, b.id).size == h.size && FreeOn(h, b.id).maxCapacity == h.maxCapacity
    ensures UsedBlocks(FreeOn(h, b.id).blocks) == UsedBlocks(h.blocks) - {b}
  {
    Open(h);
    UsedAt(h, b.id);
    ReleaseEffect(h, IndexOf(h.blocks, b.id));
    BlockUnique(h, b);
    BlockUnique(h, h.blocks[IndexOf(h.blocks, b.id)]);
  }

  lemma DeallocateInOk(s: Segment, b: Block)
    requires SegmentOk(s) && b in Taken(s) && b.id in s.live
    ensures var s' := DeallocateIn(s, b.id, s.live[b.id]);
            && SegmentOk(s') && SameSegment(s, s') && s'.live == s.live - {b.id}
            && Taken(s') == Taken(s) - {b}
  {
    FreeLive(s.heap, b.id);
    TakenIs(s);
    TakenIs(DeallocateIn(s, b.id, s.live[b.id]));
    FreedBlock(s.heap, b);
    TotalWithout(s.live, b.id);
  }

  // ---- all segments

  ghost predicate PoolOk(segs: seq<Segment>) {
    forall i :: 0 <= i < |segs| ==> SegmentOk(segs[i])
  }

  /** The segment's free space may have been probed, but nothing was allocated or freed in it. */
  ghost predicate Quiet(s: Segment, s': Segment)
    requires Sound(s.heap) && Sound(s'.heap)
  {
    && SameSegment(s, s') && s'.live == s.live && Largest(s') == Largest(s)
    && Taken(s') == Taken(s)
  }

  /** Exactly buffer b came to life in its segment. */
  ghost predicate Gained(s: Segment, s': Segment, b: Buffer) {
    && SameSegment(s, s') && b.name == s.name && b.size <= InBytes(b.block.size, s.bits)
    && b.block.id !in s.live && s'.live == s.live[b.block.id := b.size]
    && b.block !in Taken(s) && Taken(s') == Taken(s) + {b.block}
  }

  /** The effect of one attempt: at most one buffer, everything else quiet. */
  ghost predicate Placed(segs: seq<Segment>, segs': seq<Segment>, r: Option<Buffer>)
    requires PoolOk(segs)
  {
    && |segs'| == |segs| && PoolOk(segs')
    && (r.Some? ==> r.value.segment < |segs| && Gained(segs[r.value.segment], segs'[r.value.segment], r.value))
    && (forall i :: 0 <= i < |segs| && (r.Some? ==> i != r.value.segment) ==> Quiet(segs[i], segs'[i]))
  }

  /** Segment i is outside the excluded names and its largest free region takes the size. */
  ghost predicate Fits(segs: seq<Segment>, i: nat, size: nat, excluded: set<string>)
    requires PoolOk(segs) && i < |segs|
  {
    segs[i].name !in excluded && size <= Largest(segs[i])
  }

  /** A preferred segment is wanted, not excluded, and takes the size. */
  ghost predicate Prefers(segs: seq<Segment>, preferred: string, size: nat, excluded: set<string>)
    requires PoolOk(segs)
  {
    preferred != "" && exists i :: 0 <= i < |segs| && segs[i].name == preferred && Fits(segs, i, size, excluded)
  }

  /** The same segments, whatever is allocated in them. */
  ghost predicate SameSegments(segs: seq<Segment>, segs': seq<Segment>) {
    |segs'| == |segs| && forall i :: 0 <= i < |segs| ==> SameSegment(segs[i], segs'[i])
  }

  /** std::shuffle: any order of the same elements, chosen afresh in every call. */
  method Shuffle(s: seq<nat>) returns (order: seq<nat>)
    ensures multiset(order) == multiset(s)
  {
    var rest := s;
    order := [];
    while rest != []
      invariant multiset(order + rest) == multiset(s)
      decreases |rest|
    {
      var k :| 0 <= k < |rest|;
      assert rest == rest[..k] + [rest[k]] + rest[k + 1..];
      order, rest := order + [rest[k]], rest[..k] + rest[k + 1..];
    }
    assert order + rest == order;
  }

  // ---- tries and returns as functions

  /** What a try in segment i leaves and grants. */
  ghost function TryOf(segs: seq<Segment>, i: nat, size: nat): (seq<Segment>, seq<Buffer>) {
    if i >= |segs| || !Sound(segs[i].heap) then (segs, [])
    else
      var (s, b) := AllocateIn(segs[i], size);
      (segs[i := s], if b.None? then [] else [Buffer(i, segs[i].name, b.value, size)])
  }

  ghost predicate IsTry(segs: seq<Segment>, i: nat, size: nat, r: (seq<Segment>, seq<Buffer>)) {
    forall k :: Named(k) ==> r == TryOf(segs, i, size)
  }

  /** TryOf, kept closed. */
  ghost function Try(segs: seq<Segment>, i: nat, size: nat): (seq<Segment>, seq<Buffer>) {
    assert IsTry(segs, i, size, TryOf(segs, i, size));
    var r :| IsTry(segs, i, size, r);
    r
  }

  lemma TryIs(segs: seq<Segment>, i: nat, size: nat)
    ensures Try(segs, i, size) == TryOf(segs, i, size)
  {
    assert Named(0);
  }

  /** One try after the other, and all that they grant. */
  ghost function TryAll(segs: seq<Segment>, tries: seq<nat>, size: nat): (seq<Segment>, seq<Buffer>) {
    if tries == [] then (segs, [])
    else
      var n := |tries| - 1;
      var (mid, buffers) := TryAll(segs, tries[..n], size);
      var (after, more) := Try(mid, tries[n], size);
      (after, buffers + more)
  }

  lemma {:induction false} TryAppend(segs: seq<Segment>, a: seq<nat>, b: seq<nat>, size: nat)
    ensures var (mid, buffers) := TryAll(segs, a, size);
            var (after, more) := TryAll(mid, b, size);
            TryAll(segs, a + b, size) == (after, buffers + more)
    decreases |b|
  {
    if b == [] {
      assert a + b == a && TryAll(segs, a, size).1 + [] == TryAll(segs, a, size).1;
    } else {
      var n := |b| - 1;
      TryAppend(segs, a, b[..n], size);
      assert (a + b)[..|a| + n] == a + b[..n];
      var (mid, buffers) := TryAll(segs, a, size);
      var (after, more) := TryAll(mid, b[..n], size);
      assert buffers + (more + Try(after, b[n], size).1) == buffers + more + Try(after, b[n], size).1;
    }
  }

  lemma TryOnce(segs: seq<Segment>, i: nat, size: nat)
    ensures TryAll(segs, [i], size) == Try(segs, i, size)
  {
    assert [i][..0] == [];
    assert TryAll(segs, [], size) == (segs, []);
    assert [] + Try(segs, i, size).1 == Try(segs, i, size).1;
  }

  /** What some tries led to, kept closed. */
  ghost predicate Tried(segs: seq<Segment>, tries: seq<nat>, size: nat, after: seq<Segment>, buffers: seq<Buffer>) {
    forall k :: Laid(k) ==> (after, buffers) == TryAll(segs, tries, size)
  }

  lemma TriedMore(segs: seq<Segment>, a: seq<nat>, size: nat, mid: seq<Segment>, buffers: seq<Buffer>,
                  b: seq<nat>, after: seq<Segment>, more: seq<Buffer>)
    requires Tried(segs, a, size, mid, buffers) && Tried(mid, b, size, after, more)
    ensures Tried(segs, a + b, size, after, buffers + more)
  {
    assert Laid(0);
    TryAppend(segs, a, b, size);
  }

  /** Tries after others that were all refused. */
  lemma TriedFirst(segs: seq<Segment>, a: seq<nat>, size: nat, mid: seq<Segment>, b: seq<nat>, after: seq<Segment>, more: seq<Buffer>)
    requires Tried(segs, a, size, mid, []) && Tried(mid, b, size, after, more)
    ensures Tried(segs, a + b, size, after, more)
  {
    TriedMore(segs, a, size, mid, [], b, after, more);
    assert [] + more == more;
  }

  lemma TriedNext(segs: seq<Segment>, a: seq<nat>, size: nat, mid: seq<Segment>, buffers: seq<Buffer>,
                  b: seq<nat>, after: seq<Segment>, r: Option<Buffer>)
    requires Tried(segs, a, size, mid, buffers) && Tried(mid, b, size, after, Listed(r))
    ensures Tried(segs, a + b, size, after, if r.None? then buffers else buffers + [r.value])
  {
    TriedMore(segs, a, size, mid, buffers, b, after, Listed(r));
    assert buffers + [] == buffers;
  }

  lemma TriedNothing(segs: seq<Segment>, size: nat)
    ensures Tried(segs, [], size, segs, [])
  {
  }

  lemma TriedOnce(segs: seq<Segment>, i: nat, size: nat, after: seq<Segment>, buffers: seq<Buffer>)
    requires (after, buffers) == Try(segs, i, size)
    ensures Tried(segs, [i], size, after, buffers)
  {
    TryOnce(segs, i, size);
  }

  /** What giving a buffer back leaves. */
  ghost function ReturnOf(segs: seq<Segment>, b: Buffer): seq<Segment> {
    if b.segment >= |segs| || !SegmentOk(segs[b.segment]) || b.block.id !in segs[b.segment].live then segs
    else segs[b.segment := DeallocateIn(segs[b.segment], b.block.id, b.size)]
  }

  ghost predicate IsReturn(segs: seq<Segment>, b: Buffer, r: seq<Segment>) {
    forall k :: Named(k) ==> r == ReturnOf(segs, b)
  }

  /** ReturnOf, kept closed. */
  ghost function Return(segs: seq<Segment>, b: Buffer): seq<Segment> {
    assert IsReturn(segs, b, ReturnOf(segs, b));
    var r :| IsReturn(segs, b, r);
    r
  }

  lemma ReturnIs(segs: seq<Segment>, b: Buffer)
    ensures Return(segs, b) == ReturnOf(segs, b)
  {
    assert Named(0);
  }

  ghost function ReturnAll(segs: seq<Segment>, buffers: seq<Buffer>): seq<Segment> {
    if buffers == [] then segs
    else
      var n := |buffers| - 1;
      Return(ReturnAll(segs, buffers[..n]), buffers[n])
  }

  /** The rows from `count` on given back, the last one first. */
  ghost function ReturnRows(segs: seq<Segment>, grid: seq<seq<Buffer>>, count: nat): seq<Segment>
    decreases |grid|
  {
    if |grid| <= count then segs
    else
      var n := |grid| - 1;
      ReturnRows(ReturnAll(segs, grid[n]), grid[..n], count)
  }

  /** As a list. */
  function Listed(r: Option<Buffer>): seq<Buffer> {
    if r.None? then [] else [r.value]
  }

  const MAX_RETRY_LIMIT: nat := 10

  class RandomAllocationStrategy {
    var segments: seq<Segment>

    method TryAllocate(i: nat, size: nat) returns (r: Option<Buffer>)
      requires PoolOk(segments) && i < |segments| && size >= 1
      modifies this`segments
      ensures PoolOk(old(segments)) && Placed(old(segments), segments, r)
      ensures r.Some? <==> size <= Largest(old(segments)[i])
      ensures r.Some? ==> r.value.segment == i && r.value.size == size
      ensures Tried(old(segments), [i], size, segments, Listed(r))
    {
      AllocateInOk(segments[i], size);
      TryIs(segments, i, size);
      TriedOnce(segments, i, size, Try(segments, i, size).0, Try(segments, i, size).1);
      var (s, b) := AllocateIn(segments[i], size);
      r := if b.Some? then Some(Buffer(i, segments[i].name, b.value, size)) else None;
      segments := segments[i := s];
    }

    /** Any allocator that reports enough space, in shuffled order; the report is exact, so the first try succeeds. */
    method TryRandomAllocate(size: nat, excluded: set<string>) returns (r: Option<Buffer>, ghost tries: seq<nat>)
      requires PoolOk(segments) && size >= 1
      modifies this`segments
      ensures PoolOk(old(segments)) && Placed(old(segments), segments, r)
      ensures r.Some? <==> exists i :: 0 <= i < |old(segments)| && Fits(old(segments), i, size, excluded)
      ensures r.Some? ==> Fits(old(segments), r.value.segment, size, excluded) && r.value.size == size
      ensures Tried(old(segments), tries, size, segments, Listed(r))
    {
      tries := [];
      TriedNothing(segments, size);
      var eligible: seq<nat> := [];
      for i := 0 to |segments|
        invariant forall x :: x in eligible <==> 0 <= x < i && Fits(segments, x, size, excluded)
      {
        if segments[i].name !in excluded && Largest(segments[i]) >= size {
          eligible := eligible + [i];
        }
      }
      if eligible == [] {
        return None, tries;
      }
      var order := Shuffle(eligible);
      ShuffledSame(order, eligible);
      assert eligible[0] in eligible && order[0] in order;
      var maxTries := if MAX_RETRY_LIMIT < |order| then MAX_RETRY_LIMIT else |order|;
      r := None;
      for i := 0 to maxTries
        invariant i == 0 && r.None? && segments == old(segments)
      {
        r := TryAllocate(order[i], size);
        if r.Some? {
          tries := [order[i]];
          return;
        }
        // Where the source counts a retry: the report is exact, so no eligible allocator refuses.
        assert false;
      }
    }

    /** The preferred segment first, then any. */
    method AllocateSingleBuffer(size: nat, preferred: string, excluded: set<string>)
      returns (r: Option<Buffer>, ghost tries: seq<nat>)
      requires PoolOk(segments) && size >= 1
      modifies this`segments
      ensures PoolOk(old(segments)) && Placed(old(segments), segments, r)
      ensures r.Some? <==> exists i :: 0 <= i < |old(segments)| && Fits(old(segments), i, size, excluded)
      ensures r.Some? ==> Fits(old(segments), r.value.segment, size, excluded) && r.value.size == size
      ensures Prefers(old(segments), preferred, size, excluded) ==> r.Some? && r.value.name == preferred
      ensures Tried(old(segments), tries, size, segments, Listed(r))
    {
      ghost var segs := segments;
      tries := [];
      TriedNothing(segs, size);
      if preferred != "" && preferred !in excluded {
        for i := 0 to |segments|
          invariant Placed(segs, segments, None) && Tried(segs, tries, size, segments, [])
          invariant forall k :: 0 <= k < i && segs[k].name == preferred ==> size > Largest(segs[k])
        {
          assert Quiet(segs[i], segments[i]);
          if segments[i].name == preferred {
            ghost var before := segments;
            r := TryAllocate(i, size);
            QuietThen(segs, before, segments, r);
            TriedFirst(segs, tries, size, before, [i], segments, Listed(r));
            tries := tries + [i];
            if r.Some? {
              assert Fits(segs, i, size, excluded);
              return;
            }
          }
        }
      }
      ghost var mid := segments;
      ghost var more;
      r, more := TryRandomAllocate(size, excluded);
      TriedFirst(segs, tries, size, mid, more, segments, Listed(r));
      tries := tries + more;
      QuietThen(segs, mid, segments, r);
      QuietFits(segs, mid, size, excluded);
    }

    /** Up to replicaNum buffers for one slice, all in differently named segments. */
    method AllocateSlice(size: nat, replicaNum: nat, preferred: string) returns (buffers: seq<Buffer>, ghost tries: seq<nat>)
      requires PoolOk(segments) && size >= 1
      modifies this`segments
      ensures PoolOk(segments) && PoolOk(old(segments)) && SliceSpread(buffers, size)
      ensures |buffers| == Min(replicaNum, |FitNames(old(segments), size)|)
      ensures Gave(old(segments), segments, buffers) && SameSegments(old(segments), segments)
      ensures replicaNum > 0 && Prefers(old(segments), preferred, size, {}) ==> |buffers| > 0 && buffers[0].name == preferred
      ensures Tried(old(segments), tries, size, segments, buffers)
    {
      ghost var segs := segments;
      buffers, tries := [], [];
      var used: set<string> := {};
      OutsideStart(segs);
      TriedNothing(segs, size);
      for i := 0 to replicaNum
        invariant SliceProgress(segs, segments, buffers, used, size) && |buffers| == i
        invariant i == 0 ==> segments == segs && used == {}
        invariant Tried(segs, tries, size, segments, buffers)
        invariant i > 0 && Prefers(segs, preferred, size, {}) ==> buffers[0].name == preferred
      {
        ghost var before := segments;
        ghost var more;
        var buffer;
        buffer, more := AllocateSingleBuffer(size, preferred, used);
        TriedNext(segs, tries, size, before, buffers, more, segments, buffer);
        tries := tries + more;
        if buffer.None? {
          SliceEnd(segs, before, segments, buffers, used, size);
          return;
        }
        SliceStep(segs, before, segments, buffers, used, size, buffer.value);
        used := used + {buffer.value.name};
        buffers := buffers + [buffer.value];
      }
      UsedAtMost(used, FitNames(segs, size));
      OpenOutside(segs, segments, used);
    }

    /** Give a list of buffers back, as their destructors do. */
    method DropBuffers(buffers: seq<Buffer>)
      requires PoolOk(segments) && DistinctBuffers(buffers) && forall b :: b in buffers ==> b in LiveBuffers(segments)
      modifies this`segments
      ensures PoolOk(segments) && SameSegments(old(segments), segments)
      ensures LiveBuffers(segments) == LiveBuffers(old(segments)) - RowSet(buffers)
      ensures segments == ReturnAll(old(segments), buffers)
    {
      ghost var segs := segments;
      for i := 0 to |buffers|
        invariant PoolOk(segments) && SameSegments(segs, segments)
        invariant LiveBuffers(segments) == LiveBuffers(segs) - RowSet(buffers[..i])
        invariant segments == ReturnAll(segs, buffers[..i])
      {
        var b := buffers[i];
        assert buffers[..i + 1][..i] == buffers[..i];
        ReturnIs(segments, b);
        DropStep(segs, segments, buffers, i);
        segments := segments[b.segment := DeallocateIn(segments[b.segment], b.block.id, b.size)];
      }
      assert buffers[..|buffers|] == buffers;
    }

    /** Shrink the grid to `count` replicas; the buffers of the others are given back. */
    method DropRows(grid: seq<seq<Buffer>>, count: nat, ghost base: set<Buffer>) returns (kept: seq<seq<Buffer>>)
      requires PoolOk(segments) && DistinctGrid(grid) && count <= |grid|
      requires base !! GridSet(grid) && LiveBuffers(segments) == base + GridSet(grid)
      modifies this`segments
      ensures kept == grid[..count] && PoolOk(segments) && SameSegments(old(segments), segments)
      ensures LiveBuffers(segments) == base + GridSet(kept) && segments == ReturnRows(old(segments), grid, count)
    {
      kept := grid;
      while |kept| > count
        invariant count <= |kept| <= |grid| && kept == grid[..|kept|] && DistinctGrid(kept)
        invariant PoolOk(segments) && SameSegments(old(segments), segments)
        invariant ReturnRows(segments, kept, count) == ReturnRows(old(segments), grid, count)
        invariant base !! GridSet(kept) && LiveBuffers(segments) == base + GridSet(kept)
      {
        var n := |kept| - 1;
        LastRow(kept);
        DropBuffers(kept[n]);
        kept := kept[..n];
      }
    }

    /** Place slice idx for every replica that is left; replicas it cannot serve are dropped. */
    method AllocateColumn(grid: seq<seq<Buffer>>, sizes: seq<nat>, idx: nat, preferred: string, ghost base: set<Buffer>)
      returns (r: seq<seq<Buffer>>, ghost tries: seq<nat>)
      requires PoolOk(segments)
      requires idx < |sizes| && sizes[idx] >= 1 && Held(grid, sizes, idx, base, LiveBuffers(segments))
      modifies this`segments
      ensures PoolOk(segments) && PoolOk(old(segments)) && |r| == Min(|grid|, |FitNames(old(segments), sizes[idx])|)
      ensures Held(r, sizes, idx + 1, base, LiveBuffers(segments)) && SameSegments(old(segments), segments)
      ensures Column(Stage(old(segments), grid, tries), sizes[idx], preferred, segments, r)
    {
      ghost var segs := segments;
      OpenHeld(grid, sizes, idx, base, LiveBuffers(segments));
      var buffers;
      buffers, tries := AllocateSlice(sizes[idx], |grid|, preferred);
      ghost var others, mid := base + RowSet(buffers), segments;
      BeforeDrop(grid, base, segs, segments, buffers);
      var kept := DropRows(grid, |buffers|, others);
      AfterDrop(grid, buffers, sizes, idx, base, LiveBuffers(segments));
      r := PushColumn(kept, buffers);
      ColumnIs(Stage(segs, grid, tries), sizes[idx], preferred, mid, buffers, segments, r);
    }

    /**
      Best-effort placement of all slices; what a dropped replica or a failed
      request held is given back. `trail` holds the state before each slice and
      the segments tried for it.
    */
    method Allocate(sliceSizes: seq<nat>, replicaNum: nat, preferred: string)
      returns (r: AllocationResult, ghost trail: seq<Stage>)
      requires PoolOk(segments)
      modifies this`segments
      ensures PoolOk(segments) && PoolOk(old(segments)) && SameSegments(old(segments), segments)
      ensures r.InvalidParams? <==> replicaNum == 0 || sliceSizes == [] || 0 in sliceSizes
      ensures !r.Replicas? ==> LiveBuffers(segments) == LiveBuffers(old(segments))
      ensures r.Replicas? ==> Holds(r.grid, sliceSizes, |sliceSizes|, LiveBuffers(old(segments)), LiveBuffers(segments))
      ensures !r.InvalidParams? ==>
                && TrailOk(old(segments), trail, sliceSizes, replicaNum, preferred, LiveBuffers(old(segments)))
                && Explained(trail, sliceSizes, replicaNum, preferred, segments, r)
      ensures !r.InvalidParams? ==>
                var room := Min(replicaNum, |FitNames(old(segments), sliceSizes[0])|);
                if |sliceSizes| == 1 || room == 0 then Answered(r, room) else r.Replicas? ==> |r.grid| <= room
    {
      trail := [];
      if replicaNum == 0 || sliceSizes == [] || 0 in sliceSizes {
        return InvalidParams, trail;
      }
      ghost var base := LiveBuffers(segments);
      assert forall k :: 0 <= k < |sliceSizes| ==> sliceSizes[k] in sliceSizes;
      var grid;
      grid, trail := PlaceAll(sliceSizes, replicaNum, preferred, base);
      r := if grid == [] then NoAvailableHandle else Replicas(grid);
      RunExplains(old(segments), trail, segments, grid, sliceSizes, replicaNum, preferred, base, r);
      if grid != [] { OpenHeld(grid, sliceSizes, |sliceSizes|, base, LiveBuffers(segments)); }
    }

    /** Slice by slice; an empty grid means that some slice found no room. */
    method PlaceAll(sliceSizes: seq<nat>, replicaNum: nat, preferred: string, ghost base: set<Buffer>)
      returns (grid: seq<seq<Buffer>>, ghost trail: seq<Stage>)
      requires PoolOk(segments) && replicaNum > 0 && sliceSizes != [] && base == LiveBuffers(segments)
      requires forall k :: 0 <= k < |sliceSizes| ==> sliceSizes[k] >= 1
      modifies this`segments
      ensures PoolOk(segments) && SameSegments(old(segments), segments)
      ensures if grid == [] then LiveBuffers(segments) == base
              else |trail| == |sliceSizes| && Held(grid, sliceSizes, |sliceSizes|, base, LiveBuffers(segments))
      ensures trail != [] && Run(old(segments), trail, segments, grid, sliceSizes, replicaNum, preferred, base)
    {
      grid := seq(replicaNum, _ => []);
      trail := [];
      StartHeld(grid, sliceSizes, base);
      RunStart(segments, grid, sliceSizes, preferred, base);
      for idx := 0 to |sliceSizes|
        invariant grid != [] && PoolOk(segments) && Held(grid, sliceSizes, idx, base, LiveBuffers(segments))
        invariant SameSegments(old(segments), segments)
        invariant |trail| == idx && Run(old(segments), trail, segments, grid, sliceSizes, replicaNum, preferred, base)
      {
        ghost var before, rows, tries := segments, grid, [];
        grid, tries := AllocateColumn(grid, sliceSizes, idx, preferred, base);
        RunStep(old(segments), trail, Stage(before, rows, tries), segments, grid, sliceSizes, replicaNum, preferred, base);
        trail := trail + [Stage(before, rows, tries)];
        if grid == [] {
          NothingHeld(sliceSizes, idx + 1, base, LiveBuffers(segments));
          return;
        }
      }
    }
  }

  // ---- slice after slice

  /** Before a slice: the segments, the replicas so far, and the segments that will be tried for it. */
  datatype Stage = Stage(segs: seq<Segment>, grid: seq<seq<Buffer>>, tries: seq<nat>)

  /** After the slice: what the tries were granted is the new column, and the replicas it does not reach are given back. */
  ghost function AfterColumn(st: Stage, size: nat): (seq<Segment>, seq<seq<Buffer>>) {
    var (mid, buffers) := TryAll(st.segs, st.tries, size);
    if |buffers| > |st.grid| then (mid, [])
    else (ReturnRows(mid, st.grid, |buffers|), PushColumn(st.grid[..|buffers|], buffers))
  }

  /** The tries were granted one buffer in each of as many differently named segments as are wanted and fit, the preferred one first. */
  ghost predicate TriesOk(st: Stage, size: nat, preferred: string)
    requires PoolOk(st.segs)
  {
    var buffers := TryAll(st.segs, st.tries, size).1;
    && SliceSpread(buffers, size) && |buffers| == Min(|st.grid|, |FitNames(st.segs, size)|)
    && (st.grid != [] && Prefers(st.segs, preferred, size, {}) ==> buffers != [] && buffers[0].name == preferred)
  }

  /** Guards what is said about the state before a slice; apart from Laid, whose facts are part of it. */
  predicate Staged(k: nat) {
    true
  }

  /** A slice, from one state to the next; kept closed. */
  ghost predicate Column(st: Stage, size: nat, preferred: string, segs: seq<Segment>, grid: seq<seq<Buffer>>)
    requires PoolOk(st.segs)
  {
    forall k :: Staged(k) ==> TriesOk(st, size, preferred) && AfterColumn(st, size) == (segs, grid)
  }

  lemma ColumnIs(st: Stage, size: nat, preferred: string, mid: seq<Segment>, buffers: seq<Buffer>,
                 segs: seq<Segment>, grid: seq<seq<Buffer>>)
    requires PoolOk(st.segs) && Tried(st.segs, st.tries, size, mid, buffers)
    requires SliceSpread(buffers, size) && |buffers| == Min(|st.grid|, |FitNames(st.segs, size)|)
    requires st.grid != [] && Prefers(st.segs, preferred, size, {}) ==> buffers != [] && buffers[0].name == preferred
    requires segs == ReturnRows(mid, st.grid, |buffers|) && grid == PushColumn(st.grid[..|buffers|], buffers)
    ensures Column(st, size, preferred, segs, grid)
  {
    assert Laid(0);
  }

  lemma OpenColumn(st: Stage, size: nat, preferred: string, segs: seq<Segment>, grid: seq<seq<Buffer>>)
    requires PoolOk(st.segs) && Column(st, size, preferred, segs, grid)
    ensures TriesOk(st, size, preferred) && AfterColumn(st, size) == (segs, grid)
    ensures |grid| == Min(|st.grid|, |FitNames(st.segs, size)|)
    ensures grid != [] ==> Extends(st.grid[0], grid[0])
    ensures grid != [] && Prefers(st.segs, preferred, size, {}) ==> grid[0][|st.grid[0]|].name == preferred
  {
    assert Staged(0);
  }

  predicate Extends(row: seq<Buffer>, row': seq<Buffer>) {
    |row'| == |row| + 1 && row <= row'
  }

  /** The first replica of every slice lies in the preferred segment if that had room for it. */
  ghost predicate Preferred(row: seq<Buffer>, trail: seq<Stage>, sizes: seq<nat>, preferred: string) {
    && |row| == |trail| <= |sizes| && AllPoolsOk(trail)
    && forall k :: 0 <= k < |row| && Prefers(trail[k].segs, preferred, sizes[k], {}) ==> row[k].name == preferred
  }

  lemma PreferredStep(row: seq<Buffer>, row': seq<Buffer>, trail: seq<Stage>, st: Stage, sizes: seq<nat>, preferred: string)
    requires Preferred(row, trail, sizes, preferred) && |trail| < |sizes| && PoolOk(st.segs) && Extends(row, row')
    requires Prefers(st.segs, preferred, sizes[|trail|], {}) ==> row'[|row|].name == preferred
    ensures Preferred(row', trail + [st], sizes, preferred)
  {
    forall k | 0 <= k < |row'| && Prefers((trail + [st])[k].segs, preferred, sizes[k], {}) ensures row'[k].name == preferred {
      if k < |row| { assert row'[k] == row[k]; }
    }
  }

  /** A request that finds room for `rows` replicas gets them; one that finds none is refused. */
  ghost predicate Answered(r: AllocationResult, rows: nat) {
    if rows == 0 then r.NoAvailableHandle? else r.Replicas? && |r.grid| == rows
  }

  /** The last slice leads to the segments and the replicas of the answer; the number of replicas is what all slices find room for. */
  ghost predicate Explained(trail: seq<Stage>, sizes: seq<nat>, replicaNum: nat, preferred: string, segs: seq<Segment>,
                            r: AllocationResult)
    requires |trail| <= |sizes| && AllPoolsOk(trail)
  {
    && trail != [] && (segs, if r.Replicas? then r.grid else []) == AfterColumn(trail[|trail| - 1], sizes[|trail| - 1])
    && Answered(r, Rows(trail, sizes, replicaNum))
    && (r.Replicas? ==> r.grid != [] && |trail| == |sizes| && Preferred(r.grid[0], trail, sizes, preferred))
  }

  lemma RunExplains(first: seq<Segment>, trail: seq<Stage>, segs: seq<Segment>, grid: seq<seq<Buffer>>, sizes: seq<nat>,
                    replicaNum: nat, preferred: string, base: set<Buffer>, r: AllocationResult)
    requires trail != [] && Run(first, trail, segs, grid, sizes, replicaNum, preferred, base)
    requires grid != [] ==> |trail| == |sizes|
    requires r == if grid == [] then NoAvailableHandle else Replicas(grid)
    ensures TrailOk(first, trail, sizes, replicaNum, preferred, base) && Explained(trail, sizes, replicaNum, preferred, segs, r)
    ensures PoolOk(first) && sizes != []
    ensures var room := Min(replicaNum, |FitNames(first, sizes[0])|);
            if |sizes| == 1 || room == 0 then Answered(r, room) else r.Replicas? ==> |r.grid| <= room
  {
    OpenRun(first, trail, segs, grid, sizes, replicaNum, preferred, base);
    RowsAtMost(trail, sizes, replicaNum);
    assert Continues(first, trail, sizes, replicaNum, 0);
  }

  ghost predicate AllPoolsOk(trail: seq<Stage>) {
    forall k :: 0 <= k < |trail| ==> PoolOk(trail[k].segs)
  }

  /** Each slice goes to as many replicas as are left and as differently named segments have room for it. */
  ghost function Rows(trail: seq<Stage>, sizes: seq<nat>, replicaNum: nat): nat
    requires |trail| <= |sizes| && AllPoolsOk(trail)
  {
    if trail == [] then replicaNum
    else
      var n := |trail| - 1;
      Min(Rows(trail[..n], sizes, replicaNum), |FitNames(trail[n].segs, sizes[n])|)
  }

  /** The same segments, holding what they held at first and n slices of the replicas that are left. */
  ghost predicate StageState(first: seq<Segment>, st: Stage, sizes: seq<nat>, n: nat, preferred: string, base: set<Buffer>)
    requires PoolOk(st.segs) && n < |sizes|
  {
    && SameSegments(first, st.segs) && Held(st.grid, sizes, n, base, LiveBuffers(st.segs))
    && TriesOk(st, sizes[n], preferred)
  }

  /** StageState, kept closed. */
  ghost predicate StageOk(first: seq<Segment>, st: Stage, sizes: seq<nat>, n: nat, preferred: string, base: set<Buffer>)
    requires PoolOk(st.segs) && n < |sizes|
  {
    forall k :: Staged(k) ==> StageState(first, st, sizes, n, preferred, base)
  }

  lemma StageIs(first: seq<Segment>, st: Stage, sizes: seq<nat>, n: nat, preferred: string, base: set<Buffer>,
                segs: seq<Segment>, grid: seq<seq<Buffer>>)
    requires PoolOk(st.segs) && n < |sizes| && Column(st, sizes[n], preferred, segs, grid)
    requires SameSegments(first, st.segs) && Held(st.grid, sizes, n, base, LiveBuffers(st.segs))
    ensures StageOk(first, st, sizes, n, preferred, base)
  {
    OpenColumn(st, sizes[n], preferred, segs, grid);
  }

  /** Stage k is what the slice before it left, or the start. */
  ghost predicate Continues(first: seq<Segment>, trail: seq<Stage>, sizes: seq<nat>, replicaNum: nat, k: nat)
    requires k < |trail| <= |sizes|
  {
    (trail[k].segs, trail[k].grid) ==
      if k == 0 then (first, seq(replicaNum, _ => [])) else AfterColumn(trail[k - 1], sizes[k - 1])
  }

  /** The states before the slices, each the outcome of the tries and returns of the slice before it. */
  ghost predicate TrailOk(first: seq<Segment>, trail: seq<Stage>, sizes: seq<nat>, replicaNum: nat, preferred: string,
                          base: set<Buffer>) {
    && |trail| <= |sizes| && AllPoolsOk(trail)
    && (forall k :: 0 <= k < |trail| ==> StageOk(first, trail[k], sizes, k, preferred, base))
    && (forall k :: 0 <= k < |trail| ==> Continues(first, trail, sizes, replicaNum, k))
  }

  lemma TrailStep(first: seq<Segment>, trail: seq<Stage>, st: Stage, sizes: seq<nat>, replicaNum: nat, preferred: string,
                  base: set<Buffer>)
    requires TrailOk(first, trail, sizes, replicaNum, preferred, base) && |trail| < |sizes|
    requires PoolOk(st.segs) && StageOk(first, st, sizes, |trail|, preferred, base)
    requires Continues(first, trail + [st], sizes, replicaNum, |trail|)
    ensures TrailOk(first, trail + [st], sizes, replicaNum, preferred, base)
    ensures Rows(trail + [st], sizes, replicaNum) ==
            Min(Rows(trail, sizes, replicaNum), |FitNames(st.segs, sizes[|trail|])|)
  {
    var trail' := trail + [st];
    forall k | 0 <= k < |trail'| ensures Continues(first, trail', sizes, replicaNum, k) {
      if k < |trail| { assert Continues(first, trail, sizes, replicaNum, k); }
    }
    assert trail'[..|trail|] == trail;
  }

  /** Where the slices so far have led. */
  ghost predicate RunState(first: seq<Segment>, trail: seq<Stage>, segs: seq<Segment>, grid: seq<seq<Buffer>>, sizes: seq<nat>,
                           replicaNum: nat, preferred: string, base: set<Buffer>) {
    && TrailOk(first, trail, sizes, replicaNum, preferred, base) && |grid| == Rows(trail, sizes, replicaNum)
    && ((segs, grid) ==
          if trail == [] then (first, seq(replicaNum, _ => [])) else AfterColumn(trail[|trail| - 1], sizes[|trail| - 1]))
    && (grid != [] ==> Preferred(grid[0], trail, sizes, preferred))
  }

  /** Guards what is said about all states before the slices; apart from Staged, whose facts are part of it. */
  predicate Traced(k: nat) {
    true
  }

  /** RunState, kept closed. */
  ghost predicate Run(first: seq<Segment>, trail: seq<Stage>, segs: seq<Segment>, grid: seq<seq<Buffer>>, sizes: seq<nat>,
                      replicaNum: nat, preferred: string, base: set<Buffer>) {
    forall k :: Traced(k) ==> RunState(first, trail, segs, grid, sizes, replicaNum, preferred, base)
  }

  lemma OpenRun(first: seq<Segment>, trail: seq<Stage>, segs: seq<Segment>, grid: seq<seq<Buffer>>, sizes: seq<nat>,
                replicaNum: nat, preferred: string, base: set<Buffer>)
    requires Run(first, trail, segs, grid, sizes, replicaNum, preferred, base)
    ensures RunState(first, trail, segs, grid, sizes, replicaNum, preferred, base)
  {
    assert Traced(0);
  }

  lemma RunStart(first: seq<Segment>, grid: seq<seq<Buffer>>, sizes: seq<nat>, preferred: string, base: set<Buffer>)
    requires forall r :: 0 <= r < |grid| ==> grid[r] == []
    ensures Run(first, [], first, grid, sizes, |grid|, preferred, base)
  {
    var blank: seq<seq<Buffer>> := seq(|grid|, _ => []);
    assert grid == blank;
  }

  lemma RunStep(first: seq<Segment>, trail: seq<Stage>, st: Stage, segs: seq<Segment>, grid: seq<seq<Buffer>>,
                sizes: seq<nat>, replicaNum: nat, preferred: string, base: set<Buffer>)
    requires Run(first, trail, st.segs, st.grid, sizes, replicaNum, preferred, base) && |trail| < |sizes| && st.grid != []
    requires PoolOk(st.segs) && SameSegments(first, st.segs) && Held(st.grid, sizes, |trail|, base, LiveBuffers(st.segs))
    requires Column(st, sizes[|trail|], preferred, segs, grid)
    ensures Run(first, trail + [st], segs, grid, sizes, replicaNum, preferred, base)
  {
    OpenRun(first, trail, st.segs, st.grid, sizes, replicaNum, preferred, base);
    StageIs(first, st, sizes, |trail|, preferred, base, segs, grid);
    OpenColumn(st, sizes[|trail|], preferred, segs, grid);
    TrailStep(first, trail, st, sizes, replicaNum, preferred, base);
    if grid != [] { PreferredStep(st.grid[0], grid[0], trail, st, sizes, preferred); }
  }

  lemma {:induction false} RowsAtMost(trail: seq<Stage>, sizes: seq<nat>, replicaNum: nat)
    requires trail != [] && |trail| <= |sizes| && AllPoolsOk(trail)
    ensures var rows, room := Rows(trail, sizes, replicaNum), Min(replicaNum, |FitNames(trail[0].segs, sizes[0])|);
            rows <= room && (|trail| == 1 ==> rows == room)
  {
    if |trail| > 1 { RowsAtMost(trail[..|trail| - 1], sizes, replicaNum); }
  }

  datatype AllocationResult = Replicas(grid: seq<seq<Buffer>>) | InvalidParams | NoAvailableHandle

  /** n slices placed: every replica has one buffer per slice, of the slice's size, and the
      replicas of a slice lie in pairwise different segments. */
  ghost predicate GridSpread(grid: seq<seq<Buffer>>, sizes: seq<nat>, n: nat)
    requires n <= |sizes|
  {
    && (forall r :: 0 <= r < |grid| ==> |grid[r]| == n && RowSizes(grid[r], sizes))
    && (forall k :: 0 <= k < n ==> ColumnSpread(grid, k))
  }

  ghost predicate RowSizes(row: seq<Buffer>, sizes: seq<nat>) {
    |row| <= |sizes| && forall k :: 0 <= k < |row| ==> row[k].size == sizes[k]
  }

  ghost predicate ColumnSpread(grid: seq<seq<Buffer>>, k: nat) {
    forall r, q :: 0 <= r < q < |grid| && k < |grid[r]| && k < |grid[q]| ==> grid[r][k].name != grid[q][k].name
  }

  function PushColumn(grid: seq<seq<Buffer>>, column: seq<Buffer>): seq<seq<Buffer>>
    requires |column| == |grid|
  {
    seq(|grid|, r requires 0 <= r < |grid| => grid[r] + [column[r]])
  }

  lemma {:induction false} EmptyGrid(grid: seq<seq<Buffer>>)
    requires forall r :: 0 <= r < |grid| ==> grid[r] == []
    ensures GridSet(grid) == {}
  {
    if grid != [] { EmptyGrid(grid[..|grid| - 1]); }
  }

  /** The grid is well placed and, with `base`, makes up all live buffers. */
  ghost predicate Holds(grid: seq<seq<Buffer>>, sizes: seq<nat>, n: nat, base: set<Buffer>, live: set<Buffer>)
    requires n <= |sizes|
  {
    GridSpread(grid, sizes, n) && DistinctGrid(grid) && base !! GridSet(grid) && live == base + GridSet(grid)
  }

  /** Guards what is said about the grid and the tries; apart from Opened, which would open the heaps of all segments. */
  predicate Laid(k: nat) {
    true
  }

  /** Holds, kept closed. */
  ghost predicate Held(grid: seq<seq<Buffer>>, sizes: seq<nat>, n: nat, base: set<Buffer>, live: set<Buffer>)
    requires n <= |sizes|
  {
    forall k :: Laid(k) ==> Holds(grid, sizes, n, base, live)
  }

  lemma OpenHeld(grid: seq<seq<Buffer>>, sizes: seq<nat>, n: nat, base: set<Buffer>, live: set<Buffer>)
    requires n <= |sizes| && Held(grid, sizes, n, base, live)
    ensures Holds(grid, sizes, n, base, live)
  {
    assert Laid(0);
  }

  lemma StartHeld(grid: seq<seq<Buffer>>, sizes: seq<nat>, base: set<Buffer>)
    requires forall r :: 0 <= r < |grid| ==> grid[r] == []
    ensures Held(grid, sizes, 0, base, base)
  {
    EmptyGrid(grid);
  }

  lemma NothingHeld(sizes: seq<nat>, n: nat, base: set<Buffer>, live: set<Buffer>)
    requires n <= |sizes| && Held([], sizes, n, base, live)
    ensures live == base
  {
    OpenHeld([], sizes, n, base, live);
    EmptyGrid([]);
  }

  /** The new column is apart from all that was live before. */
  lemma BeforeDrop(grid: seq<seq<Buffer>>, base: set<Buffer>, segs: seq<Segment>, segs': seq<Segment>, buffers: seq<Buffer>)
    requires base !! GridSet(grid) && LiveBuffers(segs) == base + GridSet(grid) && Gave(segs, segs', buffers)
    ensures (base + RowSet(buffers)) !! GridSet(grid)
    ensures LiveBuffers(segs') == base + RowSet(buffers) + GridSet(grid)
    ensures base !! RowSet(buffers) && DistinctBuffers(buffers)
  {
  }

  lemma AfterDrop(grid: seq<seq<Buffer>>, buffers: seq<Buffer>, sizes: seq<nat>, idx: nat, base: set<Buffer>, live: set<Buffer>)
    requires idx < |sizes| && GridSpread(grid, sizes, idx) && DistinctGrid(grid) && |buffers| <= |grid|
    requires SliceSpread(buffers, sizes[idx]) && DistinctBuffers(buffers)
    requires base !! RowSet(buffers) && (base + RowSet(buffers)) !! GridSet(grid)
    requires live == base + RowSet(buffers) + GridSet(grid[..|buffers|])
    ensures Held(PushColumn(grid[..|buffers|], buffers), sizes, idx + 1, base, live)
  {
    var kept := grid[..|buffers|];
    PrefixGrid(grid, |buffers|, sizes, idx);
    PushedSpread(kept, buffers, sizes, idx);
    PushedDistinct(kept, buffers);
    PushedSet(kept, buffers);
  }

  lemma PrefixGrid(grid: seq<seq<Buffer>>, count: nat, sizes: seq<nat>, n: nat)
    requires n <= |sizes| && GridSpread(grid, sizes, n) && DistinctGrid(grid) && count <= |grid|
    ensures GridSpread(grid[..count], sizes, n) && DistinctGrid(grid[..count])
    ensures GridSet(grid[..count]) <= GridSet(grid)
  {
    forall k | 0 <= k < n ensures ColumnSpread(grid[..count], k) { assert ColumnSpread(grid, k); }
    forall b | b in GridSet(grid[..count])
      ensures b in GridSet(grid)
    {
      GridMember(grid[..count], b);
      var r :| 0 <= r < count && b in RowSet(grid[..count][r]);
      assert b in RowSet(grid[r]);
      GridMember(grid, b);
    }
  }

  lemma RowPlus(row: seq<Buffer>, b: Buffer)
    ensures RowSet(row + [b]) == RowSet(row) + {b}
  {
  }

  lemma PushedSpread(grid: seq<seq<Buffer>>, column: seq<Buffer>, sizes: seq<nat>, n: nat)
    requires n < |sizes| && GridSpread(grid, sizes, n) && |column| == |grid| && SliceSpread(column, sizes[n])
    ensures GridSpread(PushColumn(grid, column), sizes, n + 1)
  {
    var g := PushColumn(grid, column);
    forall r | 0 <= r < |g| ensures |g[r]| == n + 1 && RowSizes(g[r], sizes) { assert RowSizes(grid[r], sizes); }
    forall k | 0 <= k < n + 1
      ensures ColumnSpread(g, k)
    {
      if k < n { assert ColumnSpread(grid, k); }
    }
  }

  lemma PushedSet(grid: seq<seq<Buffer>>, column: seq<Buffer>)
    requires |column| == |grid|
    ensures GridSet(PushColumn(grid, column)) == GridSet(grid) + RowSet(column)
  {
    var g := PushColumn(grid, column);
    forall r | 0 <= r < |grid| ensures RowSet(g[r]) == RowSet(grid[r]) + {column[r]} { RowPlus(grid[r], column[r]); }
    forall b
      ensures b in GridSet(g) <==> b in GridSet(grid) || b in RowSet(column)
    {
      GridMember(g, b);
      GridMember(grid, b);
      if b in RowSet(column) {
        var r :| 0 <= r < |column| && column[r] == b;
        assert b in RowSet(g[r]);
      }
      if r :| 0 <= r < |grid| && b in RowSet(grid[r]) { assert b in RowSet(g[r]); }
      if r :| 0 <= r < |g| && b in RowSet(g[r]) { assert column[r] in column; }
    }
  }

  lemma PushedDistinct(grid: seq<seq<Buffer>>, column: seq<Buffer>)
    requires DistinctGrid(grid) && |column| == |grid| && DistinctBuffers(column) && GridSet(grid) !! RowSet(column)
    ensures DistinctGrid(PushColumn(grid, column))
  {
    var g := PushColumn(grid, column);
    forall r, q | 0 <= r < |grid| && 0 <= q < |grid|
      ensures column[q] !in RowSet(grid[r])
    {
      GridMember(grid, column[q]);
      assert column[q] in column;
    }
    forall r | 0 <= r < |grid| ensures RowSet(g[r]) == RowSet(grid[r]) + {column[r]} { RowPlus(grid[r], column[r]); }
    forall r | 0 <= r < |g|
      ensures DistinctBuffers(g[r])
    {
      assert DistinctBuffers(grid[r]);
      forall k | 0 <= k < |grid[r]| ensures grid[r][k] != column[r] { assert grid[r][k] in RowSet(grid[r]); }
    }
  }

  // ---- the grid of replicas and slices

  ghost function RowSet(row: seq<Buffer>): set<Buffer> {
    set b | b in row
  }

  ghost predicate DistinctBuffers(row: seq<Buffer>) {
    forall j, k :: 0 <= j < k < |row| ==> row[j] != row[k]
  }

  ghost function GridSet(grid: seq<seq<Buffer>>): set<Buffer> {
    if grid == [] then {} else GridSet(grid[..|grid| - 1]) + RowSet(grid[|grid| - 1])
  }

  /** No buffer twice in a replica, or in two replicas. */
  ghost predicate DistinctGrid(grid: seq<seq<Buffer>>) {
    && (forall r :: 0 <= r < |grid| ==> DistinctBuffers(grid[r]))
    && (forall r, q :: 0 <= r < q < |grid| ==> RowSet(grid[r]) !! RowSet(grid[q]))
  }

  lemma {:induction false} GridMember(grid: seq<seq<Buffer>>, b: Buffer)
    ensures b in GridSet(grid) <==> exists r :: 0 <= r < |grid| && b in RowSet(grid[r])
  {
    if grid != [] {
      var n := |grid| - 1;
      GridMember(grid[..n], b);
      if b in GridSet(grid[..n]) {
        var r :| 0 <= r < n && b in RowSet(grid[..n][r]);
        assert b in RowSet(grid[r]);
      }
      if r :| 0 <= r < n && b in RowSet(grid[r]) { assert b in RowSet(grid[..n][r]); }
    }
  }

  lemma LastRow(grid: seq<seq<Buffer>>)
    requires DistinctGrid(grid) && grid != []
    ensures var n := |grid| - 1;
            && GridSet(grid) == GridSet(grid[..n]) + RowSet(grid[n]) && GridSet(grid[..n]) !! RowSet(grid[n])
            && DistinctGrid(grid[..n]) && DistinctBuffers(grid[n]) && forall b :: b in grid[n] ==> b in GridSet(grid)
  {
    var n := |grid| - 1;
    forall b | b in GridSet(grid[..n])
      ensures b !in RowSet(grid[n])
    {
      GridMember(grid[..n], b);
      var r :| 0 <= r < n && b in RowSet(grid[..n][r]);
      assert RowSet(grid[r]) !! RowSet(grid[n]);
    }
  }

  lemma DropReady(segs: seq<Segment>, cur: seq<Segment>, buffers: seq<Buffer>, i: nat)
    requires i < |buffers| && DistinctBuffers(buffers) && (forall b :: b in buffers ==> b in LiveBuffers(segs))
    requires LiveBuffers(cur) == LiveBuffers(segs) - RowSet(buffers[..i])
    ensures buffers[i] in LiveBuffers(cur)
    ensures LiveBuffers(cur) - {buffers[i]} == LiveBuffers(segs) - RowSet(buffers[..i] + [buffers[i]])
  {
  }

  /** One more buffer given back. */
  lemma DropStep(segs: seq<Segment>, mid: seq<Segment>, buffers: seq<Buffer>, i: nat)
    requires PoolOk(mid) && DistinctBuffers(buffers) && i < |buffers| && forall b :: b in buffers ==> b in LiveBuffers(segs)
    requires LiveBuffers(mid) == LiveBuffers(segs) - RowSet(buffers[..i])
    ensures var b := buffers[i];
            && b.segment < |mid| && b.block.id in mid[b.segment].live
            && var after := mid[b.segment := DeallocateIn(mid[b.segment], b.block.id, b.size)];
               PoolOk(after) && SameSegments(mid, after) && LiveBuffers(after) == LiveBuffers(segs) - RowSet(buffers[..i + 1])
  {
    var b := buffers[i];
    assert b in buffers;
    DropReady(segs, mid, buffers, i);
    LiveMember(mid, b);
    DeallocateInOk(mid[b.segment], b.block);
    DroppedLive(mid, b);
    assert buffers[..i + 1] == buffers[..i] + [b];
  }

  lemma DroppedLive(segs: seq<Segment>, b: Buffer)
    requires PoolOk(segs) && b in LiveBuffers(segs) && b.segment < |segs| && b.block.id in segs[b.segment].live
    ensures var segs' := segs[b.segment := DeallocateIn(segs[b.segment], b.block.id, b.size)];
            LiveBuffers(segs') == LiveBuffers(segs) - {b}
  {
    LiveMember(segs, b);
    DeallocateInOk(segs[b.segment], b.block);
    var segs' := segs[b.segment := DeallocateIn(segs[b.segment], b.block.id, b.size)];
    forall x
      ensures x in LiveBuffers(segs') <==> x in LiveBuffers(segs) && x != b
    {
      LiveMember(segs, x);
      LiveMember(segs', x);
      if x.segment == b.segment && x.block.id == b.block.id && x.block in Taken(segs[b.segment]) {
        TakenIs(segs[b.segment]);
        BlockUnique(segs[b.segment].heap, b.block);
        BlockUnique(segs[b.segment].heap, x.block);
      }
    }
  }

  /** The segments with other names are as at the start. */
  ghost predicate OthersQuiet(segs: seq<Segment>, cur: seq<Segment>, used: set<string>)
    requires PoolOk(segs) && PoolOk(cur)
  {
    SameSegments(segs, cur) && forall k :: 0 <= k < |segs| && segs[k].name !in used ==> Quiet(segs[k], cur[k])
  }

  /** OthersQuiet, kept closed. */
  ghost predicate Outside(segs: seq<Segment>, cur: seq<Segment>, used: set<string>)
    requires PoolOk(segs) && PoolOk(cur)
  {
    forall k :: Staged(k) ==> OthersQuiet(segs, cur, used)
  }

  lemma OpenOutside(segs: seq<Segment>, cur: seq<Segment>, used: set<string>)
    requires PoolOk(segs) && PoolOk(cur) && Outside(segs, cur, used)
    ensures OthersQuiet(segs, cur, used)
  {
    assert Staged(0);
  }

  lemma OutsideStart(segs: seq<Segment>)
    requires PoolOk(segs)
    ensures Outside(segs, segs, {})
  {
  }

  lemma OutsideStep(segs: seq<Segment>, before: seq<Segment>, after: seq<Segment>, used: set<string>, b: Buffer)
    requires PoolOk(segs) && PoolOk(before) && Outside(segs, before, used) && Placed(before, after, Some(b))
    ensures Outside(segs, after, used + {b.name})
  {
    OpenOutside(segs, before, used);
  }

  /** One used name per buffer, among the names that had room at the start. */
  ghost predicate Chosen(segs: seq<Segment>, buffers: seq<Buffer>, used: set<string>, size: nat)
    requires PoolOk(segs)
  {
    && SliceSpread(buffers, size) && |buffers| == |used| && used <= FitNames(segs, size)
    && forall b :: b in buffers ==> b.name in used
  }

  lemma ChosenStep(segs: seq<Segment>, before: seq<Segment>, buffers: seq<Buffer>, used: set<string>, size: nat, b: Buffer)
    requires PoolOk(segs) && PoolOk(before) && Chosen(segs, buffers, used, size) && Outside(segs, before, used)
    requires b.size == size && b.segment < |before| && Fits(before, b.segment, size, used) && b.name == before[b.segment].name
    ensures Chosen(segs, buffers + [b], used + {b.name}, size)
  {
    OpenOutside(segs, before, used);
    assert Quiet(segs[b.segment], before[b.segment]);
    assert FitAt(segs, b.segment, size);
    SpreadOneMore(buffers, used, size, b);
  }

  lemma SpreadOneMore(buffers: seq<Buffer>, used: set<string>, size: nat, b: Buffer)
    requires SliceSpread(buffers, size) && |buffers| == |used| && (forall x :: x in buffers ==> x.name in used)
    requires b.size == size && b.name !in used
    ensures SliceSpread(buffers + [b], size) && |buffers + [b]| == |used + {b.name}|
    ensures forall x :: x in buffers + [b] ==> x.name in used + {b.name}
  {
  }

  /** Part of a slice is placed. */
  ghost predicate SliceProgress(segs: seq<Segment>, cur: seq<Segment>, buffers: seq<Buffer>, used: set<string>, size: nat)
    requires PoolOk(segs)
  {
    PoolOk(cur) && Gave(segs, cur, buffers) && Chosen(segs, buffers, used, size) && Outside(segs, cur, used)
  }

  lemma SliceStep(segs: seq<Segment>, before: seq<Segment>, after: seq<Segment>, buffers: seq<Buffer>, used: set<string>, size: nat, b: Buffer)
    requires PoolOk(segs) && SliceProgress(segs, before, buffers, used, size) && Placed(before, after, Some(b))
    requires b.size == size && Fits(before, b.segment, size, used)
    ensures SliceProgress(segs, after, buffers + [b], used + {b.name}, size)
  {
    PlacedLive(before, after, Some(b));
    OutsideStep(segs, before, after, used, b);
    ChosenStep(segs, before, buffers, used, size, b);
    GaveOneMore(segs, before, after, buffers, b);
  }

  lemma GaveOneMore(segs: seq<Segment>, before: seq<Segment>, after: seq<Segment>, buffers: seq<Buffer>, b: Buffer)
    requires Gave(segs, before, buffers) && b !in LiveBuffers(before) && LiveBuffers(after) == LiveBuffers(before) + {b}
    ensures Gave(segs, after, buffers + [b])
  {
  }

  lemma SliceEnd(segs: seq<Segment>, before: seq<Segment>, after: seq<Segment>, buffers: seq<Buffer>, used: set<string>, size: nat)
    requires PoolOk(segs) && SliceProgress(segs, before, buffers, used, size) && Placed(before, after, None)
    requires !exists i :: 0 <= i < |before| && Fits(before, i, size, used)
    ensures PoolOk(after) && SameSegments(segs, after) && Gave(segs, after, buffers) && |buffers| == |FitNames(segs, size)|
  {
    NoneLeft(segs, before, size, used);
    PlacedLive(before, after, None);
  }

  ghost predicate FitAt(segs: seq<Segment>, i: nat, size: nat)
    requires PoolOk(segs)
  {
    i < |segs| && size <= Largest(segs[i])
  }

  /** The segment names that have an allocator with a large enough free region. */
  ghost function FitNames(segs: seq<Segment>, size: nat): set<string>
    requires PoolOk(segs)
  {
    set i | 0 <= i < |segs| && FitAt(segs, i, size) :: segs[i].name
  }

  /** Buffers of one slice: the slice's size, in pairwise different segments. */
  ghost predicate SliceSpread(buffers: seq<Buffer>, size: nat) {
    && (forall k :: 0 <= k < |buffers| ==> buffers[k].size == size)
    && (forall j, k :: 0 <= j < k < |buffers| ==> buffers[j].name != buffers[k].name)
  }

  // ---- the live buffers of all segments

  ghost function LiveIn(s: Segment, i: nat): set<Buffer> {
    set b | b in Taken(s) && b.id in s.live :: Buffer(i, s.name, b, s.live[b.id])
  }

  ghost function LiveBuffers(segs: seq<Segment>): set<Buffer> {
    if segs == [] then {} else
      var n := |segs| - 1;
      LiveBuffers(segs[..n]) + LiveIn(segs[n], n)
  }

  lemma {:induction false} LiveMember(segs: seq<Segment>, b: Buffer)
    ensures b in LiveBuffers(segs) <==>
            && b.segment < |segs| && b.name == segs[b.segment].name && b.block in Taken(segs[b.segment])
            && b.block.id in segs[b.segment].live && segs[b.segment].live[b.block.id] == b.size
  {
    if segs != [] {
      LiveMember(segs[..|segs| - 1], b);
    }
  }

  /** Exactly these buffers came to life. */
  ghost predicate Gave(segs: seq<Segment>, segs': seq<Segment>, buffers: seq<Buffer>) {
    && LiveBuffers(segs') == LiveBuffers(segs) + (set b | b in buffers)
    && (forall b :: b in buffers ==> b !in LiveBuffers(segs))
    && (forall j, k :: 0 <= j < k < |buffers| ==> buffers[j] != buffers[k])
  }

  lemma PlacedAt(segs: seq<Segment>, segs': seq<Segment>, r: Option<Buffer>, b: Buffer)
    requires PoolOk(segs) && Placed(segs, segs', r)
    ensures b in LiveBuffers(segs') <==> b in LiveBuffers(segs) || (r.Some? && b == r.value)
    ensures r.Some? && b == r.value ==> b !in LiveBuffers(segs)
  {
    LiveMember(segs, b);
    LiveMember(segs', b);
    if b.segment < |segs| && (r.Some? ==> b.segment != r.value.segment) {
      assert Quiet(segs[b.segment], segs'[b.segment]);
    } else if b.segment < |segs| && b.block in Taken(segs[b.segment]) {
      TakenIs(segs[b.segment]);
      BlockUnique(segs[b.segment].heap, b.block);
    }
  }

  lemma PlacedLive(segs: seq<Segment>, segs': seq<Segment>, r: Option<Buffer>)
    requires PoolOk(segs) && Placed(segs, segs', r)
    ensures r.None? ==> LiveBuffers(segs') == LiveBuffers(segs)
    ensures r.Some? ==> r.value !in LiveBuffers(segs) && LiveBuffers(segs') == LiveBuffers(segs) + {r.value}
  {
    forall b
      ensures b in LiveBuffers(segs') <==> b in LiveBuffers(segs) || (r.Some? && b == r.value)
    {
      PlacedAt(segs, segs', r, b);
    }
    if r.Some? { PlacedAt(segs, segs', r, r.value); }
  }

  /** When no unused name fits any more, every fitting name has been used. */
  lemma NoneLeft(segs: seq<Segment>, before: seq<Segment>, size: nat, used: set<string>)
    requires PoolOk(segs) && PoolOk(before) && Outside(segs, before, used)
    requires used <= FitNames(segs, size) && !exists i :: 0 <= i < |before| && Fits(before, i, size, used)
    ensures used == FitNames(segs, size) && SameSegments(segs, before)
  {
    OpenOutside(segs, before, used);
    forall i | 0 <= i < |segs| && FitAt(segs, i, size)
      ensures segs[i].name in used
    {
      assert !Fits(before, i, size, used);
    }
  }

  lemma UsedAtMost(a: set<string>, b: set<string>)
    requires a <= b
    ensures |a| <= |b|
  {
    assert b == a + (b - a);
  }

  lemma QuietThen(a: seq<Segment>, b: seq<Segment>, c: seq<Segment>, r: Option<Buffer>)
    requires PoolOk(a) && Placed(a, b, None) && Placed(b, c, r)
    ensures Placed(a, c, r)
  {
  }

  lemma QuietFits(a: seq<Segment>, b: seq<Segment>, size: nat, excluded: set<string>)
    requires PoolOk(a) && Placed(a, b, None)
    ensures forall i :: 0 <= i < |a| ==> (Fits(a, i, size, excluded) <==> Fits(b, i, size, excluded))
  {
  }

  lemma ShuffledSame(a: seq<nat>, b: seq<nat>)
    requires multiset(a) == multiset(b)
    ensures |a| == |b| && forall x :: x in a <==> x in b
  {
    assert |multiset(a)| == |a| && |multiset(b)| == |b|;
    forall x ensures x in a <==> x in b { assert x in a <==> x in multiset(a); }
  }
}
