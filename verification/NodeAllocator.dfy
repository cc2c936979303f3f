/**
  The inner offset allocator as it is stored: node array, bin heads, two-level
  bitmap, slot stack. Every method is proved to do to the represented heap exactly
  what module HeapModel says, so the theorems of HeapTheorems hold of it.
*/
module NodeAllocator {
  import opened SmallFloat
  import opened Bits
  import opened HeapModel
  import opened HeapTheorems
  import opened NodeLinks

  /** The slots come back one neighbour after the other. */
  lemma FreedOver(bs: seq<Block>, i: nat, slots: seq<nat>)
    requires i < |bs|
    ensures var left := if JoinsLeft(bs, i) then [bs[i - 1].id] else [];
            var right := if JoinsRight(bs, i) then [bs[i + 1].id] else [];
            right + (left + slots) == FreedSlots(bs, i) + slots
  {
  }

  /** What the heap invariant gives the code that frees a block. */
  lemma FreeReady(h: Heap, id: nat)
    requires Sound(h) && Allowed(h, FreeRequest(id))
    ensures Inv(h)
    ensures var i := IndexOf(h.blocks, id);
            && h.blocks[i].used && Joined(h.blocks, i).size < TWO32
            && DistinctIds(h.blocks) && BinsExact(FreeBlocks(h.blocks), h.bins) && |h.blocks| + |h.slots| == h.capacity
            && (forall k :: 0 <= k < |h.blocks| ==> h.blocks[k].size < TWO32 && h.blocks[k].id < h.maxCapacity)
            && FreeOn(h, id) == FreeAt(h, i) && Sound(FreeAt(h, i)) && FreeTotal(FreeAt(h, i).blocks) == FreeTotal(h.blocks) + h.blocks[i].size
  {
    Open(h);
    UsedAt(h, id);
    var i := IndexOf(h.blocks, id);
    FreeInv(h, i);
    ReleaseEffect(h, i);
    JoinedWithin(h.blocks, h.size, i);
    forall k | 0 <= k < |h.blocks|
      ensures h.blocks[k].size < TWO32 && h.blocks[k].id < h.maxCapacity
    {
      BlockWithin(h.blocks, h.size, k);
      assert h.blocks[k] in h.blocks;
    }
  }

  lemma InitIs(size: nat, initCapacity: nat, maxCapacity: nat, slots: seq<nat>, bins: seq<seq<nat>>)
    requires 1 <= initCapacity < TWO32 && size < TWO32 && maxCapacity < TWO32
    requires |slots| == initCapacity - 1 && forall k :: 0 <= k < |slots| ==> slots[k] == k + 1
    requires RoundDown(size) < NUM_LEAF_BINS && bins == Push(seq(NUM_LEAF_BINS, _ => []), RoundDown(size), 0)
    ensures Init(size, initCapacity, maxCapacity) ==
            Heap(size, if maxCapacity < initCapacity then initCapacity else maxCapacity, initCapacity, slots, [Block(0, 0, size, false)], bins)
    ensures Inv(Init(size, initCapacity, maxCapacity))
  {
    InitInv(size, initCapacity, maxCapacity);
    var empty: seq<seq<nat>> := seq(NUM_LEAF_BINS, _ => []);
    assert empty[RoundDown(size)] == [];
    assert [0] + empty[RoundDown(size)] == [0];
  }

  class Allocator {
    const size: nat
    const maxCapacity: nat
    var currentCapacity: nat
    var freeStorage: int
    var usedBinsTop: nat
    var freeOffset: nat
    const usedBins: array<nat>
    const binIndices: array<nat>
    const nodes: array<Node>
    const freeNodes: array<nat>

    ghost var blocks: seq<Block>
    ghost var bins: seq<seq<nat>>

    ghost predicate Shape()
      reads this`freeOffset, this`currentCapacity, this`bins
    {
      && usedBins.Length == 32 && binIndices.Length == NUM_LEAF_BINS
      && nodes.Length == freeNodes.Length == maxCapacity < TWO32
      && usedBins != binIndices && usedBins != freeNodes && binIndices != freeNodes
      && freeOffset <= currentCapacity <= maxCapacity
      && |bins| == NUM_LEAF_BINS
    }

    /** The heap these arrays represent. */
    ghost function H(): Heap
      reads this`freeOffset, this`currentCapacity, this`bins, this`blocks, freeNodes
      requires Shape()
    {
      Heap(size, maxCapacity, currentCapacity, freeNodes[freeOffset..currentCapacity], blocks, bins)
    }

    /** Bin lists and bitmap agree with the represented bins. */
    ghost predicate BinsOk()
      reads this`usedBinsTop, this`bins, usedBins, binIndices, nodes
    {
      && OneBin(bins) && BinLinks(nodes[..], binIndices[..], bins)
      && Bitmap(usedBinsTop, usedBins[..], bins)
    }

    /** The arrays represent H(). */
    ghost predicate Linked()
      reads this, usedBins, binIndices, nodes, freeNodes
    {
      Shape() && BinsOk() && NeighborLinks(nodes[..], blocks) && freeStorage == FreeTotal(blocks)
    }

    ghost predicate Valid()
      reads this, usedBins, binIndices, nodes, freeNodes
    {
      Linked() && Sound(H())
    }

    /** Set the bin's leaf bit and its top bit. */
    method MarkBin(bin: nat, ghost bins': seq<seq<nat>>)
      requires Shape() && Bitmap(usedBinsTop, usedBins[..], bins) && bin < |bins| == |bins'| && bins'[bin] != []
      requires forall k :: 0 <= k < |bins| && k != bin ==> bins'[k] == bins[k]
      modifies this`usedBinsTop, usedBins
      ensures Bitmap(usedBinsTop, usedBins[..], bins')
    {
      ghost var top0, leaf0 := usedBinsTop, usedBins[..];
      var topBinIndex, leafBinIndex := bin / 8, bin % 8;
      usedBins[topBinIndex] := Or(usedBins[topBinIndex], Pow2(leafBinIndex));
      usedBinsTop := Or(usedBinsTop, Pow2(topBinIndex));
      MarkBitmap(top0, leaf0, bins, bin, bins', usedBinsTop, usedBins[topBinIndex]);
      assert usedBins[..] == leaf0[topBinIndex := usedBins[topBinIndex]];
    }

    /** Clear the leaf bit of a bin that became empty, and the top bit when its leaf mask is zero. */
    method UnmarkBin(bin: nat, ghost bins': seq<seq<nat>>)
      requires Shape() && Bitmap(usedBinsTop, usedBins[..], bins) && bin < |bins| == |bins'| && bins'[bin] == []
      requires forall k :: 0 <= k < |bins| && k != bin ==> bins'[k] == bins[k]
      modifies this`usedBinsTop, usedBins
      ensures Bitmap(usedBinsTop, usedBins[..], bins')
    {
      ghost var top0, leaf0 := usedBinsTop, usedBins[..];
      var topBinIndex, leafBinIndex := bin / 8, bin % 8;
      Pow2Bound(topBinIndex);
      Pow2Bound(leafBinIndex);
      usedBins[topBinIndex] := And(usedBins[topBinIndex], Not(Pow2(leafBinIndex)));
      if usedBins[topBinIndex] == 0 {
        usedBinsTop := And(usedBinsTop, Not(Pow2(topBinIndex)));
      }
      UnmarkBitmap(top0, leaf0, bins, bin, bins', usedBinsTop, usedBins[topBinIndex]);
      assert usedBins[..] == leaf0[topBinIndex := usedBins[topBinIndex]];
    }

    /** Take a node slot, write the block into it, put it in front of its bin. */
    method InsertNodeIntoBin(blockSize: nat, dataOffset: nat) returns (nodeIndex: nat)
      requires Shape() && BinsOk() && blockSize < TWO32
      requires freeOffset < currentCapacity && freeNodes[freeOffset] < maxCapacity && InNoBin(bins, freeNodes[freeOffset])
      modifies this`freeStorage, this`usedBinsTop, this`freeOffset, this`bins, usedBins, binIndices, nodes
      ensures Shape() && BinsOk()
      ensures nodeIndex == old(freeNodes[freeOffset]) && freeOffset == old(freeOffset) + 1
      ensures freeStorage == old(freeStorage) + blockSize
      ensures RoundDown(blockSize) < |bins| && bins == Push(old(bins), RoundDown(blockSize), nodeIndex)
      ensures SameBlock(nodes[nodeIndex], Node(dataOffset, blockSize, 0, 0, UNUSED, UNUSED, false))
      ensures forall x :: 0 <= x < nodes.Length && x != nodeIndex ==> SameBlock(nodes[x], old(nodes[x]))
    {
      BinRange(blockSize);
      var binIndex := RoundDown(blockSize);
      ghost var bins0, nodes0, heads0 := bins, nodes[..], binIndices[..];

      nodeIndex := freeNodes[freeOffset];
      ghost var bins1 := Push(bins0, binIndex, nodeIndex);
      InsertLinks(nodes0, heads0, bins0, binIndex, nodeIndex, Node(dataOffset, blockSize, UNUSED, heads0[binIndex], UNUSED, UNUSED, false));
      PushOneBin(bins0, binIndex, nodeIndex);

      if binIndices[binIndex] == UNUSED {
        MarkBin(binIndex, bins1);
      }
      var topNodeIndex := binIndices[binIndex];
      freeOffset := freeOffset + 1;
      nodes[nodeIndex] := Node(dataOffset, blockSize, UNUSED, topNodeIndex, UNUSED, UNUSED, false);
      if topNodeIndex != UNUSED {
        nodes[topNodeIndex] := nodes[topNodeIndex].(binListPrev := nodeIndex);
      }
      binIndices[binIndex] := nodeIndex;
      freeStorage := freeStorage + blockSize;
      bins := bins1;
      assert nodes[..] == Prepended(nodes0, bins0[binIndex], nodeIndex, Node(dataOffset, blockSize, UNUSED, heads0[binIndex], UNUSED, UNUSED, false));
      assert binIndices[..] == heads0[binIndex := nodeIndex];
    }

    /** Take the node at place k of bin list s off the list. */
    method BypassNode(nodeIndex: nat, bin: nat, ghost s: seq<nat>, ghost k: nat)
      requires k < |s| && s[k] == nodeIndex < nodes.Length && ListLinks(nodes[..], s) && bin < binIndices.Length
      requires nodes.Length <= UNUSED
      modifies nodes, binIndices
      ensures nodes[..] == Bypassed(old(nodes[..]), s, k)
      ensures binIndices[..] == if k > 0 then old(binIndices[..]) else old(binIndices[..])[bin := NextOn(s, 0)]
    {
      ghost var nodes0 := nodes[..];
      assert LinkedAt(nodes0, s, k);
      assert k > 0 ==> LinkedAt(nodes0, s, k - 1);
      assert k + 1 < |s| ==> LinkedAt(nodes0, s, k + 1);
      var node := nodes[nodeIndex];
      if node.binListPrev != UNUSED {
        nodes[node.binListPrev] := nodes[node.binListPrev].(binListNext := node.binListNext);
        if node.binListNext != UNUSED {
          nodes[node.binListNext] := nodes[node.binListNext].(binListPrev := node.binListPrev);
        }
      } else {
        binIndices[bin] := node.binListNext;
        if node.binListNext != UNUSED {
          nodes[node.binListNext] := nodes[node.binListNext].(binListPrev := UNUSED);
        }
      }
    }

    /** After the list is bypassed: clear the bitmap if the bin became empty. */
    method UnlinkBin(ghost nodes0: seq<Node>, ghost heads0: seq<nat>, bin: nat, ghost k: nat)
      requires Shape() && OneBin(bins) && BinLinks(nodes0, heads0, bins) && Bitmap(usedBinsTop, usedBins[..], bins)
      requires bin < |bins| && k < |bins[bin]| && nodes[..] == Bypassed(nodes0, bins[bin], k)
      requires binIndices[..] == if k > 0 then heads0 else heads0[bin := NextOn(bins[bin], 0)]
      modifies this`usedBinsTop, this`bins, usedBins
      ensures Shape() && BinsOk() && bins == old(bins)[bin := old(bins)[bin][..k] + old(bins)[bin][k + 1..]]
    {
      ghost var bins1 := bins[bin := bins[bin][..k] + bins[bin][k + 1..]];
      RemoveLinks(nodes0, heads0, bins, bin, k);
      DropOneBin(bins, bin, k);
      assert bins1[bin] != [] ==> LinkedAt(nodes[..], bins1[bin], 0);
      if binIndices[bin] == UNUSED {
        UnmarkBin(bin, bins1);
      }
      bins := bins1;
    }

    /** Unlink the node at place k of its bin and give its slot back. */
    method RemoveNodeFromBin(nodeIndex: nat, ghost k: nat)
      requires Shape() && BinsOk() && nodeIndex < nodes.Length && freeOffset > 0
      requires nodes[nodeIndex].dataSize < TWO32 && RoundDown(nodes[nodeIndex].dataSize) < |bins|
      requires k < |bins[RoundDown(nodes[nodeIndex].dataSize)]| && bins[RoundDown(nodes[nodeIndex].dataSize)][k] == nodeIndex
      modifies this`freeStorage, this`usedBinsTop, this`freeOffset, this`bins, usedBins, binIndices, nodes, freeNodes
      ensures Shape() && BinsOk()
      ensures freeOffset == old(freeOffset) - 1 && freeNodes[..] == old(freeNodes[..])[freeOffset := nodeIndex]
      ensures freeStorage == old(freeStorage) - old(nodes[nodeIndex].dataSize)
      ensures var bin := RoundDown(old(nodes[nodeIndex].dataSize));
              bins == old(bins)[bin := old(bins)[bin][..k] + old(bins)[bin][k + 1..]]
      ensures forall x :: 0 <= x < nodes.Length ==> SameBlock(nodes[x], old(nodes[x]))
    {
      ghost var nodes0, heads0 := nodes[..], binIndices[..];
      var dataSize := nodes[nodeIndex].dataSize;
      var bin := RoundDown(dataSize);
      BypassNode(nodeIndex, bin, bins[bin], k);
      UnlinkBin(nodes0, heads0, bin, k);
      freeOffset := freeOffset - 1;
      freeNodes[freeOffset] := nodeIndex;
      freeStorage := freeStorage - dataSize;
    }

    /** Two-level search for the first non-empty bin at or above minBinIndex. */
    method FindBin(minBinIndex: nat) returns (bin: nat)
      requires Shape() && Bitmap(usedBinsTop, usedBins[..], bins) && minBinIndex <= LAST_BIN + 1
      ensures bin == FirstBin(bins, minBinIndex)
    {
      ghost var leaf := usedBins[..];
      var minTopBinIndex, minLeafBinIndex := minBinIndex / 8, minBinIndex % 8;
      var topBinIndex, leafBinIndex := minTopBinIndex, NO_SPACE;
      TestBit(usedBinsTop, topBinIndex);
      LeafBits(usedBinsTop, leaf, bins, topBinIndex);
      if And(usedBinsTop, Pow2(topBinIndex)) != 0 {
        leafBinIndex := FindLowestSetBitAfter(usedBins[topBinIndex], minLeafBinIndex);
      }
      if leafBinIndex == NO_SPACE {
        topBinIndex := FindLowestSetBitAfter(usedBinsTop, minTopBinIndex + 1);
        if topBinIndex == NO_SPACE {
          SearchNone(usedBinsTop, leaf, bins, minBinIndex);
          return NUM_LEAF_BINS;
        }
        LeafBits(usedBinsTop, leaf, bins, topBinIndex);
        leafBinIndex := TrailingZeros(usedBins[topBinIndex]);
        SearchNextTop(usedBinsTop, leaf, bins, minBinIndex, topBinIndex, leafBinIndex);
      } else {
        SearchSameTop(usedBinsTop, leaf, bins, minBinIndex, leafBinIndex);
      }
      return 8 * topBinIndex + leafBinIndex;
    }

    /** Free bytes, and the floor of the highest non-empty bin; both 0 when out of node slots. */
    method StorageReport() returns (totalFreeSpace: nat, largestFreeRegion: nat)
      requires Valid()
      ensures largestFreeRegion == LargestOn(H())
      ensures totalFreeSpace == if |blocks| < maxCapacity then FreeTotal(blocks) else 0
    {
      Open(H());
      totalFreeSpace, largestFreeRegion := 0, 0;
      if freeOffset < maxCapacity {
        totalFreeSpace := freeStorage;
        ghost var leaf := usedBins[..];
        ZeroMask(usedBinsTop);
        if usedBinsTop != 0 {
          var topBinIndex := HighestBit(usedBinsTop);
          LeafBits(usedBinsTop, leaf, bins, topBinIndex);
          var leafBinIndex := HighestBit(usedBins[topBinIndex]);
          SearchLast(usedBinsTop, leaf, bins, topBinIndex, leafBinIndex);
          largestFreeRegion := FloatToUint(8 * topBinIndex + leafBinIndex);
        } else {
          forall k | 0 <= k < |bins| ensures bins[k] == [] { BinBits(usedBinsTop, leaf, bins, k); }
          LastBinIs(bins, |bins|, 0);
        }
      }
    }

    /** Pop the head of a bin and turn it into a used node of the given size. */
    method TakeHead(bin: nat, roundupSize: nat) returns (nodeIndex: nat, nodeTotalSize: nat)
      requires Shape() && BinsOk() && bin < |bins| && bins[bin] != []
      modifies this`freeStorage, this`usedBinsTop, this`bins, usedBins, binIndices, nodes
      ensures Shape() && BinsOk() && bins == old(bins)[bin := old(bins)[bin][1..]]
      ensures nodeIndex == old(bins)[bin][0] < nodes.Length && nodeTotalSize == old(nodes[nodeIndex].dataSize)
      ensures freeStorage == old(freeStorage) - nodeTotalSize
      ensures SameBlock(nodes[nodeIndex], old(nodes[nodeIndex]).(dataSize := roundupSize, used := true))
      ensures forall x :: 0 <= x < nodes.Length && x != nodeIndex ==> SameBlock(nodes[x], old(nodes[x]))
    {
      ghost var nodes0, heads0, s := nodes[..], binIndices[..], bins[bin];
      assert LinkedAt(nodes0, s, 0) && s[..0] + s[1..] == s[1..];
      nodeIndex := binIndices[bin];
      nodeTotalSize := nodes[nodeIndex].dataSize;
      BypassNode(nodeIndex, bin, s, 0);
      UnlinkBin(nodes0, heads0, bin, 0);
      ghost var nodes1 := nodes[..];
      nodes[nodeIndex] := nodes[nodeIndex].(dataSize := roundupSize, used := true);
      freeStorage := freeStorage - nodeTotalSize;
      FrameLinks(nodes1, nodes[..], binIndices[..], bins);
    }

    /** Link node b between node a and a's successor. */
    method LinkAfter(a: nat, b: nat)
      requires Shape() && BinsOk() && a < nodes.Length && b < nodes.Length && a != b
      requires var c := nodes[a].neighborNext; c == UNUSED || (c < nodes.Length && c != a && c != b)
      modifies nodes
      ensures BinsOk()
      ensures var c := old(nodes[a].neighborNext);
              && SameBlock(nodes[a], old(nodes[a]).(neighborNext := b))
              && SameBlock(nodes[b], old(nodes[b]).(neighborPrev := a, neighborNext := c))
              && (c != UNUSED ==> SameBlock(nodes[c], old(nodes[c]).(neighborPrev := b)))
              && forall x :: 0 <= x < nodes.Length && x != a && x != b && x != c ==> SameBlock(nodes[x], old(nodes[x]))
    {
      ghost var nodes0 := nodes[..];
      var c := nodes[a].neighborNext;
      if c != UNUSED {
        nodes[c] := nodes[c].(neighborPrev := b);
      }
      nodes[b] := nodes[b].(neighborPrev := a, neighborNext := c);
      nodes[a] := nodes[a].(neighborNext := b);
      FrameLinks(nodes0, nodes[..], binIndices[..], bins);
    }

    /** Connect node b with the nodes before and after it. */
    method LinkBetween(a: nat, b: nat, c: nat)
      requires Shape() && BinsOk() && b < nodes.Length
      requires nodes[b].neighborPrev == nodes[b].neighborNext == UNUSED
      requires (a == UNUSED || (a < nodes.Length && a != b)) && (c == UNUSED || (c < nodes.Length && c != b)) && (a == c ==> a == UNUSED)
      modifies nodes
      ensures BinsOk()
      ensures && SameBlock(nodes[b], old(nodes[b]).(neighborPrev := a, neighborNext := c))
              && (a != UNUSED ==> SameBlock(nodes[a], old(nodes[a]).(neighborNext := b)))
              && (c != UNUSED ==> SameBlock(nodes[c], old(nodes[c]).(neighborPrev := b)))
              && forall x :: 0 <= x < nodes.Length && x != a && x != b && x != c ==> SameBlock(nodes[x], old(nodes[x]))
    {
      ghost var nodes0 := nodes[..];
      if c != UNUSED {
        nodes[b] := nodes[b].(neighborNext := c);
        nodes[c] := nodes[c].(neighborPrev := b);
      }
      if a != UNUSED {
        nodes[b] := nodes[b].(neighborPrev := a);
        nodes[a] := nodes[a].(neighborNext := b);
      }
      FrameLinks(nodes0, nodes[..], binIndices[..], bins);
    }

    /** Put the rest of block i, behind its first `size` bytes, back as a free node. */
    method PutBackRest(nodeIndex: nat, restSize: nat, restOffset: nat, ghost i: nat, ghost nodes0: seq<Node>)
      requires Shape() && BinsOk() && freeOffset < currentCapacity && restSize < TWO32
      requires NeighborLinks(nodes0, blocks) && |nodes0| == nodes.Length && DistinctIds(blocks)
      requires i < |blocks| && nodeIndex == blocks[i].id && 0 < restSize <= blocks[i].size && restOffset == blocks[i].offset + (blocks[i].size - restSize)
      requires var slot := freeNodes[freeOffset];
               slot < maxCapacity && InNoBin(bins, slot) && forall k :: 0 <= k < |blocks| ==> blocks[k].id != slot && blocks[k].id < nodes.Length
      requires SameBlock(nodes[nodeIndex], nodes0[nodeIndex].(dataSize := blocks[i].size - restSize, used := true))
      requires forall x :: 0 <= x < nodes.Length && x != nodeIndex ==> SameBlock(nodes[x], nodes0[x])
      modifies this`freeStorage, this`usedBinsTop, this`freeOffset, this`bins, this`blocks, usedBins, binIndices, nodes
      ensures Shape() && BinsOk() && NeighborLinks(nodes[..], blocks)
      ensures freeOffset == old(freeOffset) + 1 && freeStorage == old(freeStorage) + restSize
      ensures RoundDown(restSize) < |bins| && bins == Push(old(bins), RoundDown(restSize), old(freeNodes[freeOffset]))
      ensures blocks == var bs := old(blocks); Splice(bs, i, i + 1, Cut(bs[i], bs[i].size - restSize, old(freeNodes[freeOffset])))
    {
      ghost var bs, slot := blocks, freeNodes[freeOffset];
      assert HeldAt(nodes0, bs, i);
      var newNodeIndex := InsertNodeIntoBin(restSize, restOffset);
      LinkAfter(nodeIndex, newNodeIndex);
      blocks := Splice(bs, i, i + 1, Cut(bs[i], bs[i].size - restSize, slot));
      CutNeighbors(nodes0, nodes[..], bs, i, bs[i].size - restSize, slot);
    }

    /** Block i was taken as a whole. */
    ghost method TakeWhole(i: nat, nodes0: seq<Node>)
      requires NeighborLinks(nodes0, blocks) && |nodes0| == nodes.Length && i < |blocks|
      requires forall k :: 0 <= k < |blocks| ==> blocks[k].id < nodes.Length
      requires DistinctIds(blocks)
      requires SameBlock(nodes[blocks[i].id], nodes0[blocks[i].id].(used := true))
      requires forall x :: 0 <= x < nodes.Length && x != blocks[i].id ==> SameBlock(nodes[x], nodes0[x])
      modifies this`blocks
      ensures NeighborLinks(nodes[..], blocks)
      ensures blocks == var bs := old(blocks); Splice(bs, i, i + 1, Cut(bs[i], bs[i].size, 0))
    {
      ghost var bs := blocks;
      blocks := Splice(bs, i, i + 1, Cut(bs[i], bs[i].size, 0));
      ExactNeighbors(nodes0, nodes[..], bs, i, 0);
    }

    /** Serve `roundupSize` bytes from block i, the head of the bin. */
    method TakeFrom(bin: nat, roundupSize: nat, ghost i: nat) returns (offset: nat, nodeIndex: nat)
      requires Linked() && freeOffset < currentCapacity
      requires bin < |bins| && bins[bin] != [] && i < |blocks| && blocks[i].id == bins[bin][0] && DistinctIds(blocks)
      requires !blocks[i].used && roundupSize <= blocks[i].size < TWO32
      requires var slot := freeNodes[freeOffset];
               slot < maxCapacity && InNoBin(bins, slot) && forall k :: 0 <= k < |blocks| ==> blocks[k].id != slot && blocks[k].id < nodes.Length
      modifies this`freeStorage, this`usedBinsTop, this`freeOffset, this`bins, this`blocks, usedBins, binIndices, nodes
      ensures Linked() && offset == old(blocks[i].offset) && nodeIndex == old(blocks[i].id)
      ensures var b, slot, popped := old(blocks[i]), old(freeNodes[freeOffset]), old(bins)[bin := old(bins)[bin][1..]];
              if b.size == roundupSize then
                freeOffset == old(freeOffset) && bins == popped && blocks == Splice(old(blocks), i, i + 1, Cut(b, roundupSize, 0))
              else
                && freeOffset == old(freeOffset) + 1 && RoundDown(b.size - roundupSize) < |popped|
                && bins == Push(popped, RoundDown(b.size - roundupSize), slot)
                && blocks == Splice(old(blocks), i, i + 1, Cut(b, roundupSize, slot))
    {
      ghost var bs, nodes0, slot := blocks, nodes[..], freeNodes[freeOffset];
      assert HeldAt(nodes0, bs, i);
      CutEffect(bs, i, roundupSize, if bs[i].size == roundupSize then 0 else slot);
      var nodeTotalSize;
      nodeIndex, nodeTotalSize := TakeHead(bin, roundupSize);
      offset := nodes[nodeIndex].dataOffset;
      var reminderSize := nodeTotalSize - roundupSize;
      if reminderSize > 0 {
        PutBackRest(nodeIndex, reminderSize, offset + roundupSize, i, nodes0);
      } else {
        TakeWhole(i, nodes0);
      }
    }

    /** TakeFrom, read as a change of the represented heap. */
    method TakeBlock(bin: nat, roundupSize: nat, ghost i: nat) returns (offset: nat, nodeIndex: nat)
      requires Linked() && freeOffset < currentCapacity
      requires bin < |bins| && bins[bin] != [] && i < |blocks| && blocks[i].id == bins[bin][0] && DistinctIds(blocks)
      requires !blocks[i].used && roundupSize <= blocks[i].size < TWO32
      requires var slot := freeNodes[freeOffset];
               slot < maxCapacity && InNoBin(bins, slot) && forall k :: 0 <= k < |blocks| ==> blocks[k].id != slot && blocks[k].id < nodes.Length
      modifies this`freeStorage, this`usedBinsTop, this`freeOffset, this`bins, this`blocks, usedBins, binIndices, nodes
      ensures Linked() && H() == Take(old(H()), bin, i, roundupSize)
      ensures offset == old(blocks[i].offset) && nodeIndex == old(blocks[i].id)
    {
      ghost var slots := freeNodes[freeOffset..currentCapacity];
      assert slots[0] == freeNodes[freeOffset] && slots[1..] == freeNodes[freeOffset + 1..currentCapacity];
      offset, nodeIndex := TakeFrom(bin, roundupSize, i);
    }

    /** Make one more node slot available when all are taken. */
    method GrowSlots()
      requires Linked() && freeOffset < maxCapacity && |blocks| == freeOffset
      modifies this`currentCapacity, freeNodes
      ensures Linked() && H() == Grow(old(H())) && freeOffset < currentCapacity
    {
      if freeOffset == currentCapacity {
        freeNodes[currentCapacity] := currentCapacity;
        currentCapacity := currentCapacity + 1;
      }
    }

    /** The search and the grant, once a node slot is available. */
    method AllocateWithSlot(requestSize: nat, ghost h: Heap) returns (r: Option<Grant>)
      requires Linked() && Inv(h) && |h.blocks| < h.maxCapacity && H() == Grow(h) && requestSize < TWO32
      modifies this`freeStorage, this`usedBinsTop, this`freeOffset, this`bins, this`blocks, usedBins, binIndices, nodes
      ensures Linked() && (H(), r) == HeapModel.Allocate(h, requestSize)
    {
      GrantedIff(h, requestSize);
      GrowInv(h);
      BinRange(requestSize);
      var minBinIndex := RoundUp(requestSize);
      var binIndex := FindBin(minBinIndex);
      if binIndex == NUM_LEAF_BINS {
        return None;
      }
      ghost var bin, i := Granted(h, requestSize);
      NoTruncation(minBinIndex);
      ghost var slot := H().slots[0];
      assert slot == freeNodes[freeOffset] && slot in H().slots;
      SlotInNoBin(Grow(h), slot);
      forall k | 0 <= k < |blocks| ensures blocks[k].id != slot && blocks[k].id < nodes.Length { assert blocks[k] in blocks; }
      var offset, nodeIndex := TakeBlock(binIndex, FloatToUint(minBinIndex), i);
      r := Some(Grant(offset, nodeIndex));
    }

    /** Allocate as the heap does: the head of the first large enough bin, split if it is larger. */
    method Allocate(requestSize: nat) returns (r: Option<Grant>)
      requires Valid() && requestSize < TWO32
      modifies this, usedBins, binIndices, nodes, freeNodes
      ensures Valid() && (H(), r) == AllocateOn(old(H()), requestSize)
    {
      ghost var h := H();
      Open(h);
      AllocateInv(h, requestSize);
      if freeOffset == maxCapacity {
        return None;
      }
      GrowSlots();
      r := AllocateWithSlot(requestSize, h);
    }

    /** Take free block b, a neighbour of a block being freed, off its bin and give its slot back. */
    method Absorb(nodeIndex: nat, ghost b: Block, ghost keepOut: nat)
      requires Shape() && BinsOk() && freeOffset > 0 && InNoBin(bins, keepOut)
      requires b.id == nodeIndex < nodes.Length && nodes[nodeIndex].dataSize == b.size < TWO32
      requires RoundDown(b.size) < |bins| && b.id in bins[RoundDown(b.size)]
      modifies this`freeStorage, this`usedBinsTop, this`freeOffset, this`bins, usedBins, binIndices, nodes, freeNodes
      ensures Shape() && BinsOk() && bins == Unlink(old(bins), b) && InNoBin(bins, keepOut)
      ensures freeOffset == old(freeOffset) - 1 && freeNodes[freeOffset..currentCapacity] == [b.id] + old(freeNodes[freeOffset..currentCapacity])
      ensures freeStorage == old(freeStorage) - b.size
      ensures forall x :: 0 <= x < nodes.Length ==> SameBlock(nodes[x], old(nodes[x]))
    {
      UnlinkKeepsOut(bins, b, keepOut);
      ghost var freeNodes0 := freeNodes[..];
      RemoveNodeFromBin(nodeIndex, PositionOf(bins[RoundDown(b.size)], b.id));
      assert freeNodes[freeOffset..currentCapacity] == [b.id] + freeNodes0[freeOffset + 1..currentCapacity];
    }

    /** Absorb the left neighbour of block i, if it is free. */
    method AbsorbPrev(nodeIndex: nat, ghost i: nat) returns (offset: nat, blockSize: nat, neighborPrev: nat)
      requires Shape() && BinsOk() && NeighborLinks(nodes[..], blocks) && freeOffset == |blocks| && InNoBin(bins, nodeIndex)
      requires DistinctIds(blocks) && BinsExact(FreeBlocks(blocks), bins)
      requires i < |blocks| && blocks[i].id == nodeIndex
      requires forall k :: 0 <= k < |blocks| ==> blocks[k].size < TWO32 && blocks[k].id < nodes.Length <= UNUSED
      modifies this`freeStorage, this`usedBinsTop, this`freeOffset, this`bins, usedBins, binIndices, nodes, freeNodes
      ensures Shape() && BinsOk() && bins == UnlinkLeft(blocks, old(bins), i) && InNoBin(bins, nodeIndex)
      ensures var freed := if JoinsLeft(blocks, i) then [blocks[i - 1].id] else [];
              && freeOffset == |blocks| - |freed| && freeNodes[freeOffset..currentCapacity] == freed + old(freeNodes[freeOffset..currentCapacity])
      ensures offset == Joined(blocks, i).offset && neighborPrev == PrevId(blocks, JoinFrom(blocks, i))
      ensures blockSize == blocks[i].size + (if JoinsLeft(blocks, i) then blocks[i - 1].size else 0)
      ensures freeStorage == old(freeStorage) - (blockSize - blocks[i].size)
      ensures forall x :: 0 <= x < nodes.Length ==> SameBlock(nodes[x], old(nodes[x]))
    {
      ghost var bs := blocks;
      assert HeldAt(nodes[..], bs, i) && (i > 0 ==> HeldAt(nodes[..], bs, i - 1));
      var node := nodes[nodeIndex];
      offset, blockSize, neighborPrev := node.dataOffset, node.dataSize, node.neighborPrev;
      if neighborPrev != UNUSED && !nodes[neighborPrev].used {
        assert bs[i - 1] in FreeBlocks(bs);
        var prevNode := nodes[neighborPrev];
        offset, blockSize := prevNode.dataOffset, blockSize + prevNode.dataSize;
        Absorb(neighborPrev, bs[i - 1], nodeIndex);
        neighborPrev := prevNode.neighborPrev;
      }
    }

    /** Absorb the right neighbour of block i, if it is free. */
    method AbsorbNext(nodeIndex: nat, leftSize: nat, ghost i: nat) returns (blockSize: nat, neighborNext: nat)
      requires Shape() && BinsOk() && NeighborLinks(nodes[..], blocks) && 0 < freeOffset && InNoBin(bins, nodeIndex)
      requires i < |blocks| && blocks[i].id == nodeIndex
      requires JoinsRight(blocks, i) ==> freeOffset > 1 && RoundDown(blocks[i + 1].size) < |bins| && blocks[i + 1].id in bins[RoundDown(blocks[i + 1].size)]
      requires forall k :: 0 <= k < |blocks| ==> blocks[k].size < TWO32 && blocks[k].id < nodes.Length <= UNUSED
      modifies this`freeStorage, this`usedBinsTop, this`freeOffset, this`bins, usedBins, binIndices, nodes, freeNodes
      ensures Shape() && BinsOk() && InNoBin(bins, nodeIndex)
      ensures bins == if JoinsRight(blocks, i) then Unlink(old(bins), blocks[i + 1]) else old(bins)
      ensures var freed := if JoinsRight(blocks, i) then [blocks[i + 1].id] else [];
              && freeOffset == old(freeOffset) - |freed| && freeNodes[freeOffset..currentCapacity] == freed + old(freeNodes[freeOffset..currentCapacity])
      ensures neighborNext == NextId(blocks, JoinTo(blocks, i) - 1)
      ensures blockSize == leftSize + (if JoinsRight(blocks, i) then blocks[i + 1].size else 0)
      ensures freeStorage == old(freeStorage) - (blockSize - leftSize)
      ensures forall x :: 0 <= x < nodes.Length ==> SameBlock(nodes[x], old(nodes[x]))
    {
      ghost var bs := blocks;
      assert HeldAt(nodes[..], bs, i) && (i + 1 < |bs| ==> HeldAt(nodes[..], bs, i + 1));
      blockSize, neighborNext := leftSize, nodes[nodeIndex].neighborNext;
      if neighborNext != UNUSED && !nodes[neighborNext].used {
        var nextNode := nodes[neighborNext];
        blockSize := blockSize + nextNode.dataSize;
        Absorb(neighborNext, bs[i + 1], nodeIndex);
        neighborNext := nextNode.neighborNext;
      }
    }

    /** Give the joined extent back as one free node, and connect it. */
    method PutBackJoined(nodeIndex: nat, offset: nat, blockSize: nat, neighborPrev: nat, neighborNext: nat, ghost i: nat, ghost nodes0: seq<Node>)
      requires Shape() && BinsOk() && 0 < freeOffset && InNoBin(bins, nodeIndex) && blockSize < TWO32
      requires NeighborLinks(nodes0, blocks) && |nodes0| == nodes.Length && DistinctIds(blocks)
      requires i < |blocks| && blocks[i].id == nodeIndex
      requires offset == Joined(blocks, i).offset && blockSize == Joined(blocks, i).size
      requires neighborPrev == PrevId(blocks, JoinFrom(blocks, i)) && neighborNext == NextId(blocks, JoinTo(blocks, i) - 1)
      requires forall k :: 0 <= k < |blocks| ==> blocks[k].id < nodes.Length <= UNUSED
      requires forall x :: 0 <= x < nodes.Length ==> SameBlock(nodes[x], nodes0[x])
      modifies this`freeStorage, this`usedBinsTop, this`freeOffset, this`bins, this`blocks, usedBins, binIndices, nodes, freeNodes
      ensures Shape() && BinsOk() && NeighborLinks(nodes[..], blocks)
      ensures blocks == var bs := old(blocks); Splice(bs, JoinFrom(bs, i), JoinTo(bs, i), [Joined(bs, i)])
      ensures freeOffset == old(freeOffset) && freeNodes[freeOffset..currentCapacity] == old(freeNodes[freeOffset..currentCapacity])
      ensures freeStorage == old(freeStorage) + blockSize
      ensures RoundDown(blockSize) < |bins| && bins == Push(old(bins), RoundDown(blockSize), nodeIndex)
    {
      ghost var bs := blocks;
      freeOffset := freeOffset - 1;
      freeNodes[freeOffset] := nodeIndex;
      var combinedNodeIndex := InsertNodeIntoBin(blockSize, offset);
      LinkBetween(neighborPrev, combinedNodeIndex, neighborNext);
      blocks := Splice(bs, JoinFrom(bs, i), JoinTo(bs, i), [Joined(bs, i)]);
      JoinNeighbors(nodes0, nodes[..], bs, i);
    }

    /** Free block i: absorb its free neighbours, put the joined block back. */
    method FreeBlock(nodeIndex: nat, ghost i: nat)
      requires Linked() && freeOffset == |blocks| && DistinctIds(blocks) && BinsExact(FreeBlocks(blocks), bins)
      requires i < |blocks| && blocks[i].used && blocks[i].id == nodeIndex && Joined(blocks, i).size < TWO32
      requires forall k :: 0 <= k < |blocks| ==> blocks[k].size < TWO32 && blocks[k].id < nodes.Length <= UNUSED
      modifies this`freeStorage, this`usedBinsTop, this`freeOffset, this`bins, this`blocks, usedBins, binIndices, nodes, freeNodes
      ensures Shape() && BinsOk() && NeighborLinks(nodes[..], blocks)
      ensures var bs, joined := old(blocks), Joined(old(blocks), i);
              && blocks == Splice(bs, JoinFrom(bs, i), JoinTo(bs, i), [joined])
              && freeNodes[freeOffset..currentCapacity] == FreedSlots(bs, i) + old(freeNodes[freeOffset..currentCapacity])
              && RoundDown(joined.size) < |bins| && bins == Push(UnlinkNeighbours(bs, old(bins), i), RoundDown(joined.size), nodeIndex)
              && freeStorage == old(freeStorage) + bs[i].size
    {
      ghost var bs, nodes0, slots := blocks, nodes[..], freeNodes[freeOffset..currentCapacity];
      UsedInNoBin(bs, bins, i);
      var offset, leftSize, neighborPrev := AbsorbPrev(nodeIndex, i);
      SameNeighbors(nodes0, nodes[..], bs);
      var blockSize, neighborNext := AbsorbNext(nodeIndex, leftSize, i);
      FreedOver(bs, i, slots);
      PutBackJoined(nodeIndex, offset, blockSize, neighborPrev, neighborNext, i, nodes0);
    }

    /** Free as the heap does. */
    method Free(nodeIndex: nat)
      requires Valid() && Allowed(H(), FreeRequest(nodeIndex))
      modifies this, usedBins, binIndices, nodes, freeNodes
      ensures Valid() && H() == FreeOn(old(H()), nodeIndex)
    {
      ghost var h, i := H(), IndexOf(blocks, nodeIndex);
      FreeReady(h, nodeIndex);
      FreeBlock(nodeIndex, i);
    }

    /** An allocator over `size` units: one free node, all other slots on the stack. */
    constructor (size: nat, initCapacity: nat, maxCapacity: nat)
      requires 1 <= initCapacity < TWO32 && size < TWO32 && maxCapacity < TWO32
      ensures Valid() && H() == Init(size, initCapacity, maxCapacity)
      ensures fresh(usedBins) && fresh(binIndices) && fresh(nodes) && fresh(freeNodes)
    {
      this.size := size;
      var max := if maxCapacity < initCapacity then initCapacity else maxCapacity;
      this.maxCapacity := max;
      currentCapacity := initCapacity;
      freeStorage, usedBinsTop, freeOffset := 0, 0, 0;
      usedBins := new nat[32](_ => 0);
      binIndices := new nat[NUM_LEAF_BINS](_ => UNUSED);
      nodes := new Node[max](_ => FreshNode);
      freeNodes := new nat[max](i => i);
      blocks, bins := [Block(0, 0, size, false)], seq(NUM_LEAF_BINS, _ => []);
      new;
      EmptyIndex(nodes[..], binIndices[..], usedBins[..], bins);
      var nodeIndex := InsertNodeIntoBin(size, 0);
      InitIs(size, initCapacity, maxCapacity, freeNodes[1..initCapacity], bins);
      assert HeldAt(nodes[..], blocks, 0) && FreeTotal(blocks) == size;
    }
  }
}
