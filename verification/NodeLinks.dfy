/**
  How the allocator's arrays represent a heap: the neighbour links of the nodes,
  the doubly linked list of every bin, and the two-level bitmap over the bins.
  Each lemma says that one group of array writes represents one change of the heap.
*/
module NodeLinks {
  import opened SmallFloat
  import opened Bits
  import opened HeapModel

  const UNUSED: nat := 0xffff_ffff

  datatype Node = Node(dataOffset: nat, dataSize: nat, binListPrev: nat, binListNext: nat,
                       neighborPrev: nat, neighborNext: nat, used: bool)

  const FreshNode := Node(0, 0, UNUSED, UNUSED, UNUSED, UNUSED, false)

  // ---- neighbour links

  function PrevId(bs: seq<Block>, i: nat): nat
    requires i < |bs|
  {
    if i == 0 then UNUSED else bs[i - 1].id
  }

  function NextId(bs: seq<Block>, i: nat): nat
    requires i < |bs|
  {
    if i + 1 == |bs| then UNUSED else bs[i + 1].id
  }

  /** The node of block i holds it, linked to the nodes of blocks i - 1 and i + 1. */
  predicate HeldAt(nodes: seq<Node>, bs: seq<Block>, i: nat)
    requires i < |bs|
  {
    && bs[i].id < |nodes|
    && SameBlock(nodes[bs[i].id], Node(bs[i].offset, bs[i].size, 0, 0, PrevId(bs, i), NextId(bs, i), bs[i].used))
  }

  ghost predicate NeighborLinks(nodes: seq<Node>, bs: seq<Block>) {
    forall i :: 0 <= i < |bs| ==> HeldAt(nodes, bs, i)
  }

  /** The two nodes agree on everything but their bin links. */
  predicate SameBlock(m: Node, n: Node) {
    m.dataOffset == n.dataOffset && m.dataSize == n.dataSize && m.used == n.used &&
    m.neighborPrev == n.neighborPrev && m.neighborNext == n.neighborNext
  }

  /** Node n, which held block k of bs before the replaced run, as it must be afterwards. */
  function RelinkBefore(n: Node, k: nat, lo: nat, mid: seq<Block>): Node
    requires |mid| > 0
  {
    if k + 1 == lo then n.(neighborNext := mid[0].id) else n
  }

  function RelinkAfter(n: Node, k: nat, hi: nat, mid: seq<Block>): Node
    requires |mid| > 0
  {
    if k == hi then n.(neighborPrev := mid[|mid| - 1].id) else n
  }

  lemma SameNeighbors(nodes: seq<Node>, nodes': seq<Node>, bs: seq<Block>)
    requires NeighborLinks(nodes, bs) && |nodes'| == |nodes|
    requires forall x :: 0 <= x < |nodes| ==> SameBlock(nodes'[x], nodes[x])
    ensures NeighborLinks(nodes', bs)
  {
    forall k | 0 <= k < |bs| ensures HeldAt(nodes', bs, k) { assert HeldAt(nodes, bs, k); }
  }

  /** Replacing a run of blocks by mid needs the nodes of mid, and one link of each outer neighbour. */
  lemma SpliceNeighbors(nodes: seq<Node>, nodes': seq<Node>, bs: seq<Block>, lo: nat, hi: nat, mid: seq<Block>)
    requires NeighborLinks(nodes, bs) && lo < hi <= |bs| && |mid| > 0 && |nodes'| == |nodes|
    requires forall k :: lo <= k < lo + |mid| ==> HeldAt(nodes', Splice(bs, lo, hi, mid), k)
    requires forall k :: 0 <= k < |bs| ==> bs[k].id < |nodes|
    requires forall k :: 0 <= k < lo ==> SameBlock(nodes'[bs[k].id], RelinkBefore(nodes[bs[k].id], k, lo, mid))
    requires forall k :: hi <= k < |bs| ==> SameBlock(nodes'[bs[k].id], RelinkAfter(nodes[bs[k].id], k, hi, mid))
    ensures NeighborLinks(nodes', Splice(bs, lo, hi, mid))
  {
    var r := Splice(bs, lo, hi, mid);
    forall k | 0 <= k < |r|
      ensures HeldAt(nodes', r, k)
    {
      if k < lo {
        KeptBefore(bs, lo, hi, mid, k);
        assert HeldAt(nodes, bs, k);
      } else if k < lo + |mid| {
      } else {
        var j := k - lo - |mid| + hi;
        KeptAfter(bs, lo, hi, mid, j);
        assert HeldAt(nodes, bs, j);
      }
    }
  }

  lemma KeptBefore(bs: seq<Block>, lo: nat, hi: nat, mid: seq<Block>, k: nat)
    requires k < lo < hi <= |bs| && |mid| > 0
    ensures var r := Splice(bs, lo, hi, mid);
            && r[k] == bs[k] && PrevId(r, k) == PrevId(bs, k)
            && NextId(r, k) == if k == lo - 1 then mid[0].id else NextId(bs, k)
  {
  }

  lemma KeptAfter(bs: seq<Block>, lo: nat, hi: nat, mid: seq<Block>, j: nat)
    requires lo < hi <= j < |bs| && |mid| > 0
    ensures var r, k := Splice(bs, lo, hi, mid), j - hi + |mid| + lo;
            && k < |r| && r[k] == bs[j] && NextId(r, k) == NextId(bs, j)
            && PrevId(r, k) == if j == hi then mid[|mid| - 1].id else PrevId(bs, j)
  {
  }

  /** The writes of allocate: block i taken, its rest (if any) linked in as node `rest`. */
  lemma CutNeighbors(nodes: seq<Node>, nodes': seq<Node>, bs: seq<Block>, i: nat, size: nat, rest: nat)
    requires NeighborLinks(nodes, bs) && DistinctIds(bs) && i < |bs| && size < bs[i].size && |nodes'| == |nodes| <= UNUSED
    requires rest < |nodes| && forall k :: 0 <= k < |bs| ==> bs[k].id != rest && bs[k].id < |nodes|
    requires SameBlock(nodes'[bs[i].id], nodes[bs[i].id].(dataSize := size, used := true, neighborNext := rest))
    requires SameBlock(nodes'[rest], Node(bs[i].offset + size, bs[i].size - size, 0, 0, bs[i].id, NextId(bs, i), false))
    requires NextId(bs, i) != UNUSED && i + 1 < |bs| ==> SameBlock(nodes'[NextId(bs, i)], nodes[NextId(bs, i)].(neighborPrev := rest))
    requires forall x :: 0 <= x < |nodes| && x != bs[i].id && x != rest && x != NextId(bs, i) ==> SameBlock(nodes'[x], nodes[x])
    ensures NeighborLinks(nodes', Splice(bs, i, i + 1, Cut(bs[i], size, rest)))
  {
    var mid := Cut(bs[i], size, rest);
    var r := Splice(bs, i, i + 1, mid);
    assert HeldAt(nodes, bs, i) && (i > 0 ==> HeldAt(nodes, bs, i - 1));
    assert r[i] == mid[0] && r[i + 1] == mid[1];
    assert i > 0 ==> r[i - 1] == bs[i - 1];
    assert i + 1 < |bs| ==> r[i + 2] == bs[i + 1];
    assert HeldAt(nodes', r, i) && HeldAt(nodes', r, i + 1);
    SpliceNeighbors(nodes, nodes', bs, i, i + 1, mid);
  }

  /** The writes of allocate when block i fits exactly. */
  lemma ExactNeighbors(nodes: seq<Node>, nodes': seq<Node>, bs: seq<Block>, i: nat, rest: nat)
    requires NeighborLinks(nodes, bs) && i < |bs| && |nodes'| == |nodes| && forall k :: 0 <= k < |bs| ==> bs[k].id < |nodes|
    requires SameBlock(nodes'[bs[i].id], nodes[bs[i].id].(used := true))
    requires DistinctIds(bs)
    requires forall x :: 0 <= x < |nodes| && x != bs[i].id ==> SameBlock(nodes'[x], nodes[x])
    ensures NeighborLinks(nodes', Splice(bs, i, i + 1, Cut(bs[i], bs[i].size, rest)))
  {
    var r := Splice(bs, i, i + 1, Cut(bs[i], bs[i].size, rest));
    assert forall k :: 0 <= k < |r| ==> r[k].id == bs[k].id;
    forall k | 0 <= k < |r| ensures HeldAt(nodes', r, k) { assert HeldAt(nodes, bs, k); }
  }

  /** The writes of free: block i and its free neighbours become one node under block i's id. */
  lemma JoinNeighbors(nodes: seq<Node>, nodes': seq<Node>, bs: seq<Block>, i: nat)
    requires NeighborLinks(nodes, bs) && DistinctIds(bs) && i < |bs| && |nodes'| == |nodes| <= UNUSED
    requires forall k :: 0 <= k < |bs| ==> bs[k].id < |nodes|
    requires var j, p, n := Joined(bs, i), PrevId(bs, JoinFrom(bs, i)), NextId(bs, JoinTo(bs, i) - 1);
             && SameBlock(nodes'[j.id], Node(j.offset, j.size, 0, 0, p, n, false))
             && (p < |nodes| ==> SameBlock(nodes'[p], nodes[p].(neighborNext := j.id)))
             && (n < |nodes| ==> SameBlock(nodes'[n], nodes[n].(neighborPrev := j.id)))
             && forall x :: 0 <= x < |nodes| && x != j.id && x != p && x != n ==> SameBlock(nodes'[x], nodes[x])
    ensures NeighborLinks(nodes', Splice(bs, JoinFrom(bs, i), JoinTo(bs, i), [Joined(bs, i)]))
  {
    var lo, hi, mid := JoinFrom(bs, i), JoinTo(bs, i), [Joined(bs, i)];
    var r := Splice(bs, lo, hi, mid);
    assert r[lo] == mid[0];
    assert lo > 0 ==> r[lo - 1] == bs[lo - 1];
    assert hi < |bs| ==> r[lo + 1] == bs[hi];
    assert HeldAt(nodes', r, lo);
    SpliceNeighbors(nodes, nodes', bs, lo, hi, mid);
  }

  // ---- bin lists

  function PrevOn(s: seq<nat>, k: nat): nat
    requires k < |s|
  {
    if k == 0 then UNUSED else s[k - 1]
  }

  function NextOn(s: seq<nat>, k: nat): nat
    requires k < |s|
  {
    if k + 1 == |s| then UNUSED else s[k + 1]
  }

  /** The node at place k of the list points to the places before and after it. */
  predicate LinkedAt(nodes: seq<Node>, s: seq<nat>, k: nat)
    requires k < |s|
  {
    s[k] < |nodes| && nodes[s[k]].binListPrev == PrevOn(s, k) && nodes[s[k]].binListNext == NextOn(s, k)
  }

  ghost predicate ListLinks(nodes: seq<Node>, s: seq<nat>) {
    forall k :: 0 <= k < |s| ==> LinkedAt(nodes, s, k)
  }

  function HeadOf(s: seq<nat>): nat {
    if s == [] then UNUSED else s[0]
  }

  ghost predicate BinLinks(nodes: seq<Node>, heads: seq<nat>, bins: seq<seq<nat>>) {
    && |heads| == |bins| && |nodes| <= UNUSED
    && forall b :: 0 <= b < |bins| ==> heads[b] == HeadOf(bins[b]) && ListLinks(nodes, bins[b])
  }

  predicate SameLinks(m: Node, n: Node) {
    m.binListPrev == n.binListPrev && m.binListNext == n.binListNext
  }

  lemma FrameLinks(nodes: seq<Node>, nodes': seq<Node>, heads: seq<nat>, bins: seq<seq<nat>>)
    requires BinLinks(nodes, heads, bins) && |nodes'| == |nodes|
    requires forall b, x :: 0 <= b < |bins| && x in bins[b] && x < |nodes| ==> SameLinks(nodes'[x], nodes[x])
    ensures BinLinks(nodes', heads, bins)
  {
    forall b | 0 <= b < |bins|
      ensures ListLinks(nodes', bins[b])
    {
      forall k | 0 <= k < |bins[b]|
        ensures LinkedAt(nodes', bins[b], k)
      {
        assert LinkedAt(nodes, bins[b], k) && bins[b][k] in bins[b];
      }
    }
  }

  /** No node is on two lists, or twice on one. */
  ghost predicate OneBin(bins: seq<seq<nat>>) {
    && (forall b :: 0 <= b < |bins| ==> Distinct(bins[b]))
    && (forall b, c, x :: 0 <= b < |bins| && 0 <= c < |bins| && x in bins[b] && x in bins[c] ==> b == c)
  }

  ghost predicate InNoBin(bins: seq<seq<nat>>, x: nat) {
    forall b :: 0 <= b < |bins| ==> x !in bins[b]
  }

  lemma FrameList(nodes: seq<Node>, nodes': seq<Node>, s: seq<nat>)
    requires ListLinks(nodes, s) && |nodes'| == |nodes|
    requires forall x :: x in s && x < |nodes| ==> nodes'[x] == nodes[x]
    ensures ListLinks(nodes', s)
  {
    forall k | 0 <= k < |s| ensures LinkedAt(nodes', s, k) { assert LinkedAt(nodes, s, k) && s[k] in s; }
  }

  /** Node id, freshly written, in front of the list; the old head points back to it. */
  function Prepended(nodes: seq<Node>, s: seq<nat>, id: nat, n: Node): (r: seq<Node>)
    requires id < |nodes| && (s != [] ==> s[0] < |nodes|)
    ensures |r| == |nodes|
    ensures forall x :: 0 <= x < |nodes| && x != id ==> SameBlock(r[x], nodes[x])
  {
    var w := nodes[id := n];
    if s == [] then w else w[s[0] := w[s[0]].(binListPrev := id)]
  }

  lemma PrependList(nodes: seq<Node>, s: seq<nat>, id: nat, n: Node)
    requires ListLinks(nodes, s) && Distinct(s) && id !in s && id < |nodes| <= UNUSED
    requires n.binListPrev == UNUSED && n.binListNext == HeadOf(s)
    ensures s != [] ==> s[0] < |nodes|
    ensures ListLinks(Prepended(nodes, s, id, n), [id] + s)
  {
    assert s != [] ==> LinkedAt(nodes, s, 0);
    var s', nodes' := [id] + s, Prepended(nodes, s, id, n);
    assert s != [] ==> s'[1] == s[0];
    forall k | 0 <= k < |s'|
      ensures LinkedAt(nodes', s', k)
    {
      if k > 0 {
        assert LinkedAt(nodes, s, k - 1) && s'[k] == s[k - 1] && s[k - 1] in s;
        assert NextOn(s', k) == NextOn(s, k - 1);
      }
    }
  }

  lemma PushOneBin(bins: seq<seq<nat>>, bin: nat, id: nat)
    requires OneBin(bins) && InNoBin(bins, id) && bin < |bins|
    ensures OneBin(Push(bins, bin, id))
  {
  }

  /** The writes of insertNodeIntoBin put node id at the front of the bin's list. */
  lemma InsertLinks(nodes: seq<Node>, heads: seq<nat>, bins: seq<seq<nat>>, bin: nat, id: nat, n: Node)
    requires BinLinks(nodes, heads, bins) && OneBin(bins) && InNoBin(bins, id)
    requires bin < |bins| && id < |nodes|
    requires n.binListPrev == UNUSED && n.binListNext == heads[bin]
    ensures bins[bin] != [] ==> bins[bin][0] < |nodes|
    ensures BinLinks(Prepended(nodes, bins[bin], id, n), heads[bin := id], Push(bins, bin, id))
  {
    var s := bins[bin];
    assert s != [] ==> s[0] in s && LinkedAt(nodes, s, 0);
    var nodes' := Prepended(nodes, s, id, n);
    PrependList(nodes, s, id, n);
    forall b | 0 <= b < |bins| && b != bin
      ensures ListLinks(nodes', bins[b])
    {
      FrameList(nodes, nodes', bins[b]);
    }
  }

  /** Place k of the list bypassed: its neighbours on the list point to each other. */
  function Bypassed(nodes: seq<Node>, s: seq<nat>, k: nat): (r: seq<Node>)
    requires k < |s| && ListLinks(nodes, s)
    ensures |r| == |nodes|
    ensures forall x :: 0 <= x < |nodes| && x != PrevOn(s, k) && x != NextOn(s, k) ==> r[x] == nodes[x]
    ensures forall x :: 0 <= x < |nodes| ==> SameBlock(r[x], nodes[x])
  {
    assert LinkedAt(nodes, s, k) && (k > 0 ==> LinkedAt(nodes, s, k - 1)) && (k + 1 < |s| ==> LinkedAt(nodes, s, k + 1));
    var w := if k == 0 then nodes else nodes[s[k - 1] := nodes[s[k - 1]].(binListNext := nodes[s[k]].binListNext)];
    if k + 1 == |s| then w else w[s[k + 1] := w[s[k + 1]].(binListPrev := nodes[s[k]].binListPrev)]
  }

  lemma BypassList(nodes: seq<Node>, s: seq<nat>, k: nat)
    requires ListLinks(nodes, s) && Distinct(s) && k < |s|
    ensures ListLinks(Bypassed(nodes, s, k), s[..k] + s[k + 1..])
  {
    var s', nodes' := s[..k] + s[k + 1..], Bypassed(nodes, s, k);
    assert LinkedAt(nodes, s, k) && (k > 0 ==> LinkedAt(nodes, s, k - 1)) && (k + 1 < |s| ==> LinkedAt(nodes, s, k + 1));
    forall j | 0 <= j < |s'|
      ensures LinkedAt(nodes', s', j)
    {
      var i := if j < k then j else j + 1;
      assert s'[j] == s[i] && LinkedAt(nodes, s, i);
      assert PrevOn(s', j) == if j == k then PrevOn(s, k) else PrevOn(s, i);
      assert NextOn(s', j) == if j + 1 == k then NextOn(s, k) else NextOn(s, i);
    }
  }

  lemma DropOneBin(bins: seq<seq<nat>>, bin: nat, k: nat)
    requires OneBin(bins) && bin < |bins| && k < |bins[bin]|
    ensures OneBin(bins[bin := bins[bin][..k] + bins[bin][k + 1..]])
  {
  }

  /** The writes of removeNodeFromBin take the node at place k of its bin off the list. */
  lemma RemoveLinks(nodes: seq<Node>, heads: seq<nat>, bins: seq<seq<nat>>, bin: nat, k: nat)
    requires BinLinks(nodes, heads, bins) && OneBin(bins) && bin < |bins| && k < |bins[bin]|
    ensures LinkedAt(nodes, bins[bin], 0)
    ensures BinLinks(Bypassed(nodes, bins[bin], k),
                     if k > 0 then heads else heads[bin := nodes[bins[bin][0]].binListNext],
                     bins[bin := bins[bin][..k] + bins[bin][k + 1..]])
  {
    var s, nodes' := bins[bin], Bypassed(nodes, bins[bin], k);
    BypassList(nodes, s, k);
    forall b | 0 <= b < |bins| && b != bin
      ensures ListLinks(nodes', bins[b])
    {
      assert (k > 0 ==> s[k - 1] in s) && (k + 1 < |s| ==> s[k + 1] in s);
      FrameList(nodes, nodes', bins[b]);
    }
  }

  // ---- the two-level bitmap

  /** Leaf bit (t, l) says that bin 8t + l is non-empty; top bit t says that leaf mask t is not zero. */
  ghost predicate Bitmap(top: nat, leaf: seq<nat>, bins: seq<seq<nat>>) {
    && |bins| == NUM_LEAF_BINS && |leaf| == 32 && top < TWO32
    && (forall t :: 0 <= t < 32 ==> leaf[t] < 256 && (Bit(top, t) <==> leaf[t] != 0))
    && (forall t, l :: 0 <= t < 32 && 0 <= l < 8 ==> (Bit(leaf[t], l) <==> bins[8 * t + l] != []))
  }

  lemma LeafNonZero(v: nat)
    requires v < 256
    ensures v != 0 <==> exists l :: 0 <= l < 8 && Bit(v, l)
  {
    if v != 0 {
      var l := SomeBit(v, 8);
      assert Bit(v, l);
    } else {
      forall l | 0 <= l < 8 ensures !Bit(v, l) { NoBit(l); }
    }
  }

  /** Changing the leaf mask of one bin at the bin's own bit changes what is said of that bin only. */
  lemma LeafUpdate(leaf: seq<nat>, bins: seq<seq<nat>>, bin: nat, bins': seq<seq<nat>>, v: nat, t: nat, l: nat)
    requires |leaf| == 32 && |bins| == |bins'| == NUM_LEAF_BINS && bin < |bins| && t < 32 && l < 8
    requires forall k :: 0 <= k < |bins| && k != bin ==> bins'[k] == bins[k]
    requires Bit(leaf[t], l) <==> bins[8 * t + l] != []
    requires t == bin / 8 ==> (Bit(v, l) <==> if l == bin % 8 then bins'[bin] != [] else Bit(leaf[t], l))
    ensures Bit(leaf[bin / 8 := v][t], l) <==> bins'[8 * t + l] != []
  {
  }

  lemma MarkBitmap(top: nat, leaf: seq<nat>, bins: seq<seq<nat>>, bin: nat, bins': seq<seq<nat>>, top': nat, v: nat)
    requires Bitmap(top, leaf, bins) && bin < |bins| && |bins'| == |bins| && bins'[bin] != []
    requires forall k :: 0 <= k < |bins| && k != bin ==> bins'[k] == bins[k]
    requires top' == Or(top, Pow2(bin / 8)) && v == Or(leaf[bin / 8], Pow2(bin % 8))
    ensures Bitmap(top', leaf[bin / 8 := v], bins')
  {
    var t0, l0 := bin / 8, bin % 8;
    var leaf' := leaf[t0 := v];
    assert Pow2(8) == 256;
    Pow2Bound(t0);
    OrBound(top, Pow2(t0), 32);
    Pow2Monotone(l0, 7);
    OrBound(leaf[t0], Pow2(l0), 8);
    forall t | 0 <= t < 32 ensures Bit(top', t) <==> t == t0 || Bit(top, t) { SetBit(top, t0, t); }
    forall l | 0 <= l < 8 ensures Bit(v, l) <==> l == l0 || Bit(leaf[t0], l) { SetBit(leaf[t0], l0, l); }
    forall t, l | 0 <= t < 32 && 0 <= l < 8 ensures Bit(leaf'[t], l) <==> bins'[8 * t + l] != [] {
      LeafUpdate(leaf, bins, bin, bins', v, t, l);
    }
    assert Bit(v, l0);
  }

  /** Clearing the leaf bit, and the top bit when the leaf mask becomes zero. */
  lemma UnmarkBitmap(top: nat, leaf: seq<nat>, bins: seq<seq<nat>>, bin: nat, bins': seq<seq<nat>>, top': nat, v: nat)
    requires Bitmap(top, leaf, bins) && bin < |bins| && |bins'| == |bins| && bins'[bin] == []
    requires forall k :: 0 <= k < |bins| && k != bin ==> bins'[k] == bins[k]
    requires Pow2(bin / 8) < TWO32 && Pow2(bin % 8) < TWO32
    requires v == And(leaf[bin / 8], Not(Pow2(bin % 8)))
    requires top' == if v == 0 then And(top, Not(Pow2(bin / 8))) else top
    ensures Bitmap(top', leaf[bin / 8 := v], bins')
  {
    var t0, l0 := bin / 8, bin % 8;
    var leaf' := leaf[t0 := v];
    if v == 0 {
      forall t | 0 <= t < 32 ensures Bit(top', t) <==> t != t0 && Bit(top, t) { ClearBit(top, t0, t); }
    }
    forall l | 0 <= l < 8 ensures Bit(v, l) <==> l != l0 && Bit(leaf[t0], l) { ClearBit(leaf[t0], l0, l); }
    LeafNonZero(leaf[t0]);
    LeafNonZero(v);
    forall t, l | 0 <= t < 32 && 0 <= l < 8 ensures Bit(leaf'[t], l) <==> bins'[8 * t + l] != [] {
      LeafUpdate(leaf, bins, bin, bins', v, t, l);
    }
  }

  // ---- searching the bitmap

  lemma FirstBinIs(bins: seq<seq<nat>>, from: nat, b: nat)
    requires from <= b <= |bins| && (b < |bins| ==> bins[b] != [])
    requires forall k :: from <= k < b ==> bins[k] == []
    ensures FirstBin(bins, from) == b
    decreases b - from
  {
  }

  lemma LastBinIs(bins: seq<seq<nat>>, n: nat, b: nat)
    requires b <= n <= |bins| && (b > 0 ==> bins[b - 1] != [])
    requires forall k :: b <= k < n ==> bins[k] == []
    ensures LastBin(bins, n) == b
    decreases n - b
  {
  }

  lemma LeafBits(top: nat, leaf: seq<nat>, bins: seq<seq<nat>>, t: nat)
    requires Bitmap(top, leaf, bins) && t < 32
    ensures forall j :: 8 <= j < 32 ==> !Bit(leaf[t], j)
    ensures Bit(top, t) <==> exists l :: 0 <= l < 8 && Bit(leaf[t], l)
  {
    assert Pow2(8) == 256;
    forall j | 8 <= j < 32 ensures !Bit(leaf[t], j) { NoHighBit(leaf[t], 8, j); }
    LeafNonZero(leaf[t]);
  }

  /** Reading a bin through its two bits. */
  lemma BinBits(top: nat, leaf: seq<nat>, bins: seq<seq<nat>>, k: nat)
    requires Bitmap(top, leaf, bins) && k < |bins|
    ensures bins[k] != [] <==> Bit(leaf[k / 8], k % 8)
    ensures bins[k] != [] ==> Bit(top, k / 8)
  {
    var t, l := k / 8, k % 8;
    assert k == 8 * t + l;
    LeafBits(top, leaf, bins, t);
  }

  /** A hit in the leaf mask of the request's own top bin is the first non-empty bin. */
  lemma SearchSameTop(top: nat, leaf: seq<nat>, bins: seq<seq<nat>>, min: nat, l: nat)
    requires Bitmap(top, leaf, bins) && min < |bins| && min % 8 <= l < 32 && Bit(leaf[min / 8], l)
    requires forall j :: min % 8 <= j < l ==> !Bit(leaf[min / 8], j)
    ensures l < 8 && FirstBin(bins, min) == 8 * (min / 8) + l
  {
    var t, m := min / 8, min % 8;
    assert min == 8 * t + m;
    LeafBits(top, leaf, bins, t);
    assert l < 8;
    forall k | min <= k < 8 * t + l
      ensures bins[k] == []
    {
      var j := k - 8 * t;
      assert !Bit(leaf[t], j) && k == 8 * t + j;
    }
    FirstBinIs(bins, min, 8 * t + l);
  }

  /** Otherwise the lowest leaf bit of the next set top bit is. */
  lemma SearchNextTop(top: nat, leaf: seq<nat>, bins: seq<seq<nat>>, min: nat, t: nat, l: nat)
    requires Bitmap(top, leaf, bins) && min < |bins| && min / 8 < t < 32 && l < 32 && Bit(top, t) && Bit(leaf[t], l)
    requires forall j :: min % 8 <= j < 8 ==> !Bit(leaf[min / 8], j)
    requires forall j :: min / 8 < j < t ==> !Bit(top, j)
    requires forall j :: 0 <= j < l ==> !Bit(leaf[t], j)
    ensures l < 8 && FirstBin(bins, min) == 8 * t + l
  {
    LeafBits(top, leaf, bins, t);
    forall k | min <= k < 8 * t + l
      ensures bins[k] == []
    {
      BinBits(top, leaf, bins, k);
      if k / 8 == t { assert k % 8 < l; }
    }
    FirstBinIs(bins, min, 8 * t + l);
  }

  lemma SearchNone(top: nat, leaf: seq<nat>, bins: seq<seq<nat>>, min: nat)
    requires Bitmap(top, leaf, bins) && min < |bins|
    requires forall j :: min % 8 <= j < 8 ==> !Bit(leaf[min / 8], j)
    requires forall j :: min / 8 < j < 32 ==> !Bit(top, j)
    ensures FirstBin(bins, min) == |bins|
  {
    forall k | min <= k < |bins| ensures bins[k] == [] { BinBits(top, leaf, bins, k); }
    FirstBinIs(bins, min, |bins|);
  }

  /** The highest leaf bit of the highest top bit is the last non-empty bin. */
  lemma SearchLast(top: nat, leaf: seq<nat>, bins: seq<seq<nat>>, t: nat, l: nat)
    requires Bitmap(top, leaf, bins) && t < 32 && l < 32 && Bit(top, t) && Bit(leaf[t], l)
    requires forall j :: t < j < 32 ==> !Bit(top, j)
    requires forall j :: l < j < 32 ==> !Bit(leaf[t], j)
    ensures l < 8 && LastBin(bins, |bins|) == 8 * t + l + 1
  {
    LeafBits(top, leaf, bins, t);
    forall k | 8 * t + l < k < |bins|
      ensures bins[k] == []
    {
      BinBits(top, leaf, bins, k);
      if k / 8 == t { assert k % 8 > l; }
    }
    LastBinIs(bins, |bins|, 8 * t + l + 1);
  }

  /** A slot on the stack is on no bin list. */
  lemma SlotInNoBin(h: Heap, x: nat)
    requires Inv(h)
    ensures x in h.slots ==> InNoBin(h.bins, x)
  {
  }

  /** A used block's node is on no bin list. */
  lemma UsedInNoBin(bs: seq<Block>, bins: seq<seq<nat>>, i: nat)
    requires DistinctIds(bs) && BinsExact(FreeBlocks(bs), bins) && i < |bs|
    ensures bs[i].used ==> InNoBin(bins, bs[i].id)
  {
  }

  lemma UnlinkKeepsOut(bins: seq<seq<nat>>, b: Block, x: nat)
    requires RoundDown(b.size) < |bins| && b.id in bins[RoundDown(b.size)] && InNoBin(bins, x)
    ensures InNoBin(Unlink(bins, b), x)
  {
  }

  /** An empty index: no lists, no bits. */
  lemma EmptyIndex(nodes: seq<Node>, heads: seq<nat>, leaf: seq<nat>, bins: seq<seq<nat>>)
    requires |heads| == |bins| == NUM_LEAF_BINS && |leaf| == 32 && |nodes| <= UNUSED
    requires forall b :: 0 <= b < |bins| ==> bins[b] == [] && heads[b] == UNUSED
    requires forall t :: 0 <= t < 32 ==> leaf[t] == 0
    ensures OneBin(bins) && BinLinks(nodes, heads, bins) && Bitmap(0, leaf, bins)
  {
    forall i | 0 <= i < 32 ensures !Bit(0, i) { NoBit(i); }
  }
}
