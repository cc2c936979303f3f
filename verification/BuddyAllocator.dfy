/** The managed buffers of the transfer engine: raw pools cut into slabs of 16 sizes. */
module BuddyAllocator {
  const DEFAULT_BUFFER_CAPACITY: nat := 2 * 1024 * 1024 * 1024
  const MAX_CLASS_ID: nat := 15
  const MAX_SLAB: nat := 256 * 1024 * 1024

  function SlabSizeKB(c: nat): nat {
    if c == 0 then 8 else 2 * SlabSizeKB(c - 1)
  }

  function SlabSize(c: nat): nat {
    1024 * SlabSizeKB(c)
  }

  lemma SlabSizes()
    ensures SlabSize(MAX_CLASS_ID) == MAX_SLAB && DEFAULT_BUFFER_CAPACITY == 8 * MAX_SLAB
  {
    assert SlabSizeKB(3) == 64;
    assert SlabSizeKB(6) == 512;
    assert SlabSizeKB(9) == 4096;
    assert SlabSizeKB(12) == 32768;
  }

  lemma {:induction false} SlabSizesGrow(c: nat, d: nat)
    requires c <= d
    ensures 0 < SlabSize(c) <= SlabSize(d) && (c < d ==> SlabSize(c) < SlabSize(d))
    decreases d
  {
    if c < d { SlabSizesGrow(c, d - 1); }
    else if c > 0 { SlabSizesGrow(c - 1, d - 1); }
  }

  /** The smallest slab class that fits, or -1 if none does. */
  method FindClassId(size: nat) returns (c: int)
    ensures c == -1 <==> size > SlabSize(MAX_CLASS_ID)
    ensures c != -1 ==> 0 <= c <= MAX_CLASS_ID && size <= SlabSize(c) && forall d: nat :: d < c ==> SlabSize(d) < size
  {
    if size > SlabSize(MAX_CLASS_ID) { return -1; }
    var i := MAX_CLASS_ID - 1;
    while i >= 0
      invariant -1 <= i < MAX_CLASS_ID && size <= SlabSize(i + 1)
    {
      if size > SlabSize(i) {
        forall d: nat | d < i + 1 ensures SlabSize(d) < size { SlabSizesGrow(d, i); }
        return i + 1;
      }
      i := i - 1;
    }
    return 0;
  }

  // ---- tiling

  /** A slab: where it starts and its class. */
  type Slab = (nat, nat)

  predicate Covers(x: Slab, u: nat) {
    x.0 <= u < x.0 + SlabSize(x.1)
  }

  predicate InPool(base: nat, u: nat) {
    base <= u < base + DEFAULT_BUFFER_CAPACITY
  }

  /** The slabs do not overlap and cover exactly the pools. */
  ghost predicate Tiled(slabs: set<Slab>, pools: set<nat>) {
    && (forall x, y, u :: x in slabs && y in slabs && Covers(x, u) && Covers(y, u) ==> x == y)
    && (forall x, u :: x in slabs && Covers(x, u) ==> exists b :: b in pools && InPool(b, u))
    && (forall b, u :: b in pools && InPool(b, u) ==> exists x :: x in slabs && Covers(x, u))
  }

  function Halves(x: Slab): set<Slab>
    requires x.1 > 0
  {
    {(x.0, x.1 - 1), (x.0 + SlabSize(x.1 - 1), x.1 - 1)}
  }

  lemma HalvesCover(x: Slab, u: nat)
    requires x.1 > 0
    ensures Covers(x, u) <==> exists y :: y in Halves(x) && Covers(y, u)
    ensures forall y, z :: y in Halves(x) && z in Halves(x) && Covers(y, u) && Covers(z, u) ==> y == z
  {
  }

  /** Cutting a slab in two keeps the tiling. */
  lemma SplitTiled(slabs: set<Slab>, pools: set<nat>, x: Slab)
    requires Tiled(slabs, pools) && x in slabs && x.1 > 0
    ensures Tiled(slabs - {x} + Halves(x), pools)
  {
    var slabs' := slabs - {x} + Halves(x);
    forall u: nat ensures Covers(x, u) <==> exists y :: y in Halves(x) && Covers(y, u) { HalvesCover(x, u); }
    forall y, z, u | y in slabs' && z in slabs' && Covers(y, u) && Covers(z, u) ensures y == z {
      HalvesCover(x, u);
    }
    forall y, u | y in slabs' && Covers(y, u) ensures exists b :: b in pools && InPool(b, u) {
      if y !in slabs { assert Covers(x, u); }
    }
    forall b, u | b in pools && InPool(b, u) ensures exists y :: y in slabs' && Covers(y, u) {
      var y :| y in slabs && Covers(y, u);
      if y == x {
        var z :| z in Halves(x) && Covers(z, u);
        assert z in slabs';
      } else {
        assert y in slabs';
      }
    }
  }

  // ---- pools

  ghost predicate Apart(b: nat, pools: set<nat>) {
    forall c, u :: c in pools && InPool(c, u) ==> !InPool(b, u)
  }

  /** The first k slabs of a pool. */
  function PoolSlabs(base: nat, k: nat): set<Slab> {
    if k == 0 then {} else PoolSlabs(base, k - 1) + {(base + (k - 1) * MAX_SLAB, MAX_CLASS_ID)}
  }

  predicate InFirst(base: nat, k: nat, u: nat) {
    base <= u < base + k * MAX_SLAB
  }

  lemma {:induction false} PoolSlabsCover(base: nat, k: nat)
    ensures forall x :: x in PoolSlabs(base, k) ==> x.1 == MAX_CLASS_ID
    ensures forall x, u: nat :: x in PoolSlabs(base, k) && Covers(x, u) ==> InFirst(base, k, u)
    ensures forall u: nat :: InFirst(base, k, u) ==> exists x :: x in PoolSlabs(base, k) && Covers(x, u)
    ensures forall x, y, u: nat :: x in PoolSlabs(base, k) && y in PoolSlabs(base, k) && Covers(x, u) && Covers(y, u) ==> x == y
  {
    SlabSizes();
    if k > 0 {
      PoolSlabsCover(base, k - 1);
      var last := (base + (k - 1) * MAX_SLAB, MAX_CLASS_ID);
      assert forall u: nat :: Covers(last, u) <==> last.0 <= u < last.0 + MAX_SLAB;
      forall u: nat | InFirst(base, k, u) ensures exists x :: x in PoolSlabs(base, k) && Covers(x, u) {
        if u >= last.0 {
          assert last in PoolSlabs(base, k) && Covers(last, u);
        } else {
          assert InFirst(base, k - 1, u);
          var x :| x in PoolSlabs(base, k - 1) && Covers(x, u);
          assert x in PoolSlabs(base, k);
        }
      }
    }
  }

  /** A fresh pool, cut into slabs of the largest size, extends the tiling. */
  lemma PoolTiled(slabs: set<Slab>, pools: set<nat>, base: nat)
    requires Tiled(slabs, pools) && Apart(base, pools)
    ensures Tiled(slabs + PoolSlabs(base, 8), pools + {base}) && slabs !! PoolSlabs(base, 8)
  {
    SlabSizes();
    PoolSlabsCover(base, 8);
    var added := PoolSlabs(base, 8);
    forall x, u | x in added && Covers(x, u) ensures InPool(base, u) {}
    forall x | x in added ensures x !in slabs {
      assert Covers(x, x.0) && InPool(base, x.0);
    }
    forall b, u | b in pools + {base} && InPool(b, u) ensures exists x :: x in slabs + added && Covers(x, u) {
      if b == base {
        assert InFirst(base, 8, u);
        var x :| x in added && Covers(x, u);
        assert x in slabs + added;
      } else {
        var x :| x in slabs && Covers(x, u);
        assert x in slabs + added;
      }
    }
    forall x, u | x in slabs + added && Covers(x, u) ensures exists b :: b in pools + {base} && InPool(b, u) {
      if x in slabs {
        var b :| b in pools && InPool(b, u);
        assert b in pools + {base};
      } else {
        assert base in pools + {base};
      }
    }
  }

  // ---- the allocator

  /** Every class above c up to the largest is empty, so that splitting has to start with a new pool. */
  predicate NeedsPool(freeList: seq<seq<nat>>, c: nat)
    requires |freeList| == MAX_CLASS_ID + 1 && c <= MAX_CLASS_ID
    decreases MAX_CLASS_ID - c
  {
    c == MAX_CLASS_ID || (freeList[c + 1] == [] && NeedsPool(freeList, c + 1))
  }

  /** The free lists hold the slabs that are not handed out, each once. */
  ghost predicate Lists(freeList: seq<seq<nat>>, slabs: set<Slab>, live: set<Slab>) {
    && |freeList| == MAX_CLASS_ID + 1 && live <= slabs
    && (forall x :: x in slabs ==> x.1 <= MAX_CLASS_ID && (x in live <==> x.0 !in freeList[x.1]))
    && (forall c, i :: 0 <= c <= MAX_CLASS_ID && 0 <= i < |freeList[c]| ==> (freeList[c][i], c) in slabs)
    && (forall c, i, j :: 0 <= c <= MAX_CLASS_ID && 0 <= i < j < |freeList[c]| ==> freeList[c][i] != freeList[c][j])
  }

  /** Popping the top of a stack. */
  lemma PopLists(freeList: seq<seq<nat>>, slabs: set<Slab>, live: set<Slab>, c: nat)
    requires Lists(freeList, slabs, live) && c <= MAX_CLASS_ID && freeList[c] != []
    ensures var top := freeList[c][|freeList[c]| - 1]; var rest := freeList[c][..|freeList[c]| - 1];
            && (top, c) in slabs && (top, c) !in live
            && Lists(freeList[c := rest], slabs, live + {(top, c)})
            && Lists(freeList[c := rest], slabs - {(top, c)}, live)
  {
  }

  /** Pushing a slab that is handed out or new. */
  lemma PushLists(freeList: seq<seq<nat>>, slabs: set<Slab>, live: set<Slab>, a: nat, c: nat)
    requires Lists(freeList, slabs, live) && c <= MAX_CLASS_ID && ((a, c) in live || (a, c) !in slabs)
    ensures Lists(freeList[c := freeList[c] + [a]], slabs + {(a, c)}, live - {(a, c)})
  {
  }

  /** The first k slabs of a pool as a stack. */
  function Stack(base: nat, k: nat): (r: seq<nat>)
    ensures |r| == k && (k > 0 ==> r[0] == base)
  {
    if k == 0 then [] else Stack(base, k - 1) + [base + (k - 1) * MAX_SLAB]
  }

  lemma {:induction false} PoolLists(freeList: seq<seq<nat>>, slabs: set<Slab>, live: set<Slab>, base: nat, k: nat)
    requires Lists(freeList, slabs, live) && slabs !! PoolSlabs(base, k)
    ensures Lists(freeList[MAX_CLASS_ID := freeList[MAX_CLASS_ID] + Stack(base, k)], slabs + PoolSlabs(base, k), live)
  {
    if k == 0 {
      assert freeList[MAX_CLASS_ID] + Stack(base, 0) == freeList[MAX_CLASS_ID];
      assert slabs + PoolSlabs(base, 0) == slabs;
    } else {
      PoolLists(freeList, slabs, live, base, k - 1);
      PoolSlabsCover(base, k - 1);
      var a := base + (k - 1) * MAX_SLAB;
      var fl := freeList[MAX_CLASS_ID := freeList[MAX_CLASS_ID] + Stack(base, k - 1)];
      assert (a, MAX_CLASS_ID) !in PoolSlabs(base, k - 1) by { LastIsNew(base, k - 1); }
      assert live - {(a, MAX_CLASS_ID)} == live;
      PushLists(fl, slabs + PoolSlabs(base, k - 1), live, a, MAX_CLASS_ID);
      assert slabs + PoolSlabs(base, k - 1) + {(a, MAX_CLASS_ID)} == slabs + PoolSlabs(base, k);
      assert freeList[MAX_CLASS_ID] + Stack(base, k - 1) + [a] == freeList[MAX_CLASS_ID] + Stack(base, k);
    }
  }

  lemma {:induction false} LastIsNew(base: nat, k: nat)
    ensures forall x :: x in PoolSlabs(base, k) ==> x.0 < base + k * MAX_SLAB
  {
    if k > 0 { LastIsNew(base, k - 1); }
  }

  /** The halves of a slab are new slabs. */
  lemma HalvesNew(slabs: set<Slab>, pools: set<nat>, x: Slab)
    requires Tiled(slabs, pools) && x in slabs && x.1 > 0
    ensures Halves(x) !! slabs
  {
    forall y | y in Halves(x) ensures y !in slabs {
      SlabSizesGrow(x.1 - 1, x.1);
      assert Covers(y, y.0) && Covers(x, y.0);
    }
  }

  function SplitTop(freeList: seq<seq<nat>>, c: nat): seq<seq<nat>>
    requires c + 1 < |freeList| && freeList[c + 1] != []
  {
    var stack := freeList[c + 1];
    var buffer := stack[|stack| - 1];
    freeList[c + 1 := stack[..|stack| - 1]][c := freeList[c] + [buffer] + [buffer + SlabSize(c)]]
  }

  lemma SplitLists(freeList: seq<seq<nat>>, slabs: set<Slab>, live: set<Slab>, pools: set<nat>, c: nat)
    requires Lists(freeList, slabs, live) && Tiled(slabs, pools) && c < MAX_CLASS_ID && freeList[c + 1] != []
    ensures var x := (freeList[c + 1][|freeList[c + 1]| - 1], c + 1);
            && x in slabs
            && Lists(SplitTop(freeList, c), slabs - {x} + Halves(x), live) && Tiled(slabs - {x} + Halves(x), pools)
  {
    var stack := freeList[c + 1];
    var a := stack[|stack| - 1];
    var b, x := a + SlabSize(c), (a, c + 1);
    PopLists(freeList, slabs, live, c + 1);
    HalvesNew(slabs, pools, x);
    SplitTiled(slabs, pools, x);
    SlabSizesGrow(c, c);
    assert (a, c) in Halves(x) && (b, c) in Halves(x);
    var fl, rest := freeList[c + 1 := stack[..|stack| - 1]], slabs - {x};
    assert live - {(a, c)} == live && live - {(b, c)} == live;
    PushLists(fl, rest, live, a, c);
    PushLists(fl[c := fl[c] + [a]], rest + {(a, c)}, live, b, c);
    assert rest + {(a, c)} + {(b, c)} == rest + Halves(x);
    assert fl[c := fl[c] + [a]][c := fl[c] + [a] + [b]] == SplitTop(freeList, c);
  }

  /** A slab at address 0 lies in no pool. */
  lemma ZeroBreaks(freeList: seq<seq<nat>>, slabs: set<Slab>, live: set<Slab>, pools: set<nat>)
    requires Lists(freeList, slabs, live) && 0 in freeList[MAX_CLASS_ID] && 0 !in pools
    ensures !Tiled(slabs, pools)
  {
    SlabSizes();
    var x: Slab := (0, MAX_CLASS_ID);
    assert x in slabs && Covers(x, 0);
  }

  /** The list names every pool, and each once. */
  ghost predicate ListsOnce(list: seq<nat>, pools: set<nat>) {
    (forall x :: x in list <==> x in pools) && forall i, j :: 0 <= i < j < |list| ==> list[i] != list[j]
  }

  class TransferEnginePy {
    var freeList: seq<seq<nat>>
    var bufferList: seq<nat>
    var largeBuffers: set<nat>
    ghost var pools: set<nat>
    ghost var slabs: set<Slab>
    ghost var live: set<Slab>

    /** Free slabs and handed-out slabs tile the pools, which are the buffers the destructor will free. */
    ghost predicate Valid()
      reads this
    {
      Lists(freeList, slabs, live) && Tiled(slabs, pools) && 0 !in pools && ListsOnce(bufferList, pools)
    }

    constructor ()
      ensures Valid() && pools == {} && live == {} && largeBuffers == {}
    {
      freeList := seq(MAX_CLASS_ID + 1, _ => []);
      bufferList, largeBuffers := [], {};
      pools, slabs, live := {}, {}, {};
    }

    /** Cuts a pool into slabs of the largest size. */
    method PushPool(raw: nat)
      requires |freeList| == MAX_CLASS_ID + 1
      modifies this`freeList
      ensures freeList == old(freeList[MAX_CLASS_ID := freeList[MAX_CLASS_ID] + Stack(raw, 8)])
    {
      var offset := 0;
      ghost var k := 0;
      SlabSizes();
      assert freeList[MAX_CLASS_ID] + Stack(raw, 0) == freeList[MAX_CLASS_ID];
      while offset < DEFAULT_BUFFER_CAPACITY
        invariant offset == k * MAX_SLAB && 0 <= k <= 8
        invariant freeList == old(freeList[MAX_CLASS_ID := freeList[MAX_CLASS_ID] + Stack(raw, k)])
      {
        freeList := freeList[MAX_CLASS_ID := freeList[MAX_CLASS_ID] + [raw + offset]];
        assert old(freeList[MAX_CLASS_ID]) + Stack(raw, k) + [raw + offset] == old(freeList[MAX_CLASS_ID]) + Stack(raw, k + 1);
        offset, k := offset + SlabSize(MAX_CLASS_ID), k + 1;
      }
    }

    /** A pool at `raw`, the result of a raw allocation; the source does not look whether it failed. */
    method AddPool(raw: nat)
      requires Valid() && (raw != 0 ==> Apart(raw, pools))
      modifies this`freeList, this`bufferList, this`pools, this`slabs
      ensures freeList == old(freeList[MAX_CLASS_ID := freeList[MAX_CLASS_ID] + Stack(raw, 8)])
      ensures bufferList == old(bufferList) + [raw]
      ensures if raw != 0 then Valid() && pools == old(pools) + {raw} else pools == old(pools)
    {
      bufferList := bufferList + [raw];
      PushPool(raw);
      if raw != 0 {
        assert raw !in pools by { assert InPool(raw, raw); }
        PoolTiled(slabs, pools, raw);
        PoolLists(old(freeList), slabs, live, raw, 8);
        slabs, pools := slabs + PoolSlabs(raw, 8), pools + {raw};
      }
    }

    /** Splits the top slab of the next larger class. `broken` says that a raw allocation has failed before. */
    method Split(c: nat, ghost broken: bool)
      requires |freeList| == MAX_CLASS_ID + 1 && c < MAX_CLASS_ID && freeList[c + 1] != []
      requires if broken then 0 in freeList[MAX_CLASS_ID] && (c + 1 == MAX_CLASS_ID ==> freeList[c + 1] == Stack(0, 8))
               else Valid()
      modifies this`freeList, this`slabs
      ensures |freeList| == MAX_CLASS_ID + 1 && freeList[c] != []
      ensures if broken then 0 in freeList[MAX_CLASS_ID] else Valid()
    {
      var stack := freeList[c + 1];
      var buffer := stack[|stack| - 1];
      if !broken {
        SplitLists(freeList, slabs, live, pools, c);
        slabs := slabs - {(buffer, c + 1)} + Halves((buffer, c + 1));
      }
      ghost var was := freeList;
      freeList := freeList[c + 1 := stack[..|stack| - 1]];
      freeList := freeList[c := freeList[c] + [buffer]];
      freeList := freeList[c := freeList[c] + [buffer + SlabSize(c)]];
      assert freeList == SplitTop(was, c);
      assert broken && c + 1 == MAX_CLASS_ID ==> freeList[MAX_CLASS_ID][0] == 0;
    }

    /**
      Makes the list of a class non-empty by splitting larger slabs, from a new
      pool if need be. `raw` is what a raw allocation would return, 0 if it fails.
    */
    method DoBuddyAllocate(c: nat, raw: nat)
      requires Valid() && c <= MAX_CLASS_ID && (raw != 0 ==> Apart(raw, pools))
      modifies this`freeList, this`bufferList, this`pools, this`slabs
      ensures |freeList| == MAX_CLASS_ID + 1 && freeList[c] != []
      ensures if old(NeedsPool(freeList, c)) && raw == 0 then 0 in freeList[MAX_CLASS_ID] && pools == old(pools) else Valid()
      ensures bufferList == old(bufferList) + if old(NeedsPool(freeList, c)) then [raw] else []
      ensures c == MAX_CLASS_ID && old(freeList[c]) == [] ==> freeList[c] == Stack(raw, 8)
      ensures pools == if old(NeedsPool(freeList, c)) && raw != 0 then old(pools) + {raw} else old(pools)
      decreases MAX_CLASS_ID - c
    {
      ghost var broken := NeedsPool(freeList, c) && raw == 0;
      if c == MAX_CLASS_ID {
        AddPool(raw);
        assert freeList[MAX_CLASS_ID][|old(freeList[MAX_CLASS_ID])|] == raw;
        assert [] + Stack(raw, 8) == Stack(raw, 8);
        return;
      }
      if freeList[c + 1] == [] {
        DoBuddyAllocate(c + 1, raw);
      }
      Split(c, broken);
    }

    /** A block whose class is the smallest that fits, or, beyond the largest class, a raw buffer of its own. */
    method AllocateManagedBuffer(length: nat, raw: nat) returns (buffer: nat, ghost c: int)
      requires Valid() && (raw != 0 ==> Apart(raw, pools))
      modifies this
      ensures c == -1 <==> length > SlabSize(MAX_CLASS_ID)
      ensures c != -1 ==> 0 <= c <= MAX_CLASS_ID && length <= SlabSize(c) && forall d: nat :: d < c ==> SlabSize(d) < length
      ensures c == -1 ==> buffer == raw && Valid() && live == old(live) && largeBuffers == old(largeBuffers) + (if raw != 0 then {raw} else {})
      ensures c != -1 && (raw != 0 || old(freeList[c]) != [] || !old(NeedsPool(freeList, c))) ==>
                Valid() && (buffer, c) !in old(live) && live == old(live) + {(buffer, c)} && largeBuffers == old(largeBuffers)
      ensures c != -1 && raw == 0 && old(freeList[c]) == [] && old(NeedsPool(freeList, c)) ==> !Valid()
      ensures if c != -1 && old(freeList[c]) == [] && old(NeedsPool(freeList, c)) then
                bufferList == old(bufferList) + [raw] && pools == old(pools) + (if raw != 0 then {raw} else {})
              else bufferList == old(bufferList) && pools == old(pools)
    {
      var id := FindClassId(length);
      c := id;
      if id < 0 {
        if raw != 0 { largeBuffers := largeBuffers + {raw}; }
        return raw, c;
      }
      ghost var broken := freeList[id] == [] && NeedsPool(freeList, id) && raw == 0;
      if freeList[id] == [] {
        DoBuddyAllocate(id, raw);
      }
      buffer := Pop(id, broken);
    }

    /** Hands out the top slab of a class. */
    method Pop(c: nat, ghost broken: bool) returns (buffer: nat)
      requires |freeList| == MAX_CLASS_ID + 1 && c <= MAX_CLASS_ID && freeList[c] != [] && 0 !in pools
      requires if broken then 0 in freeList[MAX_CLASS_ID] && (c == MAX_CLASS_ID ==> freeList[c] == Stack(0, 8)) else Valid()
      modifies this`freeList, this`live
      ensures broken <==> !Valid()
      ensures !broken ==> (buffer, c) !in old(live)
      ensures live == old(live) + {(buffer, c)}
    {
      var stack := freeList[c];
      buffer := stack[|stack| - 1];
      if !broken { PopLists(freeList, slabs, live, c); }
      freeList := freeList[c := stack[..|stack| - 1]];
      live := live + {(buffer, c)};
      if broken {
        assert c == MAX_CLASS_ID ==> freeList[MAX_CLASS_ID][0] == 0;
        if Lists(freeList, slabs, live) { ZeroBreaks(freeList, slabs, live, pools); }
      }
    }

    /** Gives back what AllocateManagedBuffer handed out for the same length. */
    method FreeManagedBuffer(buffer: nat, length: nat) returns (ghost c: int)
      requires Valid()
      requires length > SlabSize(MAX_CLASS_ID) ||
               exists k: nat :: (buffer, k) in live && length <= SlabSize(k) && forall d: nat :: d < k ==> SlabSize(d) < length
      modifies this
      ensures Valid() && pools == old(pools) && bufferList == old(bufferList)
      ensures c == -1 <==> length > SlabSize(MAX_CLASS_ID)
      ensures c == -1 ==> largeBuffers == old(largeBuffers) - {buffer} && live == old(live)
      ensures c != -1 ==> (buffer, c) in old(live) && live == old(live) - {(buffer, c)} && largeBuffers == old(largeBuffers)
      ensures c != -1 ==> 0 <= c <= MAX_CLASS_ID && freeList == old(freeList[c := freeList[c] + [buffer]])
    {
      var id := FindClassId(length);
      c := id;
      if id < 0 {
        largeBuffers := largeBuffers - {buffer};
        return;
      }
      ghost var k: nat :| (buffer, k) in live && length <= SlabSize(k) && forall d: nat :: d < k ==> SlabSize(d) < length;
      assert k == id;
      PushLists(freeList, slabs, live, buffer, id);
      assert slabs + {(buffer, id as nat)} == slabs;
      freeList := freeList[id := freeList[id] + [buffer]];
      live := live - {(buffer, id as nat)};
    }
  }
}
