/** The outer allocator's arithmetic: 64-bit sizes over the 32-bit heap by a power-of-two unit. */
module OffsetUnits {
  import opened SmallFloat
  import opened HeapModel
  import opened HeapTheorems

  // ---- sizes in units of 2^bits

  /** The least shift that brings a size into one bin's range. */
  ghost predicate IsMultiplier(size: nat, bits: nat) {
    InUnits(size, bits) <= MAX_BIN_SIZE && forall b :: 0 <= b < bits ==> InUnits(size, b) > MAX_BIN_SIZE
  }

  method CalculateMultiplier(size: nat) returns (bits: nat)
    ensures IsMultiplier(size, bits)
  {
    bits := 0;
    while MAX_BIN_SIZE < InUnits(size, bits)
      invariant forall b :: 0 <= b < bits ==> InUnits(size, b) > MAX_BIN_SIZE
      decreases InUnits(size, bits)
    {
      HalfUnit(size, bits);
      bits := bits + 1;
    }
  }

  lemma Quotients(a: nat, p: nat)
    requires p >= 1
    ensures a / p * p <= a < a / p * p + p
  {
  }

  lemma MulLess(a: nat, b: nat, p: nat)
    ensures a * p < b * p ==> a < b
  {
  }

  lemma HalfUnit(size: nat, bits: nat)
    requires size / Pow2(bits) > 0
    ensures size / Pow2(bits + 1) < size / Pow2(bits)
  {
    HalfUnitBy(size, Pow2(bits));
  }

  lemma HalfUnitBy(size: nat, p: nat)
    requires p >= 1 && size / p > 0
    ensures size / (2 * p) < size / p
  {
    var q, r := size / (2 * p), size / p;
    Quotients(size, p);
    Quotients(size, 2 * p);
    assert q * (2 * p) == (2 * q) * p;
    assert (r + 1) * p == r * p + p;
    MulLess(2 * q, r + 1, p);
  }

  function Over(n: nat, p: nat): nat
    requires p >= 1
  {
    n / p
  }

  function InUnits(size: nat, bits: nat): nat {
    Over(size, Pow2(bits))
  }

  function InBytes(units: nat, bits: nat): nat {
    units * Pow2(bits)
  }

  /** Whole units do not exceed the size they were taken from. */
  lemma UnitsInside(size: nat, bits: nat)
    ensures InBytes(InUnits(size, bits), bits) <= size
  {
    Quotients(size, Pow2(bits));
  }

  /** A size in units, rounded up. */
  function Units(size: nat, bits: nat): nat {
    if bits > 0 then (size + Pow2(bits) - 1) / Pow2(bits) else size
  }

  /** Rounding up to units is exact against a bound of whole units. */
  lemma UnitsFit(size: nat, bits: nat, limit: nat)
    ensures Units(size, bits) <= limit <==> size <= limit * Pow2(bits)
  {
    if bits > 0 {
      UnitsFitBy(size, Pow2(bits), limit);
    }
  }

  lemma UnitsFitBy(size: nat, p: nat, limit: nat)
    requires p >= 1
    ensures (size + p - 1) / p <= limit <==> size <= limit * p
  {
    var u := (size + p - 1) / p;
    Quotients(size + p - 1, p);
    MulMonotone(u, limit, p);
    MulMonotone(limit + 1, u, p);
    assert (limit + 1) * p == limit * p + p;
  }

  // ---- the outer request on the heap of units

  function AllocateBytes(h: Heap, bits: nat, size: nat): (Heap, Option<Grant>)
    requires Sound(h)
  {
    if size == 0 || Units(size, bits) > MAX_BIN_SIZE then (h, None) else AllocateOn(h, Units(size, bits))
  }

  /** Through the unit, too: granted if and only if not above the reported largest region. */
  lemma BytesExact(h: Heap, bits: nat, size: nat)
    requires Sound(h) && size >= 1
    ensures AllocateBytes(h, bits, size).1.Some? <==> size <= InBytes(LargestOn(h), bits)
  {
    Open(h);
    UnitsFit(size, bits, LargestFreeRegion(h));
    UnitsFit(size, bits, 0);
    LargestWithinBin(h);
    if Units(size, bits) <= MAX_BIN_SIZE { LargestExact(h, Units(size, bits)); }
  }

  lemma LargestWithinBin(h: Heap)
    requires Inv(h)
    ensures LargestFreeRegion(h) <= MAX_BIN_SIZE
  {
    LastBinRange(h);
    var n := LastBin(h.bins, |h.bins|);
    if n > 0 { NoTruncation(n - 1); }
  }

  /** A grant adds one id to those in use; a refusal adds none. */
  lemma AllocateLive(h: Heap, bits: nat, size: nat)
    requires Sound(h)
    ensures var (h', g) := AllocateBytes(h, bits, size);
            && Sound(h')
            && (g.None? ==> UsedIds(h') == UsedIds(h))
            && (g.Some? ==> g.value.id !in UsedIds(h) && UsedIds(h') == UsedIds(h) + {g.value.id})
  {
    Open(h);
    var u := Units(size, bits);
    if size != 0 && u <= MAX_BIN_SIZE {
      AllocateInv(h, u);
      var (h', g) := Allocate(h, u);
      if g.Some? {
        GrantEffect(h, u);
        NewId(h, h', Block(g.value.id, g.value.offset, BinFloor(RoundUp(u)), true));
      } else {
        RefusalEffect(h, u);
      }
    }
  }

  lemma FreeLive(h: Heap, id: nat)
    requires Sound(h) && id in UsedIds(h)
    ensures Allowed(h, FreeRequest(id)) && Sound(FreeOn(h, id)) && UsedIds(FreeOn(h, id)) == UsedIds(h) - {id}
  {
    Open(h);
    FreeOne(h, id);
    UsedAt(h, id);
  }

  lemma NewId(h: Heap, h': Heap, b: Block)
    requires DistinctIds(h'.blocks) && b !in UsedBlocks(h.blocks) && UsedBlocks(h'.blocks) == UsedBlocks(h.blocks) + {b}
    ensures b.id !in UsedIds(h) && UsedIds(h') == UsedIds(h) + {b.id}
  {
    UsedIdsExact(h);
    UsedIdsExact(h');
    forall p | p in UsedBlocks(h.blocks) ensures p.id != b.id {
      assert p in UsedBlocks(h'.blocks) && b in UsedBlocks(h'.blocks);
    }
  }

  /** The bytes handed out for a grant lie in the granted block, scaled to bytes. */
  lemma GrantedBytes(h: Heap, bits: nat, size: nat)
    requires Sound(h) && AllocateBytes(h, bits, size).1.Some?
    ensures var (h', g) := AllocateBytes(h, bits, size);
            exists b :: b in UsedBlocks(h'.blocks) && b.id == g.value.id && b.offset == g.value.offset && size <= b.size * Pow2(bits)
  {
    Open(h);
    var u := Units(size, bits);
    GrantEffect(h, u);
    var (h', g) := Allocate(h, u);
    var b := Block(g.value.id, g.value.offset, BinFloor(RoundUp(u)), true);
    assert b in UsedBlocks(h'.blocks);
    UnitsFit(size, bits, b.size);
  }

  // ---- live allocations and their counters

  ghost function Total(m: map<nat, nat>): nat {
    if m == map[] then 0 else var k :| k in m; m[k] + Total(m - {k})
  }

  lemma {:induction false} TotalWithout(m: map<nat, nat>, k: nat)
    requires k in m
    ensures Total(m) == m[k] + Total(m - {k}) && (m - {k}).Keys == m.Keys - {k} && |m - {k}| == |m| - 1
    decreases |m|
  {
    assert (m - {k}).Keys == m.Keys - {k} && |m.Keys - {k}| == |m.Keys| - 1;
    var j :| j in m && Total(m) == m[j] + Total(m - {j});
    if j != k {
      TotalWithout(m - {j}, k);
      TotalWithout(m - {k}, j);
      assert m - {j} - {k} == m - {k} - {j};
    }
  }

  lemma TotalWith(m: map<nat, nat>, k: nat, v: nat)
    requires k !in m
    ensures Total(m[k := v]) == Total(m) + v && |m[k := v]| == |m| + 1 && m[k := v].Keys == m.Keys + {k}
  {
    TotalWithout(m[k := v], k);
    assert m[k := v] - {k} == m;
    assert m[k := v].Keys == m.Keys + {k};
  }

  // ---- where live allocations lie

  /** The block in use under an id. */
  ghost function BlockOf(h: Heap, id: nat): (b: Block)
    requires Sound(h) && id in UsedIds(h)
    ensures b in UsedBlocks(h.blocks) && b.id == id
  {
    IdInUse(h.blocks, id);
    var b :| b in h.blocks && b.used && b.id == id;
    b
  }

  lemma BlockUnique(h: Heap, b: Block)
    requires Sound(h) && b in UsedBlocks(h.blocks)
    ensures b.id in UsedIds(h) && BlockOf(h, b.id) == b
  {
    Open(h);
    IdInUse(h.blocks, b.id);
  }

  /** Every allocation in use, but `out`, stays where it is. */
  ghost predicate Kept(h: Heap, h': Heap, out: set<nat>)
    requires Sound(h) && Sound(h')
  {
    && h'.size == h.size
    && forall id :: id in UsedIds(h) && id !in out ==> id in UsedIds(h') && BlockOf(h', id) == BlockOf(h, id)
  }

  lemma KeptBlocks(h: Heap, h': Heap, out: set<nat>)
    requires Sound(h) && Sound(h') && h'.size == h.size
    requires forall b :: b in UsedBlocks(h.blocks) && b.id !in out ==> b in UsedBlocks(h'.blocks)
    ensures Kept(h, h', out)
  {
    forall id | id in UsedIds(h) && id !in out ensures id in UsedIds(h') && BlockOf(h', id) == BlockOf(h, id) {
      BlockUnique(h', BlockOf(h, id));
    }
  }

  /** A grant takes a block that holds the request; a grant or a refusal moves nothing. */
  lemma AllocateKept(h: Heap, bits: nat, size: nat)
    requires Sound(h)
    ensures var (h', g) := AllocateBytes(h, bits, size);
            && Sound(h') && Kept(h, h', {})
            && (g.None? ==> h'.blocks == h.blocks && UsedIds(h') == UsedIds(h))
            && (g.Some? ==>
                  && g.value.id !in UsedIds(h) && UsedIds(h') == UsedIds(h) + {g.value.id}
                  && BlockOf(h', g.value.id).offset == g.value.offset
                  && size <= InBytes(BlockOf(h', g.value.id).size, bits))
  {
    AllocateLive(h, bits, size);
    Open(h);
    var u := Units(size, bits);
    var (h', g) := AllocateBytes(h, bits, size);
    if size != 0 && u <= MAX_BIN_SIZE {
      if g.Some? {
        GrantEffect(h, u);
        var taken := Block(g.value.id, g.value.offset, BinFloor(RoundUp(u)), true);
        assert taken in UsedBlocks(h'.blocks);
        BlockUnique(h', taken);
        UnitsFit(size, bits, taken.size);
      } else {
        RefusalEffect(h, u);
        GrantedIff(h, u);
      }
    }
    KeptBlocks(h, h', {});
  }

  lemma FreeUsed(h: Heap, id: nat)
    requires Sound(h) && Allowed(h, FreeRequest(id))
    ensures FreeOn(h, id).size == h.size
    ensures forall b :: b in UsedBlocks(h.blocks) && b.id != id ==> b in UsedBlocks(FreeOn(h, id).blocks)
  {
    Open(h);
    UsedAt(h, id);
    ReleaseEffect(h, IndexOf(h.blocks, id));
  }

  lemma FreeKept(h: Heap, id: nat)
    requires Sound(h) && id in UsedIds(h)
    ensures Allowed(h, FreeRequest(id)) && Sound(FreeOn(h, id)) && UsedIds(FreeOn(h, id)) == UsedIds(h) - {id}
    ensures Kept(h, FreeOn(h, id), {id})
  {
    FreeLive(h, id);
    FreeUsed(h, id);
    KeptBlocks(h, FreeOn(h, id), {id});
  }

  /** Bytes of allocations in use do not overlap and lie inside the storage. */
  lemma BytesApart(h: Heap, bits: nat, i: nat, j: nat)
    requires Sound(h) && i in UsedIds(h) && j in UsedIds(h)
    ensures InBytes(BlockOf(h, i).offset, bits) + InBytes(BlockOf(h, i).size, bits) <= InBytes(h.size, bits)
    ensures i != j ==>
              || InBytes(BlockOf(h, i).offset, bits) + InBytes(BlockOf(h, i).size, bits) <= InBytes(BlockOf(h, j).offset, bits)
              || InBytes(BlockOf(h, j).offset, bits) + InBytes(BlockOf(h, j).size, bits) <= InBytes(BlockOf(h, i).offset, bits)
  {
    Open(h);
    InvDisjoint(h);
    var b, c, p := BlockOf(h, i), BlockOf(h, j), Pow2(bits);
    var k :| 0 <= k < |h.blocks| && h.blocks[k] == b;
    BlockWithin(h.blocks, h.size, k);
    Scaled(b.offset, b.size, h.size, p);
    Scaled(b.offset, b.size, c.offset, p);
    Scaled(c.offset, c.size, b.offset, p);
  }

  lemma Scaled(offset: nat, size: nat, limit: nat, p: nat)
    ensures offset + size <= limit ==> offset * p + size * p <= limit * p
  {
    if offset + size <= limit {
      MulMonotone(offset + size, limit, p);
      assert (offset + size) * p == offset * p + size * p;
    }
  }
}
