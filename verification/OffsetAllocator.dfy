/**
  The outer allocator as an object, and the move-only handles that give their
  allocation back when they go away.
*/
module OffsetAllocator {
  import opened SmallFloat
  import opened Bits
  import opened HeapModel
  import opened HeapTheorems
  import opened NodeAllocator
  import opened OffsetUnits
  import opened AllocationLedger

  /** Guards what the inner allocator stores; apart from Opened, so that the books can be opened without its arrays. */
  predicate Unlocked(k: nat) {
    true
  }

  lemma WithoutKey<V>(m: map<nat, V>, k: nat)
    ensures (m - {k}).Keys == m.Keys - {k}
  {
  }

  class OffsetAllocator {
    const base: nat
    const multiplierBits: nat
    const capacity: nat
    const inner: Allocator
    /** The capacity in units. */
    ghost const units: nat
    var allocatedSize: int
    var allocatedNum: int
    /** Whether the last shared pointer to this allocator is still held. */
    var alive: bool

    ghost var ledger: Ledger
    /** The handle that owns each live allocation. */
    ghost var owner: map<nat, OffsetAllocationHandle>

    ghost function Repr(): set<object> {
      {inner, inner.usedBins, inner.binIndices, inner.nodes, inner.freeNodes}
    }

    /** The inner allocator represents the ledger's heap; kept closed. */
    ghost predicate Stored()
      reads this`ledger, Repr()
    {
      forall k :: Unlocked(k) ==> inner.Valid() && inner.H() == ledger.heap
    }

    /** The ledger is in order and the counters agree with it. */
    ghost predicate Books()
      reads this`ledger, this`allocatedNum, this`allocatedSize
    {
      && InOrder(ledger, multiplierBits, units)
      && allocatedNum == ledger.num && allocatedSize == ledger.bytes
    }

    ghost predicate Valid()
      reads this, Repr()
    {
      Stored() && Books() && owner.Keys == ledger.live.Keys
    }

    lemma OpenStored()
      requires Stored()
      ensures inner.Valid() && inner.H() == ledger.heap
    {
      assert Unlocked(0);
    }

    constructor (base: nat, size: nat, initCapacity: nat, maxCapacity: nat)
      requires 1 <= initCapacity < TWO32 && maxCapacity < TWO32
      ensures Valid() && alive && fresh(Repr())
      ensures IsMultiplier(size, multiplierBits) && capacity == size && units == InUnits(size, multiplierBits) && this.base == base
      ensures ledger == Blank(Init(InUnits(size, multiplierBits), initCapacity, maxCapacity)) && owner == map[]
    {
      this.base, capacity := base, size;
      var bits := CalculateMultiplier(size);
      multiplierBits, units := bits, InUnits(size, bits);
      inner := new Allocator(InUnits(size, bits), initCapacity, maxCapacity);
      allocatedSize, allocatedNum, alive := 0, 0, true;
      ledger, owner := Blank(Init(InUnits(size, bits), initCapacity, maxCapacity)), map[];
      new;
      BlankOk(ledger.heap, bits);
    }

    /** Serve a request in units. */
    method InnerAllocate(size: nat, ghost g: Option<Grant>, ghost l: Ledger) returns (grant: Option<Grant>)
      requires Stored() && Requests(ledger, multiplierBits, size, g, l)
      requires size != 0 && Units(size, multiplierBits) <= MAX_BIN_SIZE
      modifies this`ledger, Repr()
      ensures Stored() && ledger == l && grant == g
      ensures unchanged(`owner, `alive, `allocatedNum, `allocatedSize)
    {
      OpenStored();
      OpenRequests(ledger, multiplierBits, size, g, l);
      grant := inner.Allocate(Units(size, multiplierBits));
      ledger := l;
    }

    method InnerFree(id: nat, ghost l: Ledger)
      requires Stored() && GivesBack(ledger, id, l)
      modifies this`ledger, Repr()
      ensures Stored() && ledger == l
      ensures unchanged(`owner, `alive, `allocatedNum, `allocatedSize)
    {
      OpenStored();
      OpenGivesBack(ledger, id, l);
      inner.Free(id);
      ledger := l;
    }

    method Allocate(size: nat) returns (handle: OffsetAllocationHandle?, ghost g: Option<Grant>)
      requires Valid()
      modifies this, Repr()
      ensures Valid() && alive == old(alive)
      ensures Requests(old(ledger), multiplierBits, size, g, ledger) && Entered(old(ledger), size, g, ledger)
      ensures handle == null <==> g.None?
      ensures handle == null ==> owner == old(owner)
      ensures handle != null ==>
                && fresh(handle) && handle.allocator == this && handle.id == g.value.id && handle.requestedSize == size
                && handle.realBase == base + InBytes(g.value.offset, multiplierBits) && owner == old(owner)[g.value.id := handle]
    {
      handle := null;
      ghost var l;
      g, l := RequestStep(ledger, multiplierBits, units, size);
      if size == 0 || Units(size, multiplierBits) > MAX_BIN_SIZE {
        return;
      }
      var grant := InnerAllocate(size, g, l);
      if grant.Some? {
        handle := new OffsetAllocationHandle(this, grant.value.id, base + InBytes(grant.value.offset, multiplierBits), size);
        owner := owner[grant.value.id := handle];
        allocatedSize, allocatedNum := allocatedSize + size, allocatedNum + 1;
      }
    }

    /** Only a live allocation may be given back, with the size it was requested with. */
    method FreeAllocation(id: nat, size: nat)
      requires Valid() && id in ledger.live && ledger.live[id] == size
      modifies this, Repr()
      ensures Valid() && alive == old(alive) && owner == old(owner) - {id}
      ensures GivesBack(old(ledger), id, ledger) && Struck(old(ledger), id, ledger)
    {
      ghost var l := GiveBackStep(ledger, multiplierBits, units, id);
      InnerFree(id, l);
      Strike(id, size);
    }

    /** The counters and the owner follow. */
    method Strike(id: nat, size: nat)
      modifies this`owner, this`allocatedNum, this`allocatedSize
      ensures owner == old(owner) - {id} && owner.Keys == old(owner).Keys - {id}
      ensures allocatedSize == old(allocatedSize) - size && allocatedNum == old(allocatedNum) - 1
    {
      WithoutKey(owner, id);
      owner := owner - {id};
      allocatedSize, allocatedNum := allocatedSize - size, allocatedNum - 1;
    }

    /** Another handle owns the allocation from now on. */
    ghost method Rename(id: nat, handle: OffsetAllocationHandle)
      requires Valid() && id in owner
      modifies this`owner
      ensures Valid() && owner == old(owner)[id := handle]
    {
      assert owner[id := handle].Keys == owner.Keys;
      owner := owner[id := handle];
    }

    /** The reported largest region, in bytes. */
    method LargestFreeRegion() returns (largest: nat)
      requires Valid()
      ensures Sound(ledger.heap) && largest == InBytes(LargestOn(ledger.heap), multiplierBits)
    {
      OpenStored();
      var total, region := inner.StorageReport();
      largest := InBytes(region, multiplierBits);
    }

    /** The last shared pointer goes away: outstanding handles find no allocator any more. */
    method Expire()
      modifies this`alive
      ensures !alive
    {
      alive := false;
    }
  }

  class OffsetAllocationHandle {
    /** The weak pointer; null once moved from or released. */
    var allocator: OffsetAllocator?
    var id: nat
    var realBase: nat
    var requestedSize: nat

    /** A handle whose allocator is alive owns the allocation it describes. */
    ghost predicate Owns()
      reads this, allocator
    {
      allocator != null && allocator.alive ==>
        && id in allocator.ledger.live && allocator.ledger.live[id] == requestedSize
        && id in allocator.ledger.offsets && realBase == allocator.base + InBytes(allocator.ledger.offsets[id], allocator.multiplierBits)
        && id in allocator.owner && allocator.owner[id] == this
    }

    ghost function Foot(): set<object>
      reads this
    {
      if allocator == null then {} else {allocator} + allocator.Repr()
    }

    constructor (allocator: OffsetAllocator, id: nat, realBase: nat, requestedSize: nat)
      ensures this.allocator == allocator && this.id == id && this.realBase == realBase && this.requestedSize == requestedSize
    {
      this.allocator, this.id, this.realBase, this.requestedSize := allocator, id, realBase, requestedSize;
    }

    /** Destruction: the allocation is given back if its allocator is still there. */
    method Release()
      requires Owns() && (allocator != null ==> allocator.Valid())
      modifies this, Foot()
      ensures allocator == null
      ensures var a := old(allocator);
              if a != null && old(a.alive) then
                && a.Valid() && a.alive && a.owner == old(a.owner) - {old(id)}
                && GivesBack(old(a.ledger), old(id), a.ledger) && Struck(old(a.ledger), old(id), a.ledger)
              else
                a != null ==> unchanged(a) && a.Valid()
    {
      if allocator != null && allocator.alive {
        allocator.FreeAllocation(id, requestedSize);
      }
      allocator := null;
    }

    /** Take over the other handle's fields and leave it empty; the books only change the owner's name. */
    method TakeOver(other: OffsetAllocationHandle)
      requires this != other && other.Owns() && (other.allocator != null ==> other.allocator.Valid())
      modifies this, other, if other.allocator == null then {} else {other.allocator}
      ensures Owns() && other.allocator == null && allocator == old(other.allocator)
      ensures id == old(other.id) && realBase == old(other.realBase) && requestedSize == old(other.requestedSize)
      ensures allocator != null ==>
                && allocator.Valid() && unchanged(allocator`alive, allocator`ledger, allocator`allocatedNum, allocator`allocatedSize)
                && allocator.owner == if allocator.alive then old(other.allocator.owner)[id := this] else old(other.allocator.owner)
    {
      allocator, id, realBase, requestedSize := other.allocator, other.id, other.realBase, other.requestedSize;
      other.allocator, other.id := null, NO_SPACE;
      other.realBase, other.requestedSize := 0, 0;
      if allocator != null && allocator.alive {
        allocator.Rename(id, this);
      }
    }

    /** Move construction: ownership passes, nothing is freed. */
    constructor Move(other: OffsetAllocationHandle)
      requires other.Owns() && (other.allocator != null ==> other.allocator.Valid())
      modifies other, if other.allocator == null then {} else {other.allocator}
      ensures Owns() && other.allocator == null && allocator == old(other.allocator)
      ensures id == old(other.id) && realBase == old(other.realBase) && requestedSize == old(other.requestedSize)
      ensures allocator != null ==>
                && allocator.Valid() && unchanged(allocator`alive, allocator`ledger, allocator`allocatedNum, allocator`allocatedSize)
                && allocator.owner == if allocator.alive then old(other.allocator.owner)[id := this] else old(other.allocator.owner)
    {
      new;
      TakeOver(other);
    }

    /** Move assignment: what this handle owned is given back, what the other owned passes over. */
    method MoveAssign(other: OffsetAllocationHandle)
      requires Owns() && (allocator != null ==> allocator.Valid())
      requires other.Owns() && (other.allocator != null ==> other.allocator.Valid())
      requires allocator == other.allocator || Foot() !! other.Foot()
      modifies this, other, Foot(), other.Foot()
      ensures this == other ==> unchanged(this) && (allocator != null ==> unchanged(allocator) && allocator.Valid())
      ensures this != other ==>
                && Owns() && other.allocator == null && allocator == old(other.allocator)
                && id == old(other.id) && realBase == old(other.realBase) && requestedSize == old(other.requestedSize)
                && AfterAssign(old(allocator), old(other.allocator), old(id), old(other.id))
    {
      if this != other {
        Release();
        TakeOver(other);
      }
    }

    /** What a move assignment does to the allocator a it frees in and to the allocator b it takes over from. */
    twostate predicate AfterAssign(a: OffsetAllocator?, b: OffsetAllocator?, freed: nat, taken: nat)
      reads this, a, b, if a == null then {} else a.Repr(), if b == null then {} else b.Repr()
    {
      && (a != null ==>
            && a.Valid() && a.alive == old(a.alive)
            && if a.alive then GivesBack(old(a.ledger), freed, a.ledger) && Struck(old(a.ledger), freed, a.ledger)
               else a.ledger == old(a.ledger) && a.owner == old(a.owner))
      && (b != null ==>
            && b.Valid() && b.alive == old(b.alive)
            && (b != a ==> b.ledger == old(b.ledger)) && (!b.alive ==> b.owner == old(b.owner)))
      && (a != null && a.alive && a != b ==> a.owner == old(a.owner) - {freed})
      && (b != null && b.alive && a != b ==> b.owner == old(b.owner)[taken := this])
      && (a != null && a.alive && a == b ==> a.owner == (old(a.owner) - {freed})[taken := this])
    }
  }
}
