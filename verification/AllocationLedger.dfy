/**
  The books of the outer allocator: which allocations are live, where they lie,
  and which of all grants ever made have been given back how often.
*/
module AllocationLedger {
  import opened SmallFloat
  import opened HeapModel
  import opened HeapTheorems
  import opened OffsetUnits

  /**
    For each live id its requested size, its offset in units and the number of
    its grant; how many grants were made; the numbers given back, one per free;
    the two counters.
  */
  datatype Ledger = Ledger(
    heap: Heap, live: map<nat, nat>, offsets: map<nat, nat>, grant: map<nat, nat>, granted: nat, returned: multiset<nat>,
    num: int, bytes: int)

  ghost predicate Outstanding(grant: map<nat, nat>, n: nat) {
    exists i :: i in grant && grant[i] == n
  }

  /** Of all grants ever made, each is outstanding under one id or was given back exactly once. */
  ghost predicate History(grant: map<nat, nat>, granted: nat, returned: multiset<nat>) {
    && (forall i :: i in grant ==> grant[i] < granted)
    && (forall i, j :: i in grant && j in grant && grant[i] == grant[j] ==> i == j)
    && (forall n: nat :: returned[n] == if n < granted && !Outstanding(grant, n) then 1 else 0)
  }

  /** Live allocations lie in used blocks that hold them. */
  ghost predicate Spots(h: Heap, bits: nat, live: map<nat, nat>, offsets: map<nat, nat>) {
    && Sound(h) && UsedIds(h) == live.Keys == offsets.Keys
    && forall id :: id in live ==> BlockOf(h, id).offset == offsets[id] && live[id] <= InBytes(BlockOf(h, id).size, bits)
  }

  ghost predicate LedgerOk(l: Ledger, bits: nat, units: nat) {
    && Spots(l.heap, bits, l.live, l.offsets) && l.heap.size == units
    && l.grant.Keys == l.live.Keys && History(l.grant, l.granted, l.returned)
    && l.num == |l.live| && l.bytes == Total(l.live)
  }

  /** LedgerOk, kept closed. */
  ghost predicate InOrder(l: Ledger, bits: nat, units: nat) {
    forall k :: Opened(k) ==> LedgerOk(l, bits, units)
  }

  lemma OpenLedger(l: Ledger, bits: nat, units: nat)
    requires InOrder(l, bits, units)
    ensures LedgerOk(l, bits, units)
  {
    assert Opened(0);
  }

  /** The ledger with the outcome of a request for `size` bytes. */
  ghost function Recorded(l: Ledger, h: Heap, g: Option<Grant>, size: nat): Ledger {
    match g
    case None => l.(heap := h)
    case Some(g) =>
      l.(heap := h, live := l.live[g.id := size], offsets := l.offsets[g.id := g.offset],
         grant := l.grant[g.id := l.granted], granted := l.granted + 1, num := l.num + 1, bytes := l.bytes + size)
  }

  ghost function Requested(l: Ledger, bits: nat, size: nat): Ledger
    requires Sound(l.heap)
  {
    Recorded(l, AllocateBytes(l.heap, bits, size).0, AllocateBytes(l.heap, bits, size).1, size)
  }

  ghost predicate CanReturn(l: Ledger, id: nat) {
    Sound(l.heap) && Allowed(l.heap, FreeRequest(id)) && id in l.grant && id in l.live
  }

  /** The ledger after the allocation under an id is given back. */
  ghost function GivenBack(l: Ledger, id: nat): Ledger
    requires CanReturn(l, id)
  {
    Ledger(FreeOn(l.heap, id), l.live - {id}, l.offsets - {id}, l.grant - {id}, l.granted, l.returned + multiset{l.grant[id]},
           l.num - 1, l.bytes - l.live[id])
  }

  lemma HistoryGrant(grant: map<nat, nat>, granted: nat, returned: multiset<nat>, id: nat)
    requires History(grant, granted, returned) && id !in grant
    ensures History(grant[id := granted], granted + 1, returned)
  {
    var grant' := grant[id := granted];
    forall n: nat ensures Outstanding(grant', n) <==> Outstanding(grant, n) || n == granted {
      if Outstanding(grant, n) {
        var i :| i in grant && grant[i] == n;
        assert grant'[i] == n;
      }
      if n == granted { assert grant'[id] == n; }
    }
  }

  lemma HistoryReturn(grant: map<nat, nat>, granted: nat, returned: multiset<nat>, id: nat)
    requires History(grant, granted, returned) && id in grant
    ensures History(grant - {id}, granted, returned + multiset{grant[id]})
  {
    var grant' := grant - {id};
    forall n: nat ensures Outstanding(grant', n) <==> Outstanding(grant, n) && n != grant[id] {
      if Outstanding(grant, n) && n != grant[id] {
        var i :| i in grant && grant[i] == n;
        assert i in grant' && grant'[i] == n;
      }
    }
  }

  lemma SpotsRecorded(l: Ledger, bits: nat, h: Heap, g: Option<Grant>, size: nat)
    requires Spots(l.heap, bits, l.live, l.offsets) && Sound(h) && Kept(l.heap, h, {})
    requires g.None? ==> UsedIds(h) == UsedIds(l.heap)
    requires g.Some? ==>
               && g.value.id !in UsedIds(l.heap) && UsedIds(h) == UsedIds(l.heap) + {g.value.id}
               && BlockOf(h, g.value.id).offset == g.value.offset && size <= InBytes(BlockOf(h, g.value.id).size, bits)
    ensures var r := Recorded(l, h, g, size); Spots(r.heap, bits, r.live, r.offsets)
  {
  }

  lemma SpotsReturn(l: Ledger, bits: nat, id: nat)
    requires Spots(l.heap, bits, l.live, l.offsets) && id in l.live && id in l.grant
    ensures CanReturn(l, id)
    ensures var r := GivenBack(l, id); Spots(r.heap, bits, r.live, r.offsets) && r.heap.size == l.heap.size
  {
    FreeKept(l.heap, id);
    var r := GivenBack(l, id);
    assert forall j :: j in r.live ==> BlockOf(r.heap, j) == BlockOf(l.heap, j);
  }

  lemma TotalsRecorded(l: Ledger, h: Heap, g: Option<Grant>, size: nat)
    requires l.grant.Keys == l.live.Keys && History(l.grant, l.granted, l.returned) && (g.Some? ==> g.value.id !in l.live)
    requires l.num == |l.live| && l.bytes == Total(l.live)
    ensures var r := Recorded(l, h, g, size);
            && r.grant.Keys == r.live.Keys && History(r.grant, r.granted, r.returned)
            && r.num == |r.live| && r.bytes == Total(r.live)
  {
    if g.Some? {
      HistoryGrant(l.grant, l.granted, l.returned, g.value.id);
      TotalWith(l.live, g.value.id, size);
    }
  }

  /** Guards what a step does to the heap; apart from Opened, so that proving the ledger in order does not unfold the allocator. */
  predicate Stepped(k: nat) {
    true
  }

  /** The allocator's answer to a request for `size` bytes, and the ledger after it; kept closed. */
  ghost predicate Requests(l: Ledger, bits: nat, size: nat, g: Option<Grant>, l': Ledger) {
    forall k :: Stepped(k) ==>
      Sound(l.heap) && g == AllocateBytes(l.heap, bits, size).1 && l' == Requested(l, bits, size)
  }

  /** The ledger after the allocation under an id is given back; kept closed. */
  ghost predicate GivesBack(l: Ledger, id: nat, l': Ledger) {
    forall k :: Stepped(k) ==> CanReturn(l, id) && l' == GivenBack(l, id)
  }

  lemma OpenRequests(l: Ledger, bits: nat, size: nat, g: Option<Grant>, l': Ledger)
    requires Requests(l, bits, size, g, l')
    ensures Sound(l.heap) && g == AllocateBytes(l.heap, bits, size).1 && l' == Requested(l, bits, size)
  {
    assert Stepped(0);
  }

  lemma OpenGivesBack(l: Ledger, id: nat, l': Ledger)
    requires GivesBack(l, id, l')
    ensures CanReturn(l, id) && l' == GivenBack(l, id)
  {
    assert Stepped(0);
  }

  /** What a request changes in the books: a grant opens one new entry, a refusal none. */
  ghost predicate Entered(l: Ledger, size: nat, g: Option<Grant>, l': Ledger) {
    match g
    case None => l' == l.(heap := l'.heap)
    case Some(g) => g.id !in l.live && l' == Recorded(l, l'.heap, Some(g), size)
  }

  /** What giving back changes in the books. */
  ghost predicate Struck(l: Ledger, id: nat, l': Ledger) {
    && id in l.grant && id in l.live
    && l' == Ledger(l'.heap, l.live - {id}, l.offsets - {id}, l.grant - {id}, l.granted, l.returned + multiset{l.grant[id]},
                    l.num - 1, l.bytes - l.live[id])
  }

  lemma RecordedOk(l: Ledger, bits: nat, units: nat, h: Heap, g: Option<Grant>, size: nat)
    requires LedgerOk(l, bits, units) && Sound(h) && Kept(l.heap, h, {})
    requires g.None? ==> UsedIds(h) == UsedIds(l.heap)
    requires g.Some? ==>
               && g.value.id !in UsedIds(l.heap) && UsedIds(h) == UsedIds(l.heap) + {g.value.id}
               && BlockOf(h, g.value.id).offset == g.value.offset && size <= InBytes(BlockOf(h, g.value.id).size, bits)
    ensures var r := Recorded(l, h, g, size);
            && InOrder(r, bits, units) && Entered(l, size, g, r)
            && r.live.Keys == l.live.Keys + (if g.Some? then {g.value.id} else {})
  {
    SpotsRecorded(l, bits, h, g, size);
    TotalsRecorded(l, h, g, size);
  }

  lemma RequestStep(l: Ledger, bits: nat, units: nat, size: nat) returns (g: Option<Grant>, l': Ledger)
    requires InOrder(l, bits, units)
    ensures Requests(l, bits, size, g, l') && InOrder(l', bits, units) && Entered(l, size, g, l')
    ensures l'.live.Keys == l.live.Keys + (if g.Some? then {g.value.id} else {})
    ensures size == 0 || Units(size, bits) > MAX_BIN_SIZE ==> l' == l && g.None?
  {
    OpenLedger(l, bits, units);
    AllocateKept(l.heap, bits, size);
    g := AllocateBytes(l.heap, bits, size).1;
    l' := Requested(l, bits, size);
    RecordedOk(l, bits, units, AllocateBytes(l.heap, bits, size).0, g, size);
  }

  lemma GiveBackStep(l: Ledger, bits: nat, units: nat, id: nat) returns (l': Ledger)
    requires InOrder(l, bits, units) && id in l.live
    ensures GivesBack(l, id, l') && InOrder(l', bits, units) && Struck(l, id, l')
    ensures l'.live.Keys == l.live.Keys - {id}
  {
    OpenLedger(l, bits, units);
    SpotsReturn(l, bits, id);
    HistoryReturn(l.grant, l.granted, l.returned, id);
    TotalWithout(l.live, id);
    l' := GivenBack(l, id);
  }

  lemma RequestsOk(l: Ledger, bits: nat, units: nat, size: nat, g: Option<Grant>, l': Ledger)
    requires InOrder(l, bits, units) && Requests(l, bits, size, g, l')
    ensures InOrder(l', bits, units) && Entered(l, size, g, l')
  {
    var g0, l0 := RequestStep(l, bits, units, size);
    OpenRequests(l, bits, size, g, l');
    OpenRequests(l, bits, size, g0, l0);
  }

  lemma GivesBackOk(l: Ledger, bits: nat, units: nat, id: nat, l': Ledger)
    requires InOrder(l, bits, units) && id in l.live && GivesBack(l, id, l')
    ensures InOrder(l', bits, units) && Struck(l, id, l')
  {
    var l0 := GiveBackStep(l, bits, units, id);
    OpenGivesBack(l, id, l');
    OpenGivesBack(l, id, l0);
  }

  /** What a request answers and leaves, whatever the ledger. */
  ghost predicate IsAnswer(l: Ledger, bits: nat, size: nat, r: (Option<Grant>, Ledger)) {
    forall k :: Stepped(k) ==>
      r == if Sound(l.heap) then (AllocateBytes(l.heap, bits, size).1, Requested(l, bits, size)) else (None, l)
  }

  /** IsAnswer as a function, kept closed. */
  ghost function Answer(l: Ledger, bits: nat, size: nat): (Option<Grant>, Ledger) {
    assert IsAnswer(l, bits, size,
                    if Sound(l.heap) then (AllocateBytes(l.heap, bits, size).1, Requested(l, bits, size)) else (None, l));
    var r :| IsAnswer(l, bits, size, r);
    r
  }

  lemma AnswerIs(l: Ledger, bits: nat, size: nat, g: Option<Grant>, l': Ledger)
    requires Requests(l, bits, size, g, l')
    ensures Answer(l, bits, size) == (g, l')
  {
    assert Stepped(0);
  }

  /**
    What a free leaves, whatever id, size and grant number the caller has: the
    number is given back once more, the counters go down, and the id is no
    longer live. Nothing asks whether it was live before.
  */
  ghost function Return(l: Ledger, id: nat, size: nat, n: nat): Ledger {
    var heap := if Sound(l.heap) && Allowed(l.heap, FreeRequest(id)) then FreeOn(l.heap, id) else l.heap;
    Ledger(heap, l.live - {id}, l.offsets - {id}, l.grant - {id}, l.granted, l.returned + multiset{n}, l.num - 1, l.bytes - size)
  }

  ghost predicate IsReturn(l: Ledger, id: nat, size: nat, n: nat, l': Ledger) {
    forall k :: Stepped(k) ==> l' == Return(l, id, size, n)
  }

  /** Return, kept closed. */
  ghost function Returned(l: Ledger, id: nat, size: nat, n: nat): Ledger {
    assert IsReturn(l, id, size, n, Return(l, id, size, n));
    var l' :| IsReturn(l, id, size, n, l');
    l'
  }

  lemma ReturnedIs(l: Ledger, id: nat, l': Ledger)
    requires GivesBack(l, id, l') && id in l.live && id in l.grant
    ensures Returned(l, id, l.live[id], l.grant[id]) == l'
  {
    assert Stepped(0);
  }

  /** A new allocator has made no grants. */
  ghost function Blank(h: Heap): Ledger {
    Ledger(h, map[], map[], map[], 0, multiset{}, 0, 0)
  }

  lemma BlankOk(h: Heap, bits: nat)
    requires Sound(h) && |h.blocks| == 1 && !h.blocks[0].used
    ensures InOrder(Blank(h), bits, h.size)
  {
    assert IdsInUse(h.blocks) == {};
  }

  /** The bytes of two live allocations do not overlap, and all lie in the storage. */
  lemma LiveApart(l: Ledger, bits: nat, units: nat, i: nat, j: nat)
    requires InOrder(l, bits, units) && i in l.live && j in l.live
    ensures i in l.offsets && j in l.offsets
    ensures InBytes(l.offsets[i], bits) + l.live[i] <= InBytes(units, bits)
    ensures i != j ==>
              || InBytes(l.offsets[i], bits) + l.live[i] <= InBytes(l.offsets[j], bits)
              || InBytes(l.offsets[j], bits) + l.live[j] <= InBytes(l.offsets[i], bits)
  {
    OpenLedger(l, bits, units);
    BytesApart(l.heap, bits, i, j);
  }
}
