/**
  Any number of handles on any number of allocators, created, moved, assigned
  and destroyed in any order while allocators go away. Every handle can be
  destroyed or assigned to at any time, and frees whatever it refers to if its
  allocator is found, as the code does. The lemmas at the end say that the
  methods of OffsetAllocator and OffsetAllocationHandle are these steps.
*/
module HandleRuns {
  import opened HeapModel
  import opened OffsetUnits
  import opened AllocationLedger

  /** `allocator` is None once the handle was moved from; `grant` is the number of the grant it was made for. */
  datatype Handle = Handle(allocator: Option<nat>, id: nat, size: nat, realBase: nat, grant: nat)

  /** An allocator with its books; `owner` names the handle of each live allocation. */
  datatype Site = Site(base: nat, bits: nat, units: nat, alive: bool, ledger: Ledger, owner: map<nat, nat>)

  datatype World = World(sites: map<nat, Site>, handles: map<nat, Handle>)

  datatype Event =
    | Allocate(site: nat, handle: nat, size: nat)
    | Move(from: nat, to: nat)
    | Assign(to: nat, from: nat)
    | Destroy(handle: nat)
    | Expire(site: nat)

  const EMPTY: Handle := Handle(None, 0, 0, 0, 0)

  // ---- steps

  /** The handle still finds its allocator. */
  predicate Holds(w: World, h: nat) {
    h in w.handles && w.handles[h].allocator.Some? && w.handles[h].allocator.value in w.sites &&
    w.sites[w.handles[h].allocator.value].alive
  }

  function SiteOf(w: World, h: nat): Site
    requires Holds(w, h)
  {
    w.sites[w.handles[h].allocator.value]
  }

  predicate Enabled(w: World, e: Event) {
    match e
    case Allocate(a, h, _) => a in w.sites && w.sites[a].alive && h !in w.handles
    case Move(h, h') => h in w.handles && h' !in w.handles
    case Assign(h, h') => h in w.handles && h' in w.handles
    case Destroy(h) => h in w.handles
    case Expire(a) => a in w.sites
  }

  /** Free what the handle refers to; the handle itself is overwritten or removed next. */
  ghost function Freed(w: World, h: nat): World
    requires h in w.handles
  {
    if !Holds(w, h) then w
    else
      var v := w.handles[h];
      var s := SiteOf(w, h);
      w.(sites := w.sites[v.allocator.value := s.(ledger := Returned(s.ledger, v.id, v.size, v.grant), owner := s.owner - {v.id})])
  }

  /** Handle `to` takes over what handle `from` describes, which is left empty. */
  ghost function Passed(w: World, from: nat, to: nat): World
    requires from in w.handles
  {
    var w' := w.(handles := w.handles[to := w.handles[from]][from := EMPTY]);
    if !Holds(w, from) then w'
    else
      var a := w.handles[from].allocator.value;
      w'.(sites := w.sites[a := w.sites[a].(owner := w.sites[a].owner[w.handles[from].id := to])])
  }

  ghost function Granted(w: World, a: nat, h: nat, size: nat, g: Option<Grant>, l: Ledger): World
    requires a in w.sites
  {
    var s := w.sites[a];
    match g
    case None => w.(sites := w.sites[a := s.(ledger := l)])
    case Some(g) =>
      World(w.sites[a := s.(ledger := l, owner := s.owner[g.id := h])],
            w.handles[h := Handle(Some(a), g.id, size, s.base + InBytes(g.offset, s.bits), s.ledger.granted)])
  }

  ghost function Apply(w: World, e: Event): World
    requires Enabled(w, e)
  {
    match e
    case Allocate(a, h, size) =>
      var (g, l) := Answer(w.sites[a].ledger, w.sites[a].bits, size);
      Granted(w, a, h, size, g, l)
    case Move(h, h') => Passed(w, h, h')
    case Assign(h, h') => if h == h' then w else Passed(Freed(w, h), h', h)
    case Destroy(h) => Freed(w, h).(handles := w.handles - {h})
    case Expire(a) => w.(sites := w.sites[a := w.sites[a].(alive := false)])
  }

  // ---- the invariant

  ghost predicate SiteOk(s: Site) {
    InOrder(s.ledger, s.bits, s.units) && s.owner.Keys == s.ledger.live.Keys == s.ledger.offsets.Keys
  }

  /** The handle is the one owner of the allocation it describes. */
  ghost predicate Owns(w: World, h: nat)
    requires Holds(w, h)
  {
    var s, v := SiteOf(w, h), w.handles[h];
    && v.id in s.owner && s.owner[v.id] == h && v.id in s.ledger.live && s.ledger.live[v.id] == v.size
    && v.id in s.ledger.offsets && v.realBase == s.base + InBytes(s.ledger.offsets[v.id], s.bits)
    && v.id in s.ledger.grant && s.ledger.grant[v.id] == v.grant
  }

  /** What is live at a site that is alive has its handle. */
  ghost predicate Owned(w: World, a: nat, id: nat)
    requires a in w.sites && id in w.sites[a].owner
  {
    var h := w.sites[a].owner[id];
    h in w.handles && w.handles[h].allocator == Some(a) && w.handles[h].id == id
  }

  ghost predicate WorldOk(w: World) {
    && (forall a :: a in w.sites ==> SiteOk(w.sites[a]))
    && (forall h :: Holds(w, h) ==> Owns(w, h))
    && (forall a, id :: a in w.sites && w.sites[a].alive && id in w.sites[a].owner ==> Owned(w, a, id))
  }

  /** The invariant, but for handle h, which owns nothing. */
  ghost predicate OkBut(w: World, h: nat) {
    && (forall a :: a in w.sites ==> SiteOk(w.sites[a]))
    && (forall x :: x != h && Holds(w, x) ==> Owns(w, x))
    && (forall a, id :: a in w.sites && w.sites[a].alive && id in w.sites[a].owner ==> Owned(w, a, id) && w.sites[a].owner[id] != h)
  }

  /** A handle that holds its allocation gives back its own grant, which was outstanding. */
  lemma OwnGrant(w: World, h: nat)
    requires WorldOk(w) && Holds(w, h)
    ensures var s, v := SiteOf(w, h), w.handles[h];
            var l := Returned(s.ledger, v.id, v.size, v.grant);
            GivesBack(s.ledger, v.id, l) && InOrder(l, s.bits, s.units) && Struck(s.ledger, v.id, l)
  {
    var s, v := SiteOf(w, h), w.handles[h];
    assert Owns(w, h);
    var l := GiveBackStep(s.ledger, s.bits, s.units, v.id);
    ReturnedIs(s.ledger, v.id, l);
  }

  lemma FreedOk(w: World, h: nat)
    requires WorldOk(w) && h in w.handles
    ensures OkBut(Freed(w, h), h)
  {
    var w' := Freed(w, h);
    if Holds(w, h) {
      OwnGrant(w, h);
      assert Owns(w, h);
    }
    forall x | x != h && Holds(w', x) ensures Owns(w', x) {
      assert Owns(w, x);
    }
    forall a, id | a in w'.sites && w'.sites[a].alive && id in w'.sites[a].owner ensures Owned(w', a, id) && w'.sites[a].owner[id] != h {
      assert Owned(w, a, id);
    }
  }

  lemma PassedOwns(w: World, from: nat, to: nat, x: nat)
    requires OkBut(w, to) && from in w.handles && from != to && Holds(Passed(w, from, to), x)
    ensures Owns(Passed(w, from, to), x)
  {
    if Holds(w, from) { assert Owns(w, from); }
    if x != to { assert Owns(w, x); }
  }

  lemma PassedOwned(w: World, from: nat, to: nat, a: nat, id: nat)
    requires OkBut(w, to) && from in w.handles && from != to
    requires var w' := Passed(w, from, to); a in w'.sites && w'.sites[a].alive && id in w'.sites[a].owner
    ensures Owned(Passed(w, from, to), a, id)
  {
    if Holds(w, from) { assert Owns(w, from); }
    assert Owned(w, a, id);
  }

  lemma PassedSite(w: World, from: nat, to: nat, a: nat)
    requires OkBut(w, to) && from in w.handles && from != to && a in w.sites
    ensures a in Passed(w, from, to).sites && SiteOk(Passed(w, from, to).sites[a])
  {
    assert SiteOk(w.sites[a]);
    if Holds(w, from) {
      assert Owns(w, from);
      var o := w.sites[w.handles[from].allocator.value].owner;
      assert o[w.handles[from].id := to].Keys == o.Keys;
    }
  }

  lemma PassedOk(w: World, from: nat, to: nat)
    requires OkBut(w, to) && from in w.handles && from != to
    ensures WorldOk(Passed(w, from, to))
  {
    var w' := Passed(w, from, to);
    forall a | a in w'.sites ensures SiteOk(w'.sites[a]) { PassedSite(w, from, to, a); }
    forall x | Holds(w', x) ensures Owns(w', x) { PassedOwns(w, from, to, x); }
    forall a, id | a in w'.sites && w'.sites[a].alive && id in w'.sites[a].owner ensures Owned(w', a, id) {
      PassedOwned(w, from, to, a, id);
    }
  }

  lemma GrantedOk(w: World, a: nat, h: nat, size: nat, g: Grant, l: Ledger)
    requires WorldOk(w) && a in w.sites && h !in w.handles && InOrder(l, w.sites[a].bits, w.sites[a].units)
    requires Entered(w.sites[a].ledger, size, Some(g), l)
    ensures WorldOk(Granted(w, a, h, size, Some(g), l))
  {
    var w' := Granted(w, a, h, size, Some(g), l);
    assert SiteOk(w.sites[a]) && SiteOk(w'.sites[a]);
    GrantedOwns(w, a, h, size, g, l);
    forall b, id | b in w'.sites && w'.sites[b].alive && id in w'.sites[b].owner ensures Owned(w', b, id) {
      if id in w.sites[b].owner { assert Owned(w, b, id); }
    }
  }

  lemma GrantedOwns(w: World, a: nat, h: nat, size: nat, g: Grant, l: Ledger)
    requires WorldOk(w) && a in w.sites && h !in w.handles && Entered(w.sites[a].ledger, size, Some(g), l)
    ensures var w' := Granted(w, a, h, size, Some(g), l); forall x :: Holds(w', x) ==> Owns(w', x)
  {
    var w' := Granted(w, a, h, size, Some(g), l);
    forall x | Holds(w', x) && x != h ensures Owns(w', x) { assert Owns(w, x); }
  }

  lemma RefusedOk(w: World, a: nat, l: Ledger)
    requires WorldOk(w) && a in w.sites && InOrder(l, w.sites[a].bits, w.sites[a].units)
    requires l == w.sites[a].ledger.(heap := l.heap)
    ensures WorldOk(w.(sites := w.sites[a := w.sites[a].(ledger := l)]))
  {
    var w' := w.(sites := w.sites[a := w.sites[a].(ledger := l)]);
    forall x | Holds(w', x) ensures Owns(w', x) { assert Owns(w, x); }
    forall b, id | b in w'.sites && w'.sites[b].alive && id in w'.sites[b].owner ensures Owned(w', b, id) { assert Owned(w, b, id); }
  }

  lemma AllocateOk(w: World, e: Event)
    requires WorldOk(w) && e.Allocate? && Enabled(w, e)
    ensures WorldOk(Apply(w, e))
  {
    var s := w.sites[e.site];
    assert SiteOk(s);
    var g, l := RequestStep(s.ledger, s.bits, s.units, e.size);
    AnswerIs(s.ledger, s.bits, e.size, g, l);
    if g.Some? { GrantedOk(w, e.site, e.handle, e.size, g.value, l); }
    else { RefusedOk(w, e.site, l); }
  }

  lemma StepOk(w: World, e: Event)
    requires WorldOk(w) && Enabled(w, e)
    ensures WorldOk(Apply(w, e))
  {
    match e
    case Allocate(_, _, _) => AllocateOk(w, e);
    case Move(h, h') =>
      forall a, id | a in w.sites && w.sites[a].alive && id in w.sites[a].owner ensures w.sites[a].owner[id] != h' {
        assert Owned(w, a, id);
      }
      PassedOk(w, h, h');
    case Assign(h, h') =>
      if h != h' {
        FreedOk(w, h);
        PassedOk(Freed(w, h), h', h);
      }
    case Destroy(h) =>
      FreedOk(w, h);
      RemovedOk(Freed(w, h), h);
    case Expire(a) => ExpireOk(w, a);
  }

  lemma RemovedOk(w: World, h: nat)
    requires OkBut(w, h)
    ensures WorldOk(w.(handles := w.handles - {h}))
  {
    var w' := w.(handles := w.handles - {h});
    forall x | Holds(w', x) ensures Owns(w', x) { assert Owns(w, x); }
    forall a, id | a in w'.sites && w'.sites[a].alive && id in w'.sites[a].owner ensures Owned(w', a, id) { assert Owned(w, a, id); }
  }

  lemma ExpireOk(w: World, a: nat)
    requires WorldOk(w) && a in w.sites
    ensures WorldOk(w.(sites := w.sites[a := w.sites[a].(alive := false)]))
  {
    var w' := w.(sites := w.sites[a := w.sites[a].(alive := false)]);
    forall x | Holds(w', x) ensures Owns(w', x) { assert Owns(w, x); }
    forall b, id | b in w'.sites && w'.sites[b].alive && id in w'.sites[b].owner ensures Owned(w', b, id) { assert Owned(w, b, id); }
  }

  // ---- runs

  ghost predicate Run(w: World, es: seq<Event>, w': World)
    decreases |es|
  {
    if es == [] then w' == w
    else Enabled(w, es[0]) && Run(Apply(w, es[0]), es[1..], w')
  }

  lemma {:induction false} RunOk(w: World, es: seq<Event>, w': World)
    requires WorldOk(w) && Run(w, es, w')
    ensures WorldOk(w')
    decreases |es|
  {
    if es != [] {
      StepOk(w, es[0]);
      RunOk(Apply(w, es[0]), es[1..], w');
    }
  }

  /** New allocators and no handles yet. */
  ghost predicate Initial(w: World) {
    w.handles == map[] && forall a :: a in w.sites ==> SiteOk(w.sites[a]) && w.sites[a].owner == map[]
  }

  /**
    After any sequence of steps: every handle that finds its allocator is the one
    owner of a live allocation; no grant was given back twice, and one that was
    not given back is outstanding; at an allocator that is alive the outstanding
    grants are exactly those of the handles that find it.
  */
  lemma FreedOnce(w0: World, es: seq<Event>, w: World, a: nat)
    requires Initial(w0) && Run(w0, es, w) && a in w.sites
    ensures forall h :: Holds(w, h) ==> Owns(w, h)
    ensures var l := w.sites[a].ledger;
            && (forall n: nat :: l.returned[n] == if n < l.granted && !Outstanding(l.grant, n) then 1 else 0)
            && (w.sites[a].alive ==>
                  forall n: nat :: Outstanding(l.grant, n) <==>
                    exists h :: Holds(w, h) && w.handles[h].allocator == Some(a) && w.handles[h].grant == n)
            && l.num == |l.live| && l.bytes == Total(l.live)
  {
    RunOk(w0, es, w);
    var s := w.sites[a];
    assert SiteOk(s);
    OpenLedger(s.ledger, s.bits, s.units);
    if s.alive {
      forall n: nat | Outstanding(s.ledger.grant, n)
        ensures exists h :: Holds(w, h) && w.handles[h].allocator == Some(a) && w.handles[h].grant == n
      {
        var id :| id in s.ledger.grant && s.ledger.grant[id] == n;
        assert Owned(w, a, id);
        assert Holds(w, s.owner[id]) && Owns(w, s.owner[id]);
      }
    }
  }

  /** When the last handle on an allocator that is alive is gone, every grant ever made was given back exactly once. */
  lemma AllReturned(w0: World, es: seq<Event>, w: World, a: nat)
    requires Initial(w0) && Run(w0, es, w) && a in w.sites && w.sites[a].alive
    requires forall h :: h in w.handles ==> w.handles[h].allocator != Some(a)
    ensures var l := w.sites[a].ledger; l.live == map[] && forall n: nat :: n < l.granted ==> l.returned[n] == 1
  {
    FreedOnce(w0, es, w, a);
    RunOk(w0, es, w);
    var s := w.sites[a];
    assert SiteOk(s);
    forall id ensures id !in s.owner { assert id in s.owner ==> Owned(w, a, id); }
    assert s.ledger.live.Keys == {};
  }

  /** Only the site of handle h may differ, and there only one grant was given back: the handle's, which was outstanding. */
  ghost predicate GaveOne(w: World, h: nat, w': World)
    requires h in w.handles
  {
    && w'.sites.Keys == w.sites.Keys
    && (forall a :: a in w.sites && !(Holds(w, h) && w.handles[h].allocator == Some(a)) ==> w'.sites[a].ledger == w.sites[a].ledger)
    && (Holds(w, h) ==>
          var s, v := SiteOf(w, h), w.handles[h];
          var l := w'.sites[v.allocator.value].ledger;
          && GivesBack(s.ledger, v.id, l) && v.id in s.ledger.grant && s.ledger.grant[v.id] == v.grant
          && s.ledger.returned[v.grant] == 0 && l.returned == s.ledger.returned + multiset{v.grant})
  }

  lemma FreedGaveOne(w: World, h: nat)
    requires WorldOk(w) && h in w.handles
    ensures GaveOne(w, h, Freed(w, h))
  {
    if Holds(w, h) {
      var s := SiteOf(w, h);
      OwnGrant(w, h);
      assert Owns(w, h) && SiteOk(s);
      OpenLedger(s.ledger, s.bits, s.units);
    }
  }

  /** The books are the same, whoever owns what. */
  ghost predicate SameBooks(w: World, w': World) {
    w'.sites.Keys == w.sites.Keys && forall a :: a in w.sites ==> w'.sites[a].ledger == w.sites[a].ledger
  }

  lemma SameGaveOne(w: World, h: nat, w1: World, w2: World)
    requires h in w.handles && GaveOne(w, h, w1) && SameBooks(w1, w2)
    ensures GaveOne(w, h, w2)
  {
  }

  lemma PassedBooks(w: World, from: nat, to: nat)
    requires from in w.handles
    ensures SameBooks(w, Passed(w, from, to))
  {
  }

  /** In every run, a handle that goes, or is assigned to, while its allocator is alive gives back exactly its own grant. */
  lemma GoneReturns(w0: World, es: seq<Event>, w: World, h: nat)
    requires Initial(w0) && Run(w0, es, w) && h in w.handles
    ensures GaveOne(w, h, Apply(w, Destroy(h)))
    ensures forall h' :: h' in w.handles && h' != h ==> GaveOne(w, h, Apply(w, Assign(h, h')))
  {
    RunOk(w0, es, w);
    FreedGaveOne(w, h);
    SameGaveOne(w, h, Freed(w, h), Apply(w, Destroy(h)));
    forall h' | h' in w.handles && h' != h ensures GaveOne(w, h, Apply(w, Assign(h, h'))) {
      PassedBooks(Freed(w, h), h', h);
      SameGaveOne(w, h, Freed(w, h), Apply(w, Assign(h, h')));
    }
  }

  /** Bytes of two handles that hold allocations do not overlap, and lie in their allocator's range. */
  lemma HandlesApart(w0: World, es: seq<Event>, w: World, h: nat, k: nat, capacity: nat)
    requires Initial(w0) && Run(w0, es, w) && Holds(w, h) && Holds(w, k) && w.handles[h].allocator == w.handles[k].allocator
    requires SiteOf(w, h).units == InUnits(capacity, SiteOf(w, h).bits)
    ensures var s, x, y := SiteOf(w, h), w.handles[h], w.handles[k];
            && s.base <= x.realBase && x.realBase + x.size <= s.base + capacity
            && (h != k ==> x.realBase + x.size <= y.realBase || y.realBase + y.size <= x.realBase)
  {
    RunOk(w0, es, w);
    var s, x, y := SiteOf(w, h), w.handles[h], w.handles[k];
    assert Owns(w, h) && Owns(w, k);
    LiveApart(s.ledger, s.bits, s.units, x.id, y.id);
    UnitsInside(capacity, s.bits);
  }

  // ---- the methods are these steps

  /** The owners of an allocator object, by the names that their handles have here. */
  ghost function Named<H>(owner: map<nat, H>, name: H -> nat): map<nat, nat> {
    map id | id in owner :: name(owner[id])
  }

  lemma NamedChange<H>(owner: map<nat, H>, name: H -> nat, id: nat, h: H)
    ensures Named(owner[id := h], name) == Named(owner, name)[id := name(h)]
  {
  }

  /** What OffsetAllocator.Allocate promises of ledger, owner and handle is the step. */
  lemma AllocateIsStep<H>(w: World, a: nat, size: nat, g: Option<Grant>, l: Ledger, owner: map<nat, H>, h: H, name: H -> nat)
    requires Enabled(w, Allocate(a, name(h), size)) && w.sites[a].owner == Named(owner, name)
    requires Requests(w.sites[a].ledger, w.sites[a].bits, size, g, l)
    ensures var w', s := Apply(w, Allocate(a, name(h), size)), w.sites[a];
            var owner' := if g.Some? then owner[g.value.id := h] else owner;
            && w'.sites == w.sites[a := s.(ledger := l, owner := Named(owner', name))]
            && w'.handles ==
                 if g.None? then w.handles
                 else w.handles[name(h) := Handle(Some(a), g.value.id, size, s.base + InBytes(g.value.offset, s.bits), s.ledger.granted)]
  {
    AnswerIs(w.sites[a].ledger, w.sites[a].bits, size, g, l);
    if g.Some? { NamedChange(owner, name, g.value.id, h); }
  }

  /** What OffsetAllocationHandle.Release promises is the step. */
  lemma ReleaseIsStep<H>(w: World, h: nat, l: Ledger, owner: map<nat, H>, name: H -> nat)
    requires WorldOk(w) && h in w.handles
    requires Holds(w, h) ==> SiteOf(w, h).owner == Named(owner, name) && GivesBack(SiteOf(w, h).ledger, w.handles[h].id, l)
    ensures var w', v := Apply(w, Destroy(h)), w.handles[h];
            && w'.handles == w.handles - {h}
            && w'.sites ==
                 if !Holds(w, h) then w.sites
                 else w.sites[v.allocator.value := SiteOf(w, h).(ledger := l, owner := Named(owner - {v.id}, name))]
  {
    if Holds(w, h) {
      FreedIs(w, h, l);
      NamedRemove(owner, name, w.handles[h].id);
    }
  }

  lemma NamedRemove<H>(owner: map<nat, H>, name: H -> nat, id: nat)
    ensures Named(owner - {id}, name) == Named(owner, name) - {id}
  {
  }

  lemma FreedIs(w: World, h: nat, l: Ledger)
    requires WorldOk(w) && Holds(w, h) && GivesBack(SiteOf(w, h).ledger, w.handles[h].id, l)
    ensures var s, v := SiteOf(w, h), w.handles[h]; Returned(s.ledger, v.id, v.size, v.grant) == l
  {
    assert Owns(w, h);
    ReturnedIs(SiteOf(w, h).ledger, w.handles[h].id, l);
  }

  /** What OffsetAllocationHandle.Move promises is the step. */
  lemma MoveIsStep<H>(w: World, from: nat, owner: map<nat, H>, to: H, name: H -> nat)
    requires Enabled(w, Move(from, name(to))) && (Holds(w, from) ==> SiteOf(w, from).owner == Named(owner, name))
    ensures var w', v := Apply(w, Move(from, name(to))), w.handles[from];
            && w'.handles == w.handles[name(to) := v][from := EMPTY]
            && w'.sites ==
                 if !Holds(w, from) then w.sites
                 else w.sites[v.allocator.value := SiteOf(w, from).(owner := Named(owner[v.id := to], name))]
  {
    if Holds(w, from) { NamedChange(owner, name, w.handles[from].id, to); }
  }

  /**
    What OffsetAllocationHandle.MoveAssign promises, of the allocator it frees in
    and the one it takes over from, is the step.
  */
  lemma AssignIsStep<H>(w: World, from: nat, l: Ledger, freedIn: map<nat, H>, takenFrom: map<nat, H>, to: H, name: H -> nat)
    requires WorldOk(w) && Enabled(w, Assign(name(to), from)) && from != name(to)
    requires Holds(w, name(to)) ==>
               SiteOf(w, name(to)).owner == Named(freedIn, name) && GivesBack(SiteOf(w, name(to)).ledger, w.handles[name(to)].id, l)
    requires Holds(w, from) ==> SiteOf(w, from).owner == Named(takenFrom, name)
    ensures var w', x, y := Apply(w, Assign(name(to), from)), w.handles[name(to)], w.handles[from];
            && w'.handles == w.handles[name(to) := y][from := EMPTY]
            && var freed := if !Holds(w, name(to)) then w.sites
                            else w.sites[x.allocator.value := SiteOf(w, name(to)).(ledger := l, owner := Named(freedIn - {x.id}, name))];
               w'.sites ==
                 if !Holds(w, from) then freed
                 else if Holds(w, name(to)) && x.allocator == y.allocator then
                   freed[x.allocator.value := SiteOf(w, name(to)).(ledger := l, owner := Named((freedIn - {x.id})[y.id := to], name))]
                 else freed[y.allocator.value := SiteOf(w, from).(owner := Named(takenFrom[y.id := to], name))]
  {
    var h := name(to);
    if Holds(w, h) {
      FreedIs(w, h, l);
      NamedRemove(freedIn, name, w.handles[h].id);
      NamedChange(freedIn - {w.handles[h].id}, name, w.handles[from].id, to);
    }
    if Holds(w, from) { NamedChange(takenFrom, name, w.handles[from].id, to); }
  }
}
