/**
  The master's put, lease and evict protocol as a step system: every critical
  section of a request or of a background thread is one event, so any
  interleaving of them is a run. All parties share one steady clock. Loss of
  segments is not part of this system.
*/
module LeaseProtocol {
  import opened HeapModel
  import opened ObjectMetadata
  import opened Eviction

  type Key = string

  /** `ids` are the replicas of one type that one put is writing and will end or revoke. */
  datatype Part = Part(key: Key, kind: ReplicaType, ids: set<nat>)

  /** A lease-checked read: the client notes the time, asks the master, then transfers. */
  datatype Reader = Asking(start: nat) | Reading(key: Key, ids: set<nat>, deadline: nat)

  /** Where the eviction thread is: in the first pass with its candidate lists, or in a second pass. */
  datatype Evictor = Idle | First(now: nat, noPin: seq<nat>, softPin: seq<nat>) | Second(filter: Filter)

  /** `useDisk` says whether the master gives every object a disk replica, too. */
  datatype Config = Config(ttl: nat, softTtl: nat, allowEvictSoftPinned: bool, useDisk: bool)

  /** `owner` records what each replica id was allocated for, `freed` the replicas given back. */
  datatype State = State(
    now: nat,
    objects: map<Key, Metadata>,
    owner: map<nat, (Key, ReplicaType)>,
    freed: set<nat>,
    written: set<nat>,
    parts: map<nat, Part>,
    readers: map<nat, Reader>,
    evictor: Evictor)

  datatype Event =
    | Tick(elapsed: nat)
    | PutStart(key: Key, replicas: seq<Replica>, size: nat, softPin: bool, memPart: nat, diskPart: nat)
    | Write(part: nat, id: nat)
    | PutEnd(part: nat)
    | PutRevoke(part: nat)
    | ExistKey(key: Key)
    | Ask(reader: nat)
    | GetReplicaList(reader: nat, key: Key)
    | Remove(key: Key)
    | RemoveAllAt(key: Key, at: nat)
    | EvictBegin
    | EvictScan(key: Key)
    | EvictFirst(key: Key, target: nat)
    | EvictBeginA(target: nat)
    | EvictBeginB(target: nat)
    | EvictSecond(key: Key)
    | EvictEnd

  // ---- what the events do

  function Ids(rs: seq<Replica>, kind: ReplicaType): set<nat> {
    set r | r in rs && r.kind == kind :: r.id
  }

  function AllIds(rs: seq<Replica>): set<nat> {
    set r | r in rs :: r.id
  }

  function CompleteIds(m: Metadata): set<nat> {
    set r | r in m.replicas && r.status == COMPLETE :: r.id
  }

  /** Drop the replicas of one type, and the entry with them if nothing valid is left. */
  function Erase(s: State, k: Key, kind: ReplicaType): State
    requires k in s.objects
  {
    var m := EraseReplica(s.objects[k], kind);
    if IsValid(m) then s.(objects := s.objects[k := m], freed := s.freed + Ids(s.objects[k].replicas, kind))
    else Delete(s, k)
  }

  function Delete(s: State, k: Key): State
    requires k in s.objects
  {
    s.(objects := s.objects - {k}, freed := s.freed + AllIds(s.objects[k].replicas))
  }

  function Granted(s: State, k: Key, ttl: nat, softTtl: nat): State
    requires k in s.objects
  {
    s.(objects := s.objects[k := GrantLease(s.objects[k], s.now, ttl, softTtl)])
  }

  function NewParts(e: Event): map<nat, Part>
    requires e.PutStart?
  {
    var mem := map[e.memPart := Part(e.key, MEMORY, Ids(e.replicas, MEMORY))];
    if Ids(e.replicas, DISK) == {} then mem else mem[e.diskPart := Part(e.key, DISK, Ids(e.replicas, DISK))]
  }

  predicate DistinctReplicas(rs: seq<Replica>) {
    forall i, j :: 0 <= i < j < |rs| ==> rs[i].id != rs[j].id
  }

  function Owners(rs: seq<Replica>, k: Key): (o: map<nat, (Key, ReplicaType)>)
    requires DistinctReplicas(rs)
    ensures o.Keys == AllIds(rs) && forall r :: r in rs ==> o[r.id] == (k, r.kind)
  {
    if rs == [] then map[]
    else
      assert rs == [rs[0]] + rs[1..];
      assert forall r :: r in rs[1..] ==> r.id != rs[0].id;
      Owners(rs[1..], k)[rs[0].id := (k, rs[0].kind)]
  }

  /** What the allocation strategy hands to PutStart: new replicas, at least one in memory, of positive size. */
  predicate NewReplicas(s: State, e: Event)
    requires e.PutStart?
  {
    && Ids(e.replicas, MEMORY) != {} && e.size > 0 && e.memPart != e.diskPart
    && e.memPart !in s.parts && e.diskPart !in s.parts
    && (forall r :: r in e.replicas ==> r.status == PROCESSING && r.id !in s.owner)
    && DistinctReplicas(e.replicas)
  }

  /** When an event can happen and change something; a request that is refused changes nothing. */
  predicate Enabled(c: Config, s: State, e: Event) {
    match e
    case Tick(_) => true
    case PutStart(k, rs, _, _, _, _) => k != "" && k !in s.objects && NewReplicas(s, e) && (Ids(rs, DISK) != {} <==> c.useDisk)
    case Write(p, id) => p in s.parts && id in s.parts[p].ids
    case PutEnd(p) => p in s.parts && s.parts[p].ids <= s.written
    case PutRevoke(p) => p in s.parts
    case ExistKey(k) => k in s.objects && CompleteIds(s.objects[k]) != {}
    case Ask(r) => r !in s.readers
    case GetReplicaList(r, k) => r in s.readers && s.readers[r].Asking? && k in s.objects && CompleteIds(s.objects[k]) != {}
    case Remove(k) => k in s.objects && Expired(s.objects[k], s.now) && IsAllReplicasComplete(s.objects[k])
    case RemoveAllAt(k, at) => k in s.objects && at <= s.now && Expired(s.objects[k], at)
    case EvictBegin => s.evictor == Idle
    case EvictScan(k) => s.evictor.First? && k in s.objects && Eligible(s.objects[k], s.evictor.now)
    case EvictFirst(k, t) => s.evictor.First? && k in s.objects && Picks(FirstPass(s.evictor.now, t), s.objects[k])
    case EvictBeginA(t) => s.evictor.First? && t in s.evictor.noPin
    case EvictBeginB(t) => s.evictor.First? && t in s.evictor.softPin
    case EvictSecond(k) => s.evictor.Second? && k in s.objects && Picks(s.evictor.filter, s.objects[k])
    case EvictEnd => s.evictor != Idle
  }

  /** The lease starts at the clock's epoch, and so does a soft pin if one is wanted. */
  function NewMeta(e: Event): Metadata
    requires e.PutStart?
  {
    Metadata(e.replicas, e.size, 0, if e.softPin then Some(0) else None)
  }

  function Started(s: State, e: Event): State
    requires e.PutStart? && NewReplicas(s, e)
  {
    s.(objects := s.objects[e.key := NewMeta(e)],
       owner := s.owner + Owners(e.replicas, e.key),
       parts := s.parts + NewParts(e))
  }

  function Ended(c: Config, s: State, p: Part): State {
    if p.key !in s.objects then s
    else
      var m := s.objects[p.key];
      Granted(s.(objects := s.objects[p.key := m.(replicas := MarkComplete(m.replicas, p.kind))]), p.key, 0, c.softTtl)
  }

  function Revoked(s: State, p: Part): State {
    if p.key !in s.objects || HasDiffRepStatus(s.objects[p.key], PROCESSING, p.kind) then s else Erase(s, p.key, p.kind)
  }

  function Scanned(c: Config, ev: Evictor, m: Metadata): Evictor
    requires ev.First?
  {
    if !SoftPinned(m, ev.now) then ev.(noPin := ev.noPin + [m.lease])
    else if c.allowEvictSoftPinned then ev.(softPin := ev.softPin + [m.lease])
    else ev
  }

  function Apply(c: Config, s: State, e: Event): State
    requires Enabled(c, s, e)
  {
    match e
    case Tick(d) => s.(now := s.now + d)
    case PutStart(_, _, _, _, _, _) => Started(s, e)
    case Write(p, id) => s.(written := s.written + {id})
    case PutEnd(p) => Ended(c, s, s.parts[p]).(parts := s.parts - {p})
    case PutRevoke(p) => Revoked(s, s.parts[p]).(parts := s.parts - {p})
    case ExistKey(k) => Granted(s, k, c.ttl, c.softTtl)
    case Ask(r) => s.(readers := s.readers[r := Asking(s.now)])
    case GetReplicaList(r, k) =>
      Granted(s, k, c.ttl, c.softTtl).(
        readers := s.readers[r := Reading(k, CompleteIds(s.objects[k]), s.readers[r].start + c.ttl)])
    case Remove(k) => Delete(s, k)
    case RemoveAllAt(k, _) => Delete(s, k)
    case EvictBegin => s.(evictor := First(s.now, [], []))
    case EvictScan(k) => s.(evictor := Scanned(c, s.evictor, s.objects[k]))
    case EvictFirst(k, _) => Erase(s, k, MEMORY)
    case EvictBeginA(t) => s.(evictor := Second(SecondPassA(s.evictor.now, t)))
    case EvictBeginB(t) => s.(evictor := Second(SecondPassB(s.evictor.now, t)))
    case EvictSecond(k) => Erase(s, k, MEMORY)
    case EvictEnd => s.(evictor := Idle)
  }

  // ---- leases

  ghost predicate Stored(objects: map<Key, Metadata>, k: Key, r: Replica) {
    k in objects && r in objects[k].replicas
  }

  /** Every stored replica is where its id was allocated for and has not been freed. */
  ghost predicate OwnerInv(s: State) {
    && (forall k, r :: Stored(s.objects, k, r) ==> r.id in s.owner && s.owner[r.id] == (k, r.kind) && r.id !in s.freed)
    && s.freed <= s.owner.Keys
    && forall k :: k in s.objects ==> s.objects[k].size > 0
  }

  ghost predicate Leased(s: State, k: Key, ids: set<nat>, deadline: nat) {
    k in s.objects && s.objects[k].lease >= deadline && ids <= CompleteIds(s.objects[k])
  }

  /** Until its deadline a reader's object is leased and keeps all replicas the reader was told of. */
  ghost predicate ReaderOk(s: State, rd: Reader) {
    match rd
    case Asking(start) => start <= s.now
    case Reading(k, ids, deadline) => ids != {} && (s.now < deadline ==> Leased(s, k, ids, deadline))
  }

  ghost predicate EvictorOk(c: Config, s: State) {
    match s.evictor
    case Idle => true
    case First(now, noPin, softPin) =>
      now <= s.now && (forall x :: x in noPin ==> x <= now) && (softPin != [] ==> c.allowEvictSoftPinned)
    case Second(f) =>
      || (f.SecondPassA? && f.target <= f.now <= s.now)
      || (f.SecondPassB? && f.now <= s.now && c.allowEvictSoftPinned)
  }

  ghost predicate LeaseInv(c: Config, s: State) {
    OwnerInv(s) && EvictorOk(c, s) && forall i :: i in s.readers ==> ReaderOk(s, s.readers[i])
  }

  /** Giving back replicas of one object keeps every other replica where it is. */
  lemma OwnerTrim(s: State, s': State, k: Key, gone: set<nat>)
    requires OwnerInv(s) && s'.owner == s.owner && s'.freed == s.freed + gone
    requires forall x, r :: Stored(s'.objects, x, r) ==> Stored(s.objects, x, r) && (x == k ==> r.id !in gone)
    requires forall id :: id in gone ==> exists r :: Stored(s.objects, k, r) && r.id == id
    requires forall x :: x in s'.objects ==> s'.objects[x].size > 0
    ensures OwnerInv(s')
  {
  }

  lemma EraseOwner(s: State, k: Key, kind: ReplicaType)
    requires OwnerInv(s) && k in s.objects
    ensures OwnerInv(Erase(s, k, kind)) && OwnerInv(Delete(s, k))
  {
    var rs := s.objects[k].replicas;
    forall r | r in rs ensures Stored(s.objects, k, r) {}
    var m := EraseReplica(s.objects[k], kind);
    OwnerTrim(s, Delete(s, k), k, AllIds(rs));
    if IsValid(m) {
      OwnerTrim(s, Erase(s, k, kind), k, Ids(rs, kind));
    }
  }

  /** An object may lose replicas only when its lease is over, or replicas nobody was told of. */
  lemma EraseReaders(s: State, k: Key, kind: ReplicaType, rd: Reader)
    requires k in s.objects && s.objects[k].size > 0 && ReaderOk(s, rd)
    requires Expired(s.objects[k], s.now) || forall r :: r in s.objects[k].replicas && r.kind == kind ==> r.status != COMPLETE
    ensures ReaderOk(Erase(s, k, kind), rd)
    ensures Expired(s.objects[k], s.now) ==> ReaderOk(Delete(s, k), rd)
  {
  }

  /** An object may gain lease time and complete replicas at any time. */
  lemma Upgrade(c: Config, s: State, k: Key, m: Metadata)
    requires LeaseInv(c, s) && k in s.objects
    requires m.size == s.objects[k].size && m.lease >= s.objects[k].lease && CompleteIds(s.objects[k]) <= CompleteIds(m)
    requires forall r :: r in m.replicas ==> exists q :: q in s.objects[k].replicas && q.id == r.id && q.kind == r.kind
    ensures LeaseInv(c, s.(objects := s.objects[k := m]))
  {
    var s' := s.(objects := s.objects[k := m]);
    forall x, r | Stored(s'.objects, x, r) ensures r.id in s.owner && s.owner[r.id] == (x, r.kind) && r.id !in s.freed {
      if x == k {
        var q :| q in s.objects[k].replicas && q.id == r.id && q.kind == r.kind;
        assert Stored(s.objects, k, q);
      } else {
        assert Stored(s.objects, x, r);
      }
    }
  }

  lemma GrantLeaseInv(c: Config, s: State, k: Key, ttl: nat, softTtl: nat)
    requires LeaseInv(c, s) && k in s.objects
    ensures LeaseInv(c, Granted(s, k, ttl, softTtl)) && Granted(s, k, ttl, softTtl).objects[k].lease >= s.now + ttl
  {
    Upgrade(c, s, k, GrantLease(s.objects[k], s.now, ttl, softTtl));
  }

  lemma MarkedIds(m: Metadata, kind: ReplicaType)
    ensures var m' := m.(replicas := MarkComplete(m.replicas, kind));
            && CompleteIds(m) <= CompleteIds(m')
            && forall r :: r in m'.replicas ==> exists q :: q in m.replicas && q.id == r.id && q.kind == r.kind
  {
  }

  lemma EndLease(c: Config, s: State, p: Part)
    requires LeaseInv(c, s)
    ensures LeaseInv(c, Ended(c, s, p))
  {
    if p.key in s.objects {
      var m := s.objects[p.key];
      MarkedIds(m, p.kind);
      var m' := m.(replicas := MarkComplete(m.replicas, p.kind));
      Upgrade(c, s, p.key, m');
      GrantLeaseInv(c, s.(objects := s.objects[p.key := m']), p.key, 0, c.softTtl);
    }
  }

  lemma RevokeLease(c: Config, s: State, p: Part)
    requires LeaseInv(c, s)
    ensures LeaseInv(c, Revoked(s, p))
  {
    if p.key in s.objects && !HasDiffRepStatus(s.objects[p.key], PROCESSING, p.kind) {
      EraseOwner(s, p.key, p.kind);
      forall i | i in s.readers ensures ReaderOk(Erase(s, p.key, p.kind), s.readers[i]) {
        EraseReaders(s, p.key, p.kind, s.readers[i]);
      }
    }
  }

  /** Losing an object, or its memory replicas, after its lease is over. */
  lemma DropLease(c: Config, s: State, k: Key)
    requires LeaseInv(c, s) && k in s.objects && Expired(s.objects[k], s.now)
    ensures LeaseInv(c, Erase(s, k, MEMORY)) && LeaseInv(c, Delete(s, k))
  {
    EraseOwner(s, k, MEMORY);
    forall i | i in s.readers ensures ReaderOk(Erase(s, k, MEMORY), s.readers[i]) && ReaderOk(Delete(s, k), s.readers[i]) {
      EraseReaders(s, k, MEMORY, s.readers[i]);
    }
  }

  lemma StartOwner(s: State, s': State, k: Key, m: Metadata)
    requires OwnerInv(s) && k !in s.objects && m.size > 0 && DistinctReplicas(m.replicas)
    requires forall r :: r in m.replicas ==> r.id !in s.owner
    requires s'.objects == s.objects[k := m] && s'.owner == s.owner + Owners(m.replicas, k) && s'.freed == s.freed
    ensures OwnerInv(s')
  {
    forall x, r | Stored(s'.objects, x, r) ensures r.id in s'.owner && s'.owner[r.id] == (x, r.kind) && r.id !in s'.freed {
      if x != k {
        assert Stored(s.objects, x, r);
      }
    }
  }

  lemma StartLease(c: Config, s: State, s': State, k: Key, m: Metadata)
    requires LeaseInv(c, s) && k !in s.objects && m.size > 0 && DistinctReplicas(m.replicas)
    requires forall r :: r in m.replicas ==> r.id !in s.owner
    requires s'.objects == s.objects[k := m] && s'.owner == s.owner + Owners(m.replicas, k) && s'.freed == s.freed
    requires s'.now == s.now && s'.readers == s.readers && s'.evictor == s.evictor
    ensures LeaseInv(c, s')
  {
    StartOwner(s, s', k, m);
  }

  /**
    Whatever the eviction thread evicts between other requests has no lease any
    more, is not being written, and is not soft pinned unless that is allowed.
  */
  lemma EvictionSafe(c: Config, s: State, e: Event)
    requires EvictorOk(c, s) && Enabled(c, s, e) && (e.EvictFirst? || e.EvictSecond?)
    ensures var m := s.objects[e.key];
            && Expired(m, s.now) && !HasDiffRepStatus(m, COMPLETE, MEMORY)
            && (SoftPinned(m, s.now) ==> c.allowEvictSoftPinned)
  {
  }

  /** Events that leave the objects alone. */
  predicate Quiet(e: Event) {
    || e.Tick? || e.Write? || e.Ask? || e.EvictBegin? || e.EvictScan? || e.EvictBeginA? || e.EvictBeginB? || e.EvictEnd?
  }

  lemma QuietLease(c: Config, s: State, e: Event)
    requires LeaseInv(c, s) && Enabled(c, s, e) && Quiet(e)
    ensures LeaseInv(c, Apply(c, s, e))
  {
    var s' := Apply(c, s, e);
    assert s'.objects == s.objects && s'.owner == s.owner && s'.freed == s.freed;
    forall i | i in s'.readers ensures ReaderOk(s', s'.readers[i]) {}
  }

  lemma StartedLease(c: Config, s: State, e: Event)
    requires LeaseInv(c, s) && e.PutStart? && e.key !in s.objects && NewReplicas(s, e)
    ensures LeaseInv(c, Started(s, e))
  {
    StartLease(c, s, Started(s, e), e.key, NewMeta(e));
  }

  lemma PutLease(c: Config, s: State, e: Event)
    requires LeaseInv(c, s) && Enabled(c, s, e) && (e.PutStart? || e.PutEnd? || e.PutRevoke?)
    ensures LeaseInv(c, Apply(c, s, e))
  {
    match e
    case PutStart(_, _, _, _, _, _) => StartedLease(c, s, e);
    case PutEnd(p) => EndLease(c, s, s.parts[p]);
    case PutRevoke(p) => RevokeLease(c, s, s.parts[p]);
  }

  lemma GetLease(c: Config, s: State, e: Event)
    requires LeaseInv(c, s) && Enabled(c, s, e) && (e.ExistKey? || e.GetReplicaList?)
    ensures LeaseInv(c, Apply(c, s, e))
  {
    GrantLeaseInv(c, s, e.key, c.ttl, c.softTtl);
  }

  lemma DropsLease(c: Config, s: State, e: Event)
    requires LeaseInv(c, s) && Enabled(c, s, e) && (e.Remove? || e.RemoveAllAt? || e.EvictFirst? || e.EvictSecond?)
    ensures LeaseInv(c, Apply(c, s, e))
  {
    if e.EvictFirst? || e.EvictSecond? { EvictionSafe(c, s, e); }
    DropLease(c, s, e.key);
  }

  /** Every step of every party keeps the leases. */
  lemma LeaseStep(c: Config, s: State, e: Event)
    requires LeaseInv(c, s) && Enabled(c, s, e)
    ensures LeaseInv(c, Apply(c, s, e))
  {
    if Quiet(e) { QuietLease(c, s, e); }
    else if e.PutStart? || e.PutEnd? || e.PutRevoke? { PutLease(c, s, e); }
    else if e.ExistKey? || e.GetReplicaList? { GetLease(c, s, e); }
    else { DropsLease(c, s, e); }
  }

  // ---- runs

  predicate Initial(s: State) {
    s.objects == map[] && s.owner == map[] && s.freed == {} && s.parts == map[] && s.readers == map[] && s.evictor == Idle
  }

  /** es leads from s to s'. */
  ghost predicate Run(c: Config, s: State, es: seq<Event>, s': State)
    decreases |es|
  {
    if es == [] then s' == s
    else Enabled(c, s, es[0]) && Run(c, Apply(c, s, es[0]), es[1..], s')
  }

  /** Time goes on and what is freed stays freed. */
  lemma StepGrows(c: Config, s: State, e: Event)
    requires Enabled(c, s, e)
    ensures s.freed <= Apply(c, s, e).freed && s.now <= Apply(c, s, e).now
  {
  }

  lemma {:induction false} LeaseRun(c: Config, s: State, es: seq<Event>, s': State)
    requires LeaseInv(c, s) && Run(c, s, es, s')
    ensures LeaseInv(c, s') && s.freed <= s'.freed && s.now <= s'.now
    decreases |es|
  {
    if es != [] {
      LeaseStep(c, s, es[0]);
      StepGrows(c, s, es[0]);
      LeaseRun(c, Apply(c, s, es[0]), es[1..], s');
    }
  }

  /**
    A read that finds its lease unexpired after the transfer has read replicas
    that were not freed at any time before: not by eviction, Remove, RemoveAll
    or PutRevoke, in whatever order these interleave with it.
  */
  lemma LeasedReadSafe(c: Config, s0: State, es: seq<Event>, s: State, i: nat)
    requires Initial(s0) && Run(c, s0, es, s)
    requires i in s.readers && s.readers[i].Reading? && s.now < s.readers[i].deadline
    ensures s.readers[i].ids !! s.freed
    ensures s.readers[i].key in s.objects && s.readers[i].ids <= CompleteIds(s.objects[s.readers[i].key])
  {
    LeaseRun(c, s0, es, s);
    var rd := s.readers[i];
    assert ReaderOk(s, rd);
    forall id | id in rd.ids ensures id !in s.freed {
      var r :| r in s.objects[rd.key].replicas && r.id == id;
      assert Stored(s.objects, rd.key, r);
    }
  }

  /** Over whole runs: every eviction hits an object that has no lease, no write in progress and no forbidden pin. */
  lemma EvictionRunSafe(c: Config, s0: State, es: seq<Event>, s: State, e: Event)
    requires Initial(s0) && Run(c, s0, es, s) && Enabled(c, s, e) && (e.EvictFirst? || e.EvictSecond?)
    ensures var m := s.objects[e.key];
            && Expired(m, s.now) && !HasDiffRepStatus(m, COMPLETE, MEMORY)
            && (SoftPinned(m, s.now) ==> c.allowEvictSoftPinned)
            && forall i :: i in s.readers && s.readers[i].Reading? && s.readers[i].key == e.key ==> s.readers[i].deadline <= s.now
  {
    LeaseRun(c, s0, es, s);
    EvictionSafe(c, s, e);
  }
}
