/** What the put protocol promises about the contents of replicas. */
module WriteProtocol {
  import opened HeapModel
  import opened ObjectMetadata
  import opened LeaseProtocol

  // ---- the invariant

  /** A pending part of a put still has its replicas, and they are the only ones of their type. */
  ghost predicate PartOk(objects: map<Key, Metadata>, p: Part) {
    && p.key in objects && p.ids != {} && Ids(objects[p.key].replicas, p.kind) == p.ids
    && !HasDiffRepStatus(objects[p.key], PROCESSING, p.kind)
  }

  ghost predicate PartFor(parts: map<nat, Part>, i: nat, k: Key, kind: ReplicaType) {
    i in parts && parts[i].key == k && parts[i].kind == kind
  }

  /** A replica is complete with its data written, or some put is still to end or revoke it. */
  ghost predicate ReplicaOk(parts: map<nat, Part>, written: set<nat>, k: Key, r: Replica) {
    || (r.status == COMPLETE && r.id in written)
    || (r.status == PROCESSING && exists i :: PartFor(parts, i, k, r.kind))
  }

  ghost predicate OnePart(parts: map<nat, Part>) {
    forall i, j, k, kind :: PartFor(parts, i, k, kind) && PartFor(parts, j, k, kind) ==> i == j
  }

  ghost predicate WriteInv(s: State) {
    && (forall i :: i in s.parts ==> PartOk(s.objects, s.parts[i]))
    && OnePart(s.parts)
    && (forall k, r :: Stored(s.objects, k, r) ==> ReplicaOk(s.parts, s.written, k, r))
    && (forall i :: i in s.readers && s.readers[i].Reading? ==> s.readers[i].ids <= s.written)
  }

  // ---- steps

  /** No part is pending on an object all of whose replicas are complete, and only there. */
  lemma CompleteHasNoPart(s: State, k: Key)
    requires WriteInv(s) && k in s.objects
    ensures IsAllReplicasComplete(s.objects[k]) <==> forall i :: i in s.parts ==> s.parts[i].key != k
  {
    var rs := s.objects[k].replicas;
    if IsAllReplicasComplete(s.objects[k]) {
      forall i | i in s.parts ensures s.parts[i].key != k {
        if s.parts[i].key == k {
          var p := s.parts[i];
          assert PartOk(s.objects, p);
          var id :| id in Ids(rs, p.kind);
        }
      }
    } else {
      var j :| 0 <= j < |rs| && rs[j].status != COMPLETE;
      assert Stored(s.objects, k, rs[j]);
      var i :| PartFor(s.parts, i, k, rs[j].kind);
    }
  }

  /** A new object comes with parts of its own, one for each type of replica it has. */
  ghost predicate FreshParts(parts: map<nat, Part>, k: Key, m: Metadata) {
    && (forall i :: i in parts ==> parts[i].key == k && PartOk(map[k := m], parts[i]))
    && OnePart(parts)
    && (forall r :: r in m.replicas ==> r.status == PROCESSING && exists i :: PartFor(parts, i, k, r.kind))
  }

  lemma NewPartsFresh(s: State, e: Event)
    requires e.PutStart? && NewReplicas(s, e)
    ensures FreshParts(NewParts(e), e.key, NewMeta(e)) && NewParts(e).Keys !! s.parts.Keys
  {
    var parts := NewParts(e);
    assert PartFor(parts, e.memPart, e.key, MEMORY);
    if Ids(e.replicas, DISK) != {} { assert PartFor(parts, e.diskPart, e.key, DISK); }
    forall r | r in e.replicas ensures exists i :: PartFor(parts, i, e.key, r.kind) {
      assert r.id in Ids(e.replicas, r.kind);
    }
  }

  lemma StartWrite(s: State, s': State, k: Key, m: Metadata, added: map<nat, Part>)
    requires WriteInv(s) && k !in s.objects && FreshParts(added, k, m) && added.Keys !! s.parts.Keys
    requires s'.objects == s.objects[k := m] && s'.parts == s.parts + added
    requires s'.written == s.written && s'.readers == s.readers
    ensures WriteInv(s')
  {
    forall i | i in s'.parts ensures PartOk(s'.objects, s'.parts[i]) {
      if i in added { assert PartOk(map[k := m], added[i]); } else { assert PartOk(s.objects, s.parts[i]); }
    }
    forall x, r | Stored(s'.objects, x, r) ensures ReplicaOk(s'.parts, s'.written, x, r) {
      if x == k {
        var i :| PartFor(added, i, k, r.kind);
        assert PartFor(s'.parts, i, k, r.kind);
      } else {
        assert Stored(s.objects, x, r);
        if r.status == PROCESSING {
          var i :| PartFor(s.parts, i, x, r.kind);
          assert PartFor(s'.parts, i, x, r.kind);
        }
      }
    }
    forall i, x, kind | PartFor(s'.parts, i, x, kind)
      ensures if x == k then PartFor(added, i, x, kind) else PartFor(s.parts, i, x, kind)
    {
      if i in s.parts { assert PartOk(s.objects, s.parts[i]); }
    }
  }

  lemma StartedWrite(s: State, e: Event)
    requires WriteInv(s) && e.PutStart? && e.key !in s.objects && NewReplicas(s, e)
    ensures WriteInv(Started(s, e))
  {
    NewPartsFresh(s, e);
    StartWrite(s, Started(s, e), e.key, NewMeta(e), NewParts(e));
  }

  lemma MarkedOthers(m: Metadata, kind: ReplicaType)
    ensures var m' := m.(replicas := MarkComplete(m.replicas, kind));
            forall other :: other != kind ==>
              && Ids(m'.replicas, other) == Ids(m.replicas, other)
              && (HasDiffRepStatus(m', PROCESSING, other) ==> HasDiffRepStatus(m, PROCESSING, other))
  {
  }

  /** Ending a part completes its own replicas, all of them written, and no others. */
  lemma EndWrite(s: State, s': State, i: nat)
    requires WriteInv(s) && i in s.parts && s.parts[i].ids <= s.written
    requires s'.parts == s.parts - {i} && s'.written == s.written && s'.readers == s.readers
    requires var k := s.parts[i].key;
             && k in s.objects && s'.objects.Keys == s.objects.Keys
             && (forall x :: x in s.objects && x != k ==> s'.objects[x] == s.objects[x])
             && s'.objects[k].replicas == MarkComplete(s.objects[k].replicas, s.parts[i].kind)
    ensures WriteInv(s')
  {
    var p := s.parts[i];
    var m, m' := s.objects[p.key], s'.objects[p.key];
    assert PartOk(s.objects, p) && PartFor(s.parts, i, p.key, p.kind);
    MarkedOthers(m, p.kind);
    forall j | j in s'.parts ensures PartOk(s'.objects, s'.parts[j]) {
      var q := s.parts[j];
      assert PartOk(s.objects, q) && PartFor(s.parts, j, q.key, q.kind);
    }
    forall x, r | Stored(s'.objects, x, r) ensures ReplicaOk(s'.parts, s'.written, x, r) {
      if x == p.key && r.kind == p.kind {
        var n :| 0 <= n < |m'.replicas| && m'.replicas[n] == r;
        assert m.replicas[n].id in Ids(m.replicas, p.kind);
      } else {
        OtherReplica(s, s', i, x, r);
      }
    }
    forall j, x, kind | PartFor(s'.parts, j, x, kind) ensures PartFor(s.parts, j, x, kind) {}
  }

  /** A replica that is not the part's own is accounted for without it. */
  lemma OtherReplica(s: State, s': State, i: nat, x: Key, r: Replica)
    requires WriteInv(s) && i in s.parts && s'.parts == s.parts - {i} && s'.written == s.written
    requires !(x == s.parts[i].key && r.kind == s.parts[i].kind)
    requires x in s.objects && Stored(s'.objects, x, r)
    requires s'.objects[x].replicas ==
             if x == s.parts[i].key then MarkComplete(s.objects[x].replicas, s.parts[i].kind) else s.objects[x].replicas
    ensures ReplicaOk(s'.parts, s'.written, x, r)
  {
    var n :| 0 <= n < |s'.objects[x].replicas| && s'.objects[x].replicas[n] == r;
    assert Stored(s.objects, x, s.objects[x].replicas[n]);
    if r.status == PROCESSING {
      var j :| PartFor(s.parts, j, x, r.kind);
      assert PartFor(s'.parts, j, x, r.kind);
    }
  }

  // ---- losing replicas

  lemma ErasedOthers(m: Metadata, kind: ReplicaType, other: ReplicaType)
    requires other != kind
    ensures var m' := EraseReplica(m, kind);
            Ids(m'.replicas, other) == Ids(m.replicas, other) &&
            (HasDiffRepStatus(m', PROCESSING, other) ==> HasDiffRepStatus(m, PROCESSING, other))
  {
  }

  /** A part of another type, or of another object, does not notice. */
  lemma ErasePart(s: State, k: Key, kind: ReplicaType, p: Part)
    requires k in s.objects && s.objects[k].size > 0 && PartOk(s.objects, p) && (p.key != k || p.kind != kind)
    ensures PartOk(Erase(s, k, kind).objects, p)
  {
    if p.key == k {
      ErasedOthers(s.objects[k], kind, p.kind);
      var id :| id in p.ids;
      assert id in Ids(EraseReplica(s.objects[k], kind).replicas, p.kind);
    }
  }

  /** Dropping all replicas of one type, with the part that was writing them if there is one. */
  lemma EraseWrite(s: State, s': State, k: Key, kind: ReplicaType)
    requires WriteInv(s) && k in s.objects && s.objects[k].size > 0
    requires s'.objects == Erase(s, k, kind).objects && s'.written == s.written && s'.readers == s.readers
    requires forall j :: j in s'.parts <==> j in s.parts && !PartFor(s.parts, j, k, kind)
    requires forall j :: j in s'.parts ==> s'.parts[j] == s.parts[j]
    ensures WriteInv(s')
  {
    forall j | j in s'.parts ensures PartOk(s'.objects, s'.parts[j]) {
      ErasePart(s, k, kind, s.parts[j]);
    }
    forall x, r | Stored(s'.objects, x, r) ensures ReplicaOk(s'.parts, s'.written, x, r) {
      assert Stored(s.objects, x, r);
      if r.status == PROCESSING {
        var j :| PartFor(s.parts, j, x, r.kind);
        assert PartFor(s'.parts, j, x, r.kind);
      }
    }
    forall j, x, other | PartFor(s'.parts, j, x, other) ensures PartFor(s.parts, j, x, other) {}
  }

  /** Deleting an object is harmless exactly when no put is still writing it. */
  lemma DeleteWrite(s: State, k: Key)
    requires WriteInv(s) && k in s.objects
    ensures WriteInv(Delete(s, k)) <==> IsAllReplicasComplete(s.objects[k])
  {
    var s' := Delete(s, k);
    CompleteHasNoPart(s, k);
    if IsAllReplicasComplete(s.objects[k]) {
      forall x, r | Stored(s'.objects, x, r) ensures ReplicaOk(s'.parts, s'.written, x, r) { assert Stored(s.objects, x, r); }
    } else {
      var i :| i in s.parts && s.parts[i].key == k;
      assert !PartOk(s'.objects, s'.parts[i]);
    }
  }

  /** Complete memory replicas belong to no pending part. */
  lemma EvictErase(s: State, k: Key)
    requires WriteInv(s) && k in s.objects && s.objects[k].size > 0 && !HasDiffRepStatus(s.objects[k], COMPLETE, MEMORY)
    ensures WriteInv(Erase(s, k, MEMORY))
  {
    forall j | j in s.parts ensures !PartFor(s.parts, j, k, MEMORY) {
      assert PartOk(s.objects, s.parts[j]);
    }
    EraseWrite(s, Erase(s, k, MEMORY), k, MEMORY);
  }

  lemma EvictWrite(c: Config, s: State, e: Event)
    requires LeaseInv(c, s) && WriteInv(s) && Enabled(c, s, e) && (e.EvictFirst? || e.EvictSecond?)
    ensures WriteInv(Apply(c, s, e))
  {
    EvictionSafe(c, s, e);
    EvictErase(s, e.key);
  }

  lemma RevokeWrite(c: Config, s: State, e: Event)
    requires LeaseInv(c, s) && WriteInv(s) && Enabled(c, s, e) && e.PutRevoke?
    ensures WriteInv(Apply(c, s, e))
  {
    var p := s.parts[e.part];
    assert PartOk(s.objects, p) && PartFor(s.parts, e.part, p.key, p.kind);
    EraseWrite(s, Apply(c, s, e), p.key, p.kind);
  }

  /** Granting a lease does not touch replicas; a reader is told only of complete ones. */
  lemma GrantWrite(c: Config, s: State, e: Event)
    requires WriteInv(s) && Enabled(c, s, e) && (e.ExistKey? || e.GetReplicaList?)
    ensures WriteInv(Apply(c, s, e)) && CompleteIds(s.objects[e.key]) <= s.written
  {
    var s' := Apply(c, s, e);
    forall r | r in s.objects[e.key].replicas && r.status == COMPLETE ensures r.id in s.written {
      assert Stored(s.objects, e.key, r);
    }
    forall j | j in s'.parts ensures PartOk(s'.objects, s'.parts[j]) { assert PartOk(s.objects, s.parts[j]); }
    forall x, r | Stored(s'.objects, x, r) ensures Stored(s.objects, x, r) {}
  }

  lemma QuietWrite(c: Config, s: State, e: Event)
    requires WriteInv(s) && Enabled(c, s, e) && Quiet(e)
    ensures WriteInv(Apply(c, s, e))
  {
    var s' := Apply(c, s, e);
    assert s'.objects == s.objects && s'.parts == s.parts && s.written <= s'.written;
    forall x, r | Stored(s'.objects, x, r) ensures ReplicaOk(s'.parts, s'.written, x, r) {
      assert ReplicaOk(s.parts, s.written, x, r);
    }
  }

  lemma PutWrite(c: Config, s: State, e: Event)
    requires LeaseInv(c, s) && WriteInv(s) && Enabled(c, s, e) && (e.PutStart? || e.PutEnd? || e.PutRevoke?)
    ensures WriteInv(Apply(c, s, e))
  {
    match e
    case PutStart(_, _, _, _, _, _) => StartedWrite(s, e);
    case PutEnd(p) =>
      assert PartOk(s.objects, s.parts[p]);
      EndWrite(s, Apply(c, s, e), p);
    case PutRevoke(_) => RevokeWrite(c, s, e);
  }

  /** RemoveAll as the other removals are: not on an object that is still being written. */
  predicate Careful(s: State, e: Event) {
    e.RemoveAllAt? && e.key in s.objects ==> IsAllReplicasComplete(s.objects[e.key])
  }

  /** A step keeps the invariant if and only if it is not a RemoveAll that hits a pending put. */
  lemma WriteStep(c: Config, s: State, e: Event)
    requires LeaseInv(c, s) && WriteInv(s) && Enabled(c, s, e)
    ensures WriteInv(Apply(c, s, e)) <==> Careful(s, e)
  {
    if Quiet(e) { QuietWrite(c, s, e); }
    else if e.PutStart? || e.PutEnd? || e.PutRevoke? { PutWrite(c, s, e); }
    else if e.ExistKey? || e.GetReplicaList? { GrantWrite(c, s, e); }
    else if e.Remove? || e.RemoveAllAt? { DeleteWrite(s, e.key); }
    else { EvictWrite(c, s, e); }
  }

  /**
    The promise: complete replicas are written, what readers were told of is
    written, and no replica that a put is still to end or revoke has been freed.
  */
  ghost predicate Promise(s: State) {
    && (forall k, r :: Stored(s.objects, k, r) && r.status == COMPLETE ==> r.id in s.written)
    && (forall i :: i in s.readers && s.readers[i].Reading? ==> s.readers[i].ids <= s.written)
    && (forall i :: i in s.parts ==> s.parts[i].ids !! s.freed)
  }

  lemma InvPromises(s: State)
    requires OwnerInv(s) && WriteInv(s)
    ensures Promise(s)
  {
    forall i | i in s.parts ensures s.parts[i].ids !! s.freed {
      var p := s.parts[i];
      assert PartOk(s.objects, p);
      forall id | id in p.ids ensures id !in s.freed {
        var r :| r in s.objects[p.key].replicas && r.id == id;
        assert Stored(s.objects, p.key, r);
      }
    }
  }

  /** Deleting an object that is still being written breaks the promise at once. */
  lemma CarelessDelete(s: State, k: Key)
    requires WriteInv(s) && k in s.objects && !IsAllReplicasComplete(s.objects[k])
    ensures !Promise(Delete(s, k))
  {
    CompleteHasNoPart(s, k);
    var i :| i in s.parts && s.parts[i].key == k;
    var p := s.parts[i];
    assert PartOk(s.objects, p);
    var id :| id in p.ids;
    var r :| r in s.objects[k].replicas && r.id == id;
    assert id in AllIds(s.objects[k].replicas) && id in Delete(s, k).freed && i in Delete(s, k).parts;
  }

  /** A step keeps the promise if and only if it is not a RemoveAll that hits a pending put. */
  lemma PromiseStep(c: Config, s: State, e: Event)
    requires LeaseInv(c, s) && WriteInv(s) && Enabled(c, s, e)
    ensures Promise(Apply(c, s, e)) <==> Careful(s, e)
  {
    if Careful(s, e) {
      LeaseStep(c, s, e);
      WriteStep(c, s, e);
      InvPromises(Apply(c, s, e));
    } else {
      CarelessDelete(s, e.key);
    }
  }

  // ---- runs

  ghost predicate CarefulRun(c: Config, s: State, es: seq<Event>, s': State)
    decreases |es|
  {
    if es == [] then s' == s
    else Enabled(c, s, es[0]) && Careful(s, es[0]) && CarefulRun(c, Apply(c, s, es[0]), es[1..], s')
  }

  lemma {:induction false} WriteRun(c: Config, s: State, es: seq<Event>, s': State)
    requires LeaseInv(c, s) && WriteInv(s) && CarefulRun(c, s, es, s')
    ensures LeaseInv(c, s') && WriteInv(s')
    decreases |es|
  {
    if es != [] {
      LeaseStep(c, s, es[0]);
      WriteStep(c, s, es[0]);
      WriteRun(c, Apply(c, s, es[0]), es[1..], s');
    }
  }

  /** Every run without careless RemoveAll keeps the promise, and one more step keeps it exactly if it is careful too. */
  lemma WrittenBeforeComplete(c: Config, s0: State, es: seq<Event>, s: State)
    requires Initial(s0) && CarefulRun(c, s0, es, s)
    ensures Promise(s)
    ensures forall e :: Enabled(c, s, e) ==> (Promise(Apply(c, s, e)) <==> Careful(s, e))
  {
    WriteRun(c, s0, es, s);
    InvPromises(s);
    forall e | Enabled(c, s, e) ensures Promise(Apply(c, s, e)) <==> Careful(s, e) { PromiseStep(c, s, e); }
  }

  // ---- careless runs

  /** In any run, replicas of one type are complete together, and until then some part is pending on them. */
  ghost predicate PendingObject(parts: map<nat, Part>, k: Key, m: Metadata) {
    && (forall r :: r in m.replicas ==>
          r.status == COMPLETE || (r.status == PROCESSING && exists i :: PartFor(parts, i, k, r.kind)))
    && (forall r, q :: r in m.replicas && q in m.replicas && r.kind == q.kind ==> r.status == q.status)
  }

  ghost predicate PendingInv(s: State) {
    forall k :: k in s.objects ==> PendingObject(s.parts, k, s.objects[k])
  }

  /** An object may lose replicas, and parts that are not its own. */
  lemma FewerPending(parts: map<nat, Part>, parts': map<nat, Part>, k: Key, m: Metadata, m': Metadata)
    requires PendingObject(parts, k, m) && forall r :: r in m'.replicas ==> r in m.replicas
    requires forall i, r :: r in m'.replicas && PartFor(parts, i, k, r.kind) ==> PartFor(parts', i, k, r.kind)
    ensures PendingObject(parts', k, m')
  {
    forall r | r in m'.replicas && r.status == PROCESSING ensures exists i :: PartFor(parts', i, k, r.kind) {
      var i :| PartFor(parts, i, k, r.kind);
      assert PartFor(parts', i, k, r.kind);
    }
  }

  lemma StartPending(s: State, e: Event)
    requires PendingInv(s) && e.PutStart? && NewReplicas(s, e)
    ensures PendingInv(Started(s, e))
  {
    var s' := Started(s, e);
    NewPartsFresh(s, e);
    forall k | k in s'.objects ensures PendingObject(s'.parts, k, s'.objects[k]) {
      if k == e.key {
        forall r | r in e.replicas ensures exists i :: PartFor(s'.parts, i, k, r.kind) {
          var i :| PartFor(NewParts(e), i, k, r.kind);
          assert PartFor(s'.parts, i, k, r.kind);
        }
      } else {
        FewerPending(s.parts, s'.parts, k, s.objects[k], s.objects[k]);
      }
    }
  }

  lemma EndPending(c: Config, s: State, i: nat)
    requires PendingInv(s) && i in s.parts
    ensures PendingInv(Ended(c, s, s.parts[i]).(parts := s.parts - {i}))
  {
    var p := s.parts[i];
    var s' := Ended(c, s, p).(parts := s.parts - {i});
    forall k | k in s'.objects ensures PendingObject(s'.parts, k, s'.objects[k]) {
      if k == p.key { EndedPending(s.parts, i, s.objects[k], s'.objects[k]); }
      else { FewerPending(s.parts, s'.parts, k, s.objects[k], s'.objects[k]); }
    }
  }

  lemma EndedPending(parts: map<nat, Part>, i: nat, m: Metadata, m': Metadata)
    requires i in parts && PendingObject(parts, parts[i].key, m) && m'.replicas == MarkComplete(m.replicas, parts[i].kind)
    ensures PendingObject(parts - {i}, parts[i].key, m')
  {
    var k := parts[i].key;
    forall r | r in m'.replicas ensures if r.kind == parts[i].kind then r.status == COMPLETE else r in m.replicas {
      var n :| 0 <= n < |m'.replicas| && m'.replicas[n] == r;
      assert m.replicas[n] in m.replicas;
    }
    forall r | r in m'.replicas && r.status == PROCESSING ensures exists j :: PartFor(parts - {i}, j, k, r.kind) {
      var j :| PartFor(parts, j, k, r.kind);
      assert PartFor(parts - {i}, j, k, r.kind);
    }
  }

  lemma RevokePending(s: State, i: nat)
    requires PendingInv(s) && i in s.parts
    ensures PendingInv(Revoked(s, s.parts[i]).(parts := s.parts - {i}))
  {
    var p := s.parts[i];
    var s' := Revoked(s, p).(parts := s.parts - {i});
    forall k | k in s'.objects ensures PendingObject(s'.parts, k, s'.objects[k]) {
      if k == p.key && HasDiffRepStatus(s.objects[k], PROCESSING, p.kind) { UnrevokedPending(s.parts, i, s.objects[k]); }
      else { FewerPending(s.parts, s'.parts, k, s.objects[k], s'.objects[k]); }
    }
  }

  /** A revoke that finds its replicas completed has nothing pending on them. */
  lemma UnrevokedPending(parts: map<nat, Part>, i: nat, m: Metadata)
    requires i in parts && PendingObject(parts, parts[i].key, m) && HasDiffRepStatus(m, PROCESSING, parts[i].kind)
    ensures PendingObject(parts - {i}, parts[i].key, m)
  {
    var k := parts[i].key;
    var n :| 0 <= n < |m.replicas| && m.replicas[n].kind == parts[i].kind && m.replicas[n].status != PROCESSING;
    assert m.replicas[n] in m.replicas;
    forall r | r in m.replicas && r.status == PROCESSING ensures exists j :: PartFor(parts - {i}, j, k, r.kind) {
      var j :| PartFor(parts, j, k, r.kind);
      assert PartFor(parts - {i}, j, k, r.kind);
    }
  }

  /** Whatever only takes replicas away, or changes none, leaves the parts alone. */
  lemma OtherPending(s: State, s': State)
    requires PendingInv(s) && s'.parts == s.parts
    requires forall k :: k in s'.objects ==> k in s.objects && forall r :: r in s'.objects[k].replicas ==> r in s.objects[k].replicas
    ensures PendingInv(s')
  {
    forall k | k in s'.objects ensures PendingObject(s'.parts, k, s'.objects[k]) {
      FewerPending(s.parts, s'.parts, k, s.objects[k], s'.objects[k]);
    }
  }

  lemma OtherStep(c: Config, s: State, e: Event)
    requires PendingInv(s) && Enabled(c, s, e) && !e.PutStart? && !e.PutEnd? && !e.PutRevoke?
    ensures PendingInv(Apply(c, s, e))
  {
    if Quiet(e) {
      assert Apply(c, s, e).objects == s.objects;
    }
    OtherPending(s, Apply(c, s, e));
  }

  lemma PendingStep(c: Config, s: State, e: Event)
    requires PendingInv(s) && Enabled(c, s, e)
    ensures PendingInv(Apply(c, s, e))
  {
    match e
    case PutStart(_, _, _, _, _, _) => StartPending(s, e);
    case PutEnd(i) => EndPending(c, s, i);
    case PutRevoke(i) => RevokePending(s, i);
    case _ => OtherStep(c, s, e);
  }

  lemma {:induction false} PendingRun(c: Config, s: State, es: seq<Event>, s': State)
    requires PendingInv(s) && Run(c, s, es, s')
    ensures PendingInv(s')
    decreases |es|
  {
    if es != [] {
      PendingStep(c, s, es[0]);
      PendingRun(c, Apply(c, s, es[0]), es[1..], s');
    }
  }

  lemma {:induction false} Above(a: set<nat>) returns (n: nat)
    ensures forall x :: x in a ==> x < n
  {
    n := 0;
    if a != {} {
      var x :| x in a;
      var m := Above(a - {x});
      n := if m <= x then x + 1 else m;
      assert forall y :: y in a ==> y == x || y in a - {x};
    }
  }

  /** Writing all data of a part, whatever became of its replicas. */
  lemma {:induction false} WriteAll(c: Config, s: State, i: nat, todo: set<nat>) returns (es: seq<Event>)
    requires i in s.parts && todo <= s.parts[i].ids
    ensures Run(c, s, es, s.(written := s.written + todo))
    decreases |todo|
  {
    if todo == {} {
      es := [];
      assert s.written + todo == s.written;
    } else {
      var id :| id in todo;
      var next := Apply(c, s, Write(i, id));
      var rest := WriteAll(c, next, i, todo - {id});
      es := [Write(i, id)] + rest;
      assert s.written + {id} + (todo - {id}) == s.written + todo;
      assert es[1..] == rest;
    }
  }

  /** A put of a memory replica, and a disk replica if the master has them, under numbers not in use. */
  function FreshPut(c: Config, k: Key, n: nat): Event {
    var mem := Replica(n, MEMORY, PROCESSING);
    PutStart(k, if c.useDisk then [mem, Replica(n + 1, DISK, PROCESSING)] else [mem], 1, false, n, n + 1)
  }

  lemma FreshIds(c: Config, k: Key, n: nat)
    ensures var rs := FreshPut(c, k, n).replicas;
            Ids(rs, MEMORY) == {n} && Ids(rs, DISK) == (if c.useDisk then {n + 1} else {}) && DistinctReplicas(rs)
  {
    var rs := FreshPut(c, k, n).replicas;
    assert rs[0] in rs && (c.useDisk ==> rs[1] in rs);
  }

  lemma FreshPutEnabled(c: Config, s: State, k: Key, n: nat)
    requires k != "" && k !in s.objects && (forall x :: x in s.owner ==> x < n) && (forall x :: x in s.parts ==> x < n)
    ensures Enabled(c, s, FreshPut(c, k, n)) && Apply(c, s, FreshPut(c, k, n)).written == s.written
    ensures var s' := Apply(c, s, FreshPut(c, k, n));
            && k in s'.objects && s'.objects[k] == NewMeta(FreshPut(c, k, n))
            && n in s'.parts && s'.parts[n] == Part(k, MEMORY, {n})
            && forall i :: i in s.parts ==> i in s'.parts && s'.parts[i] == s.parts[i]
  {
    var e := FreshPut(c, k, n);
    FreshIds(c, k, n);
    assert NewReplicas(s, e);
    NewPartsFresh(s, e);
  }

  lemma EndCompletes(c: Config, s: State, k: Key, n: nat, i: nat)
    requires k in s.objects && s.objects[k].replicas == FreshPut(c, k, n).replicas
    requires Enabled(c, s, PutEnd(i)) && s.parts[i].key == k && (s.parts[i].kind == DISK ==> c.useDisk)
    requires n !in s.written && n + 1 !in s.written
    ensures exists r :: Stored(Apply(c, s, PutEnd(i)).objects, k, r) && r.status == COMPLETE && r.id !in s.written
  {
    var s', p := Apply(c, s, PutEnd(i)), s.parts[i];
    var j := if p.kind == MEMORY then 0 else 1;
    var r := s'.objects[k].replicas[j];
    assert r == Completed(s.objects[k].replicas[j]);
    assert Stored(s'.objects, k, r);
  }

  lemma WriteAndEnd(c: Config, s: State, k: Key, n: nat, i: nat) returns (es: seq<Event>, s': State)
    requires k in s.objects && s.objects[k].replicas == FreshPut(c, k, n).replicas
    requires i in s.parts && s.parts[i].key == k && (s.parts[i].kind == DISK ==> c.useDisk)
    requires forall x :: x in s.written + s.parts[i].ids ==> x < n
    ensures Run(c, s, es, s')
    ensures exists r :: Stored(s'.objects, k, r) && r.status == COMPLETE && r.id !in s'.written
  {
    var writes := WriteAll(c, s, i, s.parts[i].ids);
    var s1 := s.(written := s.written + s.parts[i].ids);
    EndCompletes(c, s1, k, n, i);
    s' := Apply(c, s1, PutEnd(i));
    RunSnoc(c, s, writes, s1, PutEnd(i));
    es := writes + [PutEnd(i)];
  }

  lemma RunCons(c: Config, s: State, e: Event, es: seq<Event>, s': State)
    requires Enabled(c, s, e) && Run(c, Apply(c, s, e), es, s')
    ensures Run(c, s, [e] + es, s')
  {
    assert ([e] + es)[1..] == es;
  }

  /** A part that a put of this master can have: of a key that is not empty, and of a type of replica it gives. */
  predicate Startable(c: Config, p: Part) {
    p.key != "" && (p.kind == DISK ==> c.useDisk)
  }

  lemma StartableStep(c: Config, s: State, e: Event)
    requires (forall i :: i in s.parts ==> Startable(c, s.parts[i])) && Enabled(c, s, e)
    ensures forall i :: i in Apply(c, s, e).parts ==> Startable(c, Apply(c, s, e).parts[i])
  {
    if e.PutStart? { assert Apply(c, s, e).parts == s.parts + NewParts(e); }
    else { assert Apply(c, s, e).parts.Items <= s.parts.Items; }
  }

  lemma {:induction false} StartableRun(c: Config, s: State, es: seq<Event>, s': State)
    requires (forall i :: i in s.parts ==> Startable(c, s.parts[i])) && Run(c, s, es, s')
    ensures forall i :: i in s'.parts ==> Startable(c, s'.parts[i])
    decreases |es|
  {
    if es != [] {
      StartableStep(c, s, es[0]);
      StartableRun(c, Apply(c, s, es[0]), es[1..], s');
    }
  }

  /** A part whose object is gone can complete what another put of the key allocates. */
  lemma LostPartCompletes(c: Config, s: State, i: nat) returns (after: seq<Event>, s': State)
    requires i in s.parts && s.parts[i].key !in s.objects && Startable(c, s.parts[i])
    ensures Run(c, s, after, s')
    ensures exists r :: Stored(s'.objects, s.parts[i].key, r) && r.status == COMPLETE && r.id !in s'.written
  {
    var n := Above(s.owner.Keys + s.parts.Keys + s.written + s.parts[i].ids);
    var put := FreshPut(c, s.parts[i].key, n);
    FreshPutEnabled(c, s, s.parts[i].key, n);
    var es;
    es, s' := WriteAndEnd(c, Apply(c, s, put), s.parts[i].key, n, i);
    RunCons(c, s, put, es, s');
    after := [put] + es;
  }

  /** From every state of every run, a RemoveAll that hits a pending put can go on to a complete replica that was never written. */
  lemma CarelessCompletes(c: Config, s0: State, es: seq<Event>, s: State, e: Event) returns (after: seq<Event>, s': State)
    requires Initial(s0) && Run(c, s0, es, s) && Enabled(c, s, e) && !Careful(s, e)
    ensures Run(c, Apply(c, s, e), after, s')
    ensures exists r :: Stored(s'.objects, e.key, r) && r.status == COMPLETE && r.id !in s'.written
  {
    PendingRun(c, s0, es, s);
    StartableRun(c, s0, es, s);
    var rs := s.objects[e.key].replicas;
    var j :| 0 <= j < |rs| && rs[j].status != COMPLETE;
    assert rs[j] in rs && PendingObject(s.parts, e.key, s.objects[e.key]);
    var i :| PartFor(s.parts, i, e.key, rs[j].kind);
    after, s' := LostPartCompletes(c, Apply(c, s, e), i);
  }

  lemma {:induction false} RunSnoc(c: Config, s0: State, es: seq<Event>, s: State, e: Event)
    requires Run(c, s0, es, s) && Enabled(c, s, e)
    ensures Run(c, s0, es + [e], Apply(c, s, e))
    decreases |es|
  {
    if es == [] {
      assert Run(c, Apply(c, s, e), [], Apply(c, s, e));
    } else {
      assert (es + [e])[1..] == es[1..] + [e];
      RunSnoc(c, Apply(c, s0, es[0]), es[1..], s, e);
    }
  }

  /** RemoveAll between the start and the end of a put lets the end complete another put's unwritten replica. */
  lemma RemoveAllCounterexample(c: Config, k: Key) returns (es: seq<Event>, s0: State, s: State)
    requires k != ""
    ensures Initial(s0) && Run(c, s0, es, s)
    ensures exists r :: Stored(s.objects, k, r) && r.status == COMPLETE && r.id !in s.written
  {
    s0 := State(0, map[], map[], {}, {}, map[], map[], Idle);
    var put, removal := FreshPut(c, k, 0), RemoveAllAt(k, 0);
    FreshPutEnabled(c, s0, k, 0);
    var s1 := Apply(c, s0, put);
    var after;
    after, s := LostPartCompletes(c, Apply(c, s1, removal), 0);
    RunCons(c, s1, removal, after, s);
    RunCons(c, s0, put, [removal] + after, s);
    es := [put] + ([removal] + after);
  }
}
