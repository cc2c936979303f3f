/**
  What the master knows about one object: its replicas, its hard lease, its
  optional soft pin. Times are points of one steady clock.
*/
module ObjectMetadata {
  import opened HeapModel

  datatype ReplicaType = MEMORY | DISK

  datatype ReplicaStatus = UNDEFINED | INITIALIZED | PROCESSING | COMPLETE | REMOVED | FAILED

  /** `id` names the memory buffers, or the file, that the replica holds. */
  datatype Replica = Replica(id: nat, kind: ReplicaType, status: ReplicaStatus)

  datatype Metadata = Metadata(replicas: seq<Replica>, size: nat, lease: nat, softPin: Option<nat>)

  // ---- queries

  predicate Expired(m: Metadata, now: nat) {
    now >= m.lease
  }

  predicate SoftPinned(m: Metadata, now: nat) {
    m.softPin.Some? && now < m.softPin.value
  }

  predicate HasMemReplica(m: Metadata) {
    exists i :: 0 <= i < |m.replicas| && m.replicas[i].kind == MEMORY
  }

  /** Some replica of the given type has another status. */
  predicate HasDiffRepStatus(m: Metadata, status: ReplicaStatus, kind: ReplicaType) {
    exists i :: 0 <= i < |m.replicas| && m.replicas[i].kind == kind && m.replicas[i].status != status
  }

  predicate IsAllReplicasComplete(m: Metadata) {
    forall i :: 0 <= i < |m.replicas| ==> m.replicas[i].status == COMPLETE
  }

  predicate IsValid(m: Metadata) {
    m.replicas != [] && m.size > 0
  }

  // ---- updates

  function Max(a: int, b: int): int {
    if a < b then b else a
  }

  function GrantLease(m: Metadata, now: nat, ttl: nat, softTtl: nat): Metadata {
    m.(lease := Max(m.lease, now + ttl),
       softPin := if m.softPin.Some? then Some(Max(m.softPin.value, now + softTtl)) else None)
  }

  function Without(rs: seq<Replica>, kind: ReplicaType): (r: seq<Replica>)
    ensures forall x :: x in r <==> x in rs && x.kind != kind
  {
    if rs == [] then [] else
      assert rs == [rs[0]] + rs[1..];
      (if rs[0].kind == kind then [] else [rs[0]]) + Without(rs[1..], kind)
  }

  function EraseReplica(m: Metadata, kind: ReplicaType): Metadata {
    m.(replicas := Without(m.replicas, kind))
  }

  function Completed(r: Replica): Replica {
    if r.status == PROCESSING then r.(status := COMPLETE) else r
  }

  /** mark_complete on every replica of the type. */
  function MarkComplete(rs: seq<Replica>, kind: ReplicaType): (r: seq<Replica>)
    ensures |r| == |rs| && forall i :: 0 <= i < |rs| ==> r[i] == if rs[i].kind == kind then Completed(rs[i]) else rs[i]
  {
    seq(|rs|, i requires 0 <= i < |rs| => if rs[i].kind == kind then Completed(rs[i]) else rs[i])
  }
}
