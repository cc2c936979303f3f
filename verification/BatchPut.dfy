/**
  The client's BatchPut pipeline. Everything outside the client is given by an
  Environment: what the master answers, which transfers can be submitted and
  how each of them ends.
*/
module BatchPut {
  import opened ObjectMetadata

  datatype ErrorCode =
    | INTERNAL_ERROR | RPC_FAIL | INVALID_PARAMS | TRANSFER_FAIL | OBJECT_ALREADY_EXISTS | OtherError(code: nat)

  datatype Result = Success | Failure(error: ErrorCode)

  datatype PutOperationState = PENDING | MASTER_FAILED | TRANSFER_FAILED | FINALIZE_FAILED | SUCCESS

  datatype StartResponse = Started(replicas: seq<ReplicaType>) | Refused(error: ErrorCode)

  /** `pending` lists the replicas whose transfers were submitted. */
  datatype PutOperation = PutOperation(
    state: PutOperationState, result: Result, replicas: seq<ReplicaType>, pending: seq<nat>)

  /** submits(i, k) and transfers(i, k) are about replica k of operation i; ends and revokes answer a list of operations. */
  datatype Environment = Environment(
    starts: seq<StartResponse>,
    submitter: bool,
    submits: (nat, nat) -> bool,
    transfers: (nat, nat) -> Result,
    ends: seq<nat> -> seq<Result>,
    revokes: seq<nat> -> seq<Result>)

  // ---- what becomes of an operation

  /** The replicas the master gave to operation i. */
  function ReplicasOf(env: Environment, n: nat, i: nat): seq<ReplicaType> {
    if |env.starts| == n && i < n && env.starts[i].Started? then env.starts[i].replicas else []
  }

  /** Operation i has memory replicas, and data got through to all of them. */
  predicate AllWritten(env: Environment, n: nat, i: nat) {
    var rs := ReplicasOf(env, n, i);
    && env.submitter && MEMORY in rs
    && forall k :: 0 <= k < |rs| && rs[k] == MEMORY ==> env.submits(i, k) && env.transfers(i, k) == Success
  }

  /** Indices of the memory replicas among the first k. */
  function MemoryOf(replicas: seq<ReplicaType>, k: nat): (ks: seq<nat>)
    requires k <= |replicas|
    ensures forall j :: j in ks <==> 0 <= j < k && replicas[j] == MEMORY
  {
    if k == 0 then []
    else MemoryOf(replicas, k - 1) + if replicas[k - 1] == MEMORY then [k - 1] else []
  }

  /** How the first failing transfer of a list ends. */
  function FirstError(env: Environment, i: nat, ks: seq<nat>): (r: Result)
    ensures r == Success <==> forall k :: k in ks ==> env.transfers(i, k) == Success
  {
    if ks == [] then Success
    else
      var n := |ks| - 1;
      assert ks == ks[..n] + [ks[n]];
      var r := FirstError(env, i, ks[..n]);
      if r != Success then r else env.transfers(i, ks[n])
  }

  /** Every memory replica of operation i among the first `upTo` can be submitted. */
  predicate AllSubmitted(env: Environment, i: nat, replicas: seq<ReplicaType>, upTo: nat)
    requires upTo <= |replicas|
  {
    forall k :: 0 <= k < upTo && replicas[k] == MEMORY ==> env.submits(i, k)
  }

  /** Why operation i, not fully written, failed. */
  function Cause(env: Environment, n: nat, i: nat): ErrorCode
    requires i < n && !AllWritten(env, n, i)
  {
    var replicas := ReplicasOf(env, n, i);
    if !env.submitter then INVALID_PARAMS
    else if |env.starts| != n then RPC_FAIL
    else if env.starts[i].Refused? then env.starts[i].error
    else if MEMORY !in replicas then INTERNAL_ERROR
    else if !AllSubmitted(env, i, replicas, |replicas|) then TRANSFER_FAIL
    else FirstError(env, i, MemoryOf(replicas, |replicas|)).error
  }

  /** Replica k of operation i was submitted before another one could not be. */
  predicate Abandoned(env: Environment, n: nat, i: nat, k: nat) {
    var replicas := ReplicasOf(env, n, i);
    && env.submitter && k < |replicas| && replicas[k] == MEMORY && AllSubmitted(env, i, replicas, k + 1)
    && !AllSubmitted(env, i, replicas, |replicas|)
  }

  // ---- operations

  function Created(): PutOperation {
    PutOperation(PENDING, Failure(INTERNAL_ERROR), [], [])
  }

  predicate IsResolved(op: PutOperation) {
    op.state != PENDING
  }

  function SetError(op: PutOperation, error: ErrorCode): PutOperation {
    op.(result := Failure(error),
        state := if op.replicas == [] then MASTER_FAILED else if op.pending == [] then TRANSFER_FAILED else FINALIZE_FAILED)
  }

  function SetSuccess(op: PutOperation): PutOperation {
    op.(state := SUCCESS, result := Success)
  }

  /** Operation i after the master's answer: failed, or pending with the replicas it was given. */
  ghost predicate StartedOk(env: Environment, n: nat, i: nat, op: PutOperation) {
    && op.replicas == ReplicasOf(env, n, i) && op.pending == [] && op.result.Failure?
    && (IsResolved(op) <==> |env.starts| != n || (i < n && env.starts[i].Refused?))
    && (IsResolved(op) && env.submitter && i < n ==> op.replicas == [] && op.result == Failure(Cause(env, n, i)))
  }

  method StartBatchPut(env: Environment, ops: array<PutOperation>)
    requires forall i :: 0 <= i < ops.Length ==> ops[i] == Created()
    modifies ops
    ensures forall i :: 0 <= i < ops.Length ==> StartedOk(env, ops.Length, i, ops[i])
  {
    if |env.starts| != ops.Length {
      for i := 0 to ops.Length
        invariant forall k :: 0 <= k < i ==> StartedOk(env, ops.Length, k, ops[k])
        invariant forall k :: i <= k < ops.Length ==> ops[k] == Created()
      {
        ops[i] := SetError(ops[i], RPC_FAIL);
      }
      return;
    }
    for i := 0 to ops.Length
      invariant forall k :: 0 <= k < i ==> StartedOk(env, ops.Length, k, ops[k])
      invariant forall k :: i <= k < ops.Length ==> ops[k] == Created()
    {
      match env.starts[i] {
        case Refused(error) => ops[i] := SetError(ops[i], error);
        case Started(replicas) => ops[i] := ops[i].(replicas := replicas);
      }
    }
  }

  /** The transfers of one operation, in replica order up to the first that cannot be submitted. */
  method SubmitAll(env: Environment, i: nat, replicas: seq<ReplicaType>) returns (pending: seq<nat>, ok: bool)
    ensures ok <==> AllSubmitted(env, i, replicas, |replicas|)
    ensures ok ==> pending == MemoryOf(replicas, |replicas|)
    ensures forall k :: k in pending <==> 0 <= k < |replicas| && replicas[k] == MEMORY && AllSubmitted(env, i, replicas, k + 1)
  {
    pending := [];
    for k := 0 to |replicas|
      invariant AllSubmitted(env, i, replicas, k) && pending == MemoryOf(replicas, k)
    {
      if replicas[k] == MEMORY {
        if !env.submits(i, k) {
          return pending, false;
        }
        pending := pending + [k];
      }
    }
    ok := true;
  }

  /** Operation i after submission: failed, or pending with a transfer for every memory replica. */
  ghost predicate SubmittedOk(env: Environment, n: nat, i: nat, op: PutOperation)
    requires i < n
  {
    && op.replicas == ReplicasOf(env, n, i) && op.result.Failure?
    && (IsResolved(op) ==> !AllWritten(env, n, i) && op.result == Failure(Cause(env, n, i)))
    && (!IsResolved(op) ==>
          && env.submitter && |env.starts| == n && env.starts[i].Started? && op.replicas != []
          && AllSubmitted(env, i, op.replicas, |op.replicas|) && op.pending == MemoryOf(op.replicas, |op.replicas|))
  }

  /** `dropped` lists the transfers of each operation that were submitted and that nobody will wait for. */
  method SubmitTransfers(env: Environment, ops: array<PutOperation>) returns (ghost dropped: seq<seq<nat>>)
    requires forall i :: 0 <= i < ops.Length ==> StartedOk(env, ops.Length, i, ops[i])
    modifies ops
    ensures forall i :: 0 <= i < ops.Length ==> SubmittedOk(env, ops.Length, i, ops[i])
    ensures |dropped| == ops.Length
    ensures forall i, k :: 0 <= i < ops.Length ==> (k in dropped[i] <==> Abandoned(env, ops.Length, i, k))
  {
    dropped := [];
    for i := 0 to ops.Length
      invariant forall k :: 0 <= k < i ==> SubmittedOk(env, ops.Length, k, ops[k])
      invariant forall k :: i <= k < ops.Length ==> ops[k] == old(ops[k])
      invariant |dropped| == i
      invariant forall j, k :: 0 <= j < i ==> (k in dropped[j] <==> Abandoned(env, ops.Length, j, k))
    {
      ghost var lost: seq<nat> := [];
      if !env.submitter {
        ops[i] := SetError(ops[i], INVALID_PARAMS);
      } else if !IsResolved(ops[i]) {
        if ops[i].replicas == [] {
          ops[i] := SetError(ops[i], INTERNAL_ERROR);
        } else {
          var pending, ok := SubmitAll(env, i, ops[i].replicas);
          ops[i] := ops[i].(pending := pending);
          if !ok {
            lost := pending;
            ops[i] := SetError(ops[i], TRANSFER_FAIL).(pending := []);
          }
        }
      }
      dropped := dropped + [lost];
    }
  }

  /** Waits for every transfer and reports the first that failed. */
  method Wait(env: Environment, i: nat, pending: seq<nat>) returns (first: Result)
    ensures first == FirstError(env, i, pending)
  {
    first := Success;
    for t := 0 to |pending|
      invariant first == FirstError(env, i, pending[..t])
    {
      assert pending[..t + 1][..t] == pending[..t];
      var r := env.transfers(i, pending[t]);
      if r != Success && first == Success { first := r; }
    }
    assert pending[..|pending|] == pending;
  }

  /** Operation i after waiting is unresolved exactly if all its data is written. */
  ghost predicate WaitedOk(env: Environment, n: nat, i: nat, op: PutOperation)
    requires i < n
  {
    && op.replicas == ReplicasOf(env, n, i)
    && (!IsResolved(op) <==> AllWritten(env, n, i))
    && (!IsResolved(op) ==> op.pending != [])
    && (IsResolved(op) ==> op.result == Failure(Cause(env, n, i)))
  }

  lemma WrittenMeans(env: Environment, n: nat, i: nat, op: PutOperation)
    requires i < n && SubmittedOk(env, n, i, op) && !IsResolved(op)
    ensures AllWritten(env, n, i) <==> op.pending != [] && FirstError(env, i, op.pending) == Success
    ensures op.pending == [] <==> MEMORY !in op.replicas
  {
    if op.pending != [] {
      var k := op.pending[0];
      assert k in op.pending;
      assert op.replicas[k] == MEMORY;
    }
    if MEMORY in op.replicas {
      var k :| 0 <= k < |op.replicas| && op.replicas[k] == MEMORY;
      assert k in op.pending;
    }
  }

  method WaitForTransfers(env: Environment, ops: array<PutOperation>)
    requires forall i :: 0 <= i < ops.Length ==> SubmittedOk(env, ops.Length, i, ops[i])
    modifies ops
    ensures forall i :: 0 <= i < ops.Length ==> WaitedOk(env, ops.Length, i, ops[i])
  {
    for i := 0 to ops.Length
      invariant forall k :: 0 <= k < i ==> WaitedOk(env, ops.Length, k, ops[k])
      invariant forall k :: i <= k < ops.Length ==> ops[k] == old(ops[k])
    {
      if !IsResolved(ops[i]) {
        WrittenMeans(env, ops.Length, i, ops[i]);
        if ops[i].pending == [] {
          ops[i] := SetError(ops[i], INTERNAL_ERROR);
        } else {
          var first := Wait(env, i, ops[i].pending);
          if first != Success { ops[i] := SetError(ops[i], first.error); }
        }
      }
    }
  }

  // ---- finalization

  ghost predicate Ascending(list: seq<nat>, bound: nat) {
    && (forall a :: 0 <= a < |list| ==> list[a] < bound)
    && (forall a, b :: 0 <= a < b < |list| ==> list[a] < list[b])
  }

  /** Operation i was given replicas that it could not fill. */
  predicate MustRevoke(env: Environment, n: nat, i: nat) {
    ReplicasOf(env, n, i) != [] && !AllWritten(env, n, i)
  }

  /** Of the operations below `upTo`, exactly the fully written ones are ended and the other ones with replicas revoked. */
  ghost predicate Sorted(env: Environment, n: nat, upTo: nat, ended: seq<nat>, revoked: seq<nat>) {
    && Ascending(ended, upTo) && Ascending(revoked, upTo)
    && (forall i :: i in ended <==> 0 <= i < upTo && AllWritten(env, n, i))
    && (forall i :: i in revoked <==> 0 <= i < upTo && MustRevoke(env, n, i))
  }

  method Sort(env: Environment, ops: array<PutOperation>) returns (ended: seq<nat>, revoked: seq<nat>)
    requires forall i :: 0 <= i < ops.Length ==> WaitedOk(env, ops.Length, i, ops[i])
    ensures Sorted(env, ops.Length, ops.Length, ended, revoked)
  {
    ended, revoked := [], [];
    for i := 0 to ops.Length
      invariant Sorted(env, ops.Length, i, ended, revoked)
    {
      var op := ops[i];
      assert WaitedOk(env, ops.Length, i, op);
      if !IsResolved(op) && op.replicas != [] && op.pending != [] {
        ended := ended + [i];
      } else if IsResolved(op) && op.replicas != [] {
        revoked := revoked + [i];
      }
    }
  }

  /** The master's answer to the p-th operation of a list, or a failure if the answer has the wrong size. */
  function Answer(responses: seq<Result>, size: nat, p: nat): Result
    requires p < size
  {
    if |responses| != size then Failure(RPC_FAIL) else responses[p]
  }

  method EndAll(env: Environment, ops: array<PutOperation>, ended: seq<nat>)
    requires Ascending(ended, ops.Length)
    modifies ops
    ensures forall p :: 0 <= p < |ended| ==>
              IsResolved(ops[ended[p]]) && ops[ended[p]].result == Answer(env.ends(ended), |ended|, p)
    ensures forall i :: 0 <= i < ops.Length && i !in ended ==> ops[i] == old(ops[i])
  {
    if ended == [] { return; }
    var responses := env.ends(ended);
    for q := 0 to |ended|
      invariant forall p :: 0 <= p < q ==>
                  IsResolved(ops[ended[p]]) && ops[ended[p]].result == Answer(responses, |ended|, p)
      invariant forall i :: 0 <= i < ops.Length && i !in ended ==> ops[i] == old(ops[i])
    {
      var i := ended[q];
      assert i in ended && forall p :: 0 <= p < q ==> ended[p] < ended[q];
      match Answer(responses, |ended|, q) {
        case Success => ops[i] := SetSuccess(ops[i]);
        case Failure(error) => ops[i] := SetError(ops[i], error);
      }
    }
  }

  /** A revoke changes an operation's result only if the answer has the wrong size. */
  method RevokeAll(env: Environment, ops: array<PutOperation>, revoked: seq<nat>)
    requires Ascending(revoked, ops.Length)
    modifies ops
    ensures forall i :: 0 <= i < ops.Length ==>
              ops[i] == if i in revoked && |env.revokes(revoked)| != |revoked| then SetError(old(ops[i]), RPC_FAIL)
                        else old(ops[i])
  {
    if revoked == [] || |env.revokes(revoked)| == |revoked| { return; }
    for q := 0 to |revoked|
      invariant forall i :: 0 <= i < ops.Length ==>
                  ops[i] == if i in revoked[..q] then SetError(old(ops[i]), RPC_FAIL) else old(ops[i])
    {
      var i := revoked[q];
      assert i in revoked && forall p :: 0 <= p < q ==> revoked[p] < revoked[q];
      assert revoked[..q + 1] == revoked[..q] + [i];
      ops[i] := SetError(ops[i], RPC_FAIL);
    }
    assert revoked[..|revoked|] == revoked;
  }

  /** Whether a revoke request was answered with the wrong number of results. */
  predicate RevokeLost(env: Environment, revoked: seq<nat>) {
    |env.revokes(revoked)| != |revoked|
  }

  /** What an operation ends with: the answer to its end, or the failure that kept it from being ended. */
  ghost predicate Settled(env: Environment, n: nat, ended: seq<nat>, revoked: seq<nat>, i: nat, result: Result)
    requires i < n
  {
    && (forall p :: 0 <= p < |ended| && ended[p] == i ==> result == Answer(env.ends(ended), |ended|, p))
    && (!AllWritten(env, n, i) ==>
          result == Failure(if i in revoked && RevokeLost(env, revoked) then RPC_FAIL else Cause(env, n, i)))
  }

  method FinalizeBatchPut(env: Environment, ops: array<PutOperation>) returns (ended: seq<nat>, revoked: seq<nat>)
    requires forall i :: 0 <= i < ops.Length ==> WaitedOk(env, ops.Length, i, ops[i])
    modifies ops
    ensures Sorted(env, ops.Length, ops.Length, ended, revoked)
    ensures forall i :: 0 <= i < ops.Length ==> IsResolved(ops[i]) && Settled(env, ops.Length, ended, revoked, i, ops[i].result)
  {
    ended, revoked := Sort(env, ops);
    EndAll(env, ops, ended);
    RevokeAll(env, ops, revoked);
    // The source ends with a sweep over unresolved operations; this shows that it finds none.
    forall i | 0 <= i < ops.Length
      ensures IsResolved(ops[i]) && Settled(env, ops.Length, ended, revoked, i, ops[i].result)
    {
      assert old(WaitedOk(env, ops.Length, i, ops[i]));
    }
  }

  /** A key that exists already counts as put. */
  function Reported(r: Result): Result {
    if r == Failure(OBJECT_ALREADY_EXISTS) then Success else r
  }

  method CollectResults(ops: array<PutOperation>) returns (results: seq<Result>)
    ensures |results| == ops.Length
    ensures forall i :: 0 <= i < ops.Length ==> results[i] == Reported(ops[i].result)
  {
    results := [];
    for i := 0 to ops.Length
      invariant |results| == i
      invariant forall k :: 0 <= k < i ==> results[k] == Reported(ops[k].result)
    {
      results := results + [Reported(ops[i].result)];
    }
  }

  /** A transfer of operation i is abandoned exactly if its first memory replica was submitted and a later one could not be. */
  lemma AbandonedWhen(env: Environment, n: nat, i: nat)
    ensures (exists k :: Abandoned(env, n, i, k)) <==>
            var ks := MemoryOf(ReplicasOf(env, n, i), |ReplicasOf(env, n, i)|);
            env.submitter && ks != [] && env.submits(i, ks[0]) && exists k :: k in ks && !env.submits(i, k)
  {
    var replicas := ReplicasOf(env, n, i);
    var ks := MemoryOf(replicas, |replicas|);
    if ks != [] {
      MemoryFirst(replicas, |replicas|);
      var k := ks[0];
      if env.submits(i, k) {
        assert k in ks && forall j :: 0 <= j < k ==> j !in ks;
        assert AllSubmitted(env, i, replicas, k + 1);
      }
      if env.submitter && env.submits(i, k) && exists j :: j in ks && !env.submits(i, j) { assert Abandoned(env, n, i, k); }
    }
    if k :| Abandoned(env, n, i, k) {
      assert k in ks;
    }
  }

  lemma {:induction false} MemoryFirst(replicas: seq<ReplicaType>, k: nat)
    requires k <= |replicas|
    ensures var ks := MemoryOf(replicas, k); ks != [] ==> forall j :: j in ks ==> ks[0] <= j
  {
    if k > 0 {
      var before, ks := MemoryOf(replicas, k - 1), MemoryOf(replicas, k);
      MemoryFirst(replicas, k - 1);
      if before != [] {
        assert ks[0] == before[0] && before[0] in before;
      } else {
        assert forall j :: 0 <= j < |ks| ==> ks[j] == k - 1;
      }
    }
  }

  /**
    Every operation that received replicas is named in exactly one of the end
    and the revoke request, in the end request exactly if all its memory
    replicas were written. There is one result per key, in order: the answer to
    the end request if there was one, else what kept the operation from being
    ended. `dropped` lists the transfers that may still be writing when an
    operation is revoked.
  */
  method BatchPut(env: Environment, n: nat)
    returns (results: seq<Result>, ended: seq<nat>, revoked: seq<nat>, ghost dropped: seq<seq<nat>>)
    ensures Sorted(env, n, n, ended, revoked) && |results| == n
    ensures forall i :: 0 <= i < n ==>
              if ReplicasOf(env, n, i) == [] then i !in ended && i !in revoked else (i in ended) != (i in revoked)
    ensures forall p :: 0 <= p < |ended| ==> results[ended[p]] == Reported(Answer(env.ends(ended), |ended|, p))
    ensures forall i :: 0 <= i < n && !AllWritten(env, n, i) ==>
              results[i] == Reported(Failure(if i in revoked && RevokeLost(env, revoked) then RPC_FAIL else Cause(env, n, i)))
    ensures |dropped| == n
    ensures forall i, k :: 0 <= i < n ==> (k in dropped[i] <==> Abandoned(env, n, i, k)) && (k in dropped[i] ==> i in revoked)
  {
    var ops := new PutOperation[n](_ => Created());
    StartBatchPut(env, ops);
    dropped := SubmitTransfers(env, ops);
    WaitForTransfers(env, ops);
    ended, revoked := FinalizeBatchPut(env, ops);
    results := CollectResults(ops);
    forall p | 0 <= p < |ended| ensures ops[ended[p]].result == Answer(env.ends(ended), |ended|, p) {
      assert ended[p] in ended;
      assert Settled(env, n, ended, revoked, ended[p], ops[ended[p]].result);
    }
    forall i, k | 0 <= i < n && k in dropped[i] ensures i in revoked {
      assert Abandoned(env, n, i, k);
      assert MustRevoke(env, n, i);
    }
  }

  /** A key is reported as put only if it was ended so or exists already. */
  lemma SuccessMeans(env: Environment, n: nat, ended: seq<nat>, revoked: seq<nat>, i: nat, result: Result)
    requires i < n && Sorted(env, n, n, ended, revoked) && Settled(env, n, ended, revoked, i, result) && Reported(result) == Success
    ensures if i in ended then
              exists p :: 0 <= p < |ended| && ended[p] == i && Reported(Answer(env.ends(ended), |ended|, p)) == Success
            else
              !AllWritten(env, n, i) && Cause(env, n, i) == OBJECT_ALREADY_EXISTS && !(i in revoked && RevokeLost(env, revoked))
  {
    if i in ended {
      var p :| 0 <= p < |ended| && ended[p] == i;
    }
  }
}
