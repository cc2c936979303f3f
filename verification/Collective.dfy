/**
  Collective operations over any number of ranks, without failures. Every rank
  runs the same sequence of operations, uses two buffer slots in turn, and
  starts an operation after its previous one is collected. Operations differ in
  the number of bytes per chunk, so the chunks of two operations may overlap.
  Data and signal writes are delivered one by one in any order; a data write
  reads its source when it is delivered. Signal slots start at 0.
*/
module Collective {
  type Chunk = seq<nat>

  /** Bytes by rank, slot and offset in the slot's buffer. */
  type Memory = map<(nat, nat, nat), nat>

  /** Gather stands for all-reduce and all-gather, Transpose for all-to-all and reduce-scatter. */
  datatype Op = Broadcast(root: nat) | Gather | Transpose | Barrier

  /** Operation t has chunks of bytes(t) bytes; data(r, t, c, k) is byte k of chunk c of what rank r puts into it. */
  datatype Program = Program(size: nat, ops: nat -> Op, bytes: nat -> nat, data: (nat, nat, nat, nat) -> nat)

  /** A rank is on its way through operation `op`. */
  datatype Phase = Ready | Loaded | Sending | Signaled | Done
  datatype Rank = Rank(op: nat, phase: Phase)

  /** A write from one rank to another on behalf of an operation. */
  datatype Message = Message(sender: nat, receiver: nat, op: nat)

  /** `signals` holds the signal words that are 1, by receiver, slot and sender. */
  datatype State = State(
    ranks: seq<Rank>,
    source: Memory,
    recv: Memory,
    signals: set<(nat, nat, nat)>,
    dataWrites: set<Message>,
    signalWrites: set<Message>,
    results: map<(nat, nat), seq<Chunk>>)

  datatype Event =
    | Start(rank: nat)
    | Submit(rank: nat)
    | DeliverData(message: Message)
    | Signal(rank: nat)
    | DeliverSignal(message: Message)
    | Finish(rank: nat)
    | Collect(rank: nat)

  // ---- where data goes

  predicate Transfers(op: Op, r: nat) {
    match op
    case Broadcast(root) => r == root
    case Barrier => false
    case _ => true
  }

  function SourceChunk(op: Op, receiver: nat): nat {
    if op == Transpose then receiver else 0
  }

  function TargetChunk(op: Op, sender: nat): nat {
    if op.Broadcast? then 0 else sender
  }

  /** Chunk c of what rank r puts into operation t. */
  function Data(p: Program, r: nat, t: nat, c: nat): Chunk {
    seq(p.bytes(t), k requires 0 <= k < p.bytes(t) => p.data(r, t, c, k))
  }

  /** What sender r contributes to receiver j in operation t. */
  function Sent(p: Program, r: nat, j: nat, t: nat): Chunk {
    Data(p, r, t, SourceChunk(p.ops(t), j))
  }

  function Slot(t: nat): nat {
    t % 2
  }

  // ---- buffers

  /** Offset of byte k of chunk c, with chunks of b bytes. */
  function Offset(c: nat, b: nat, k: nat): nat {
    c * b + k
  }

  lemma OffsetsApart(b: nat, c: nat, k: nat, c': nat, k': nat)
    requires k < b && k' < b && Offset(c, b, k) == Offset(c', b, k')
    ensures c == c' && k == k'
  {
    if c < c' { OffsetsLess(b, c, k, c'); }
    if c' < c { OffsetsLess(b, c', k', c); }
  }

  lemma {:induction false} OffsetsLess(b: nat, c: nat, k: nat, c': nat)
    requires k < b && c < c'
    ensures Offset(c, b, k) < c' * b
    decreases c'
  {
    assert c' * b == (c' - 1) * b + b;
    if c + 1 < c' { OffsetsLess(b, c, k, c' - 1); }
  }

  const BUFFER_SIZE: nat := 16 * 1024 * 1024

  /** How many bytes of a tensor one operation takes at most: a multiple of 8. */
  function ChunkSize(size: nat): nat
    requires size > 0
  {
    (BUFFER_SIZE - 1) / size / 8 * 8
  }

  /** All chunks of an operation fit into a slot's buffer. */
  lemma ChunksFit(size: nat, b: nat, c: nat, k: nat)
    requires size > 0 && b <= ChunkSize(size) && c < size && k < b
    ensures Offset(c, b, k) < BUFFER_SIZE
  {
    OffsetsLess(b, c, k, size);
    var q := (BUFFER_SIZE - 1) / size;
    assert q * size <= BUFFER_SIZE - 1;
    assert size * b <= size * q by { assert size * (q - b) >= 0; }
  }

  function Byte(m: Memory, a: (nat, nat, nat)): nat {
    if a in m then m[a] else 0
  }

  function Read(m: Memory, r: nat, slot: nat, c: nat, b: nat): (chunk: Chunk)
    ensures |chunk| == b
  {
    seq(b, k requires 0 <= k < b => Byte(m, (r, slot, Offset(c, b, k))))
  }

  /** The first n bytes of the chunk written to its place. */
  function WriteTo(m: Memory, r: nat, slot: nat, c: nat, chunk: Chunk, n: nat): Memory
    requires n <= |chunk|
  {
    if n == 0 then m
    else WriteTo(m, r, slot, c, chunk, n - 1)[(r, slot, Offset(c, |chunk|, n - 1)) := chunk[n - 1]]
  }

  function Write(m: Memory, r: nat, slot: nat, c: nat, chunk: Chunk): Memory {
    WriteTo(m, r, slot, c, chunk, |chunk|)
  }

  lemma {:induction false} ByteWritten(m: Memory, r: nat, slot: nat, c: nat, chunk: Chunk, n: nat, k: nat)
    requires k < n <= |chunk|
    ensures Byte(WriteTo(m, r, slot, c, chunk, n), (r, slot, Offset(c, |chunk|, k))) == chunk[k]
  {
    if k < n - 1 { ByteWritten(m, r, slot, c, chunk, n - 1, k); }
  }

  lemma {:induction false} ByteKept(m: Memory, r: nat, slot: nat, c: nat, chunk: Chunk, n: nat, a: (nat, nat, nat))
    requires n <= |chunk| && (a.0 != r || a.1 != slot || forall k :: 0 <= k < |chunk| ==> a.2 != Offset(c, |chunk|, k))
    ensures Byte(WriteTo(m, r, slot, c, chunk, n), a) == Byte(m, a)
  {
    if n > 0 { ByteKept(m, r, slot, c, chunk, n - 1, a); }
  }

  lemma ReadWritten(m: Memory, r: nat, slot: nat, c: nat, chunk: Chunk)
    ensures Read(Write(m, r, slot, c, chunk), r, slot, c, |chunk|) == chunk
  {
    forall k | 0 <= k < |chunk| ensures Byte(Write(m, r, slot, c, chunk), (r, slot, Offset(c, |chunk|, k))) == chunk[k] {
      ByteWritten(m, r, slot, c, chunk, |chunk|, k);
    }
  }

  /** A write changes no other buffer, and no other chunk of the same size. */
  lemma ReadOther(m: Memory, r: nat, slot: nat, c: nat, chunk: Chunk, r': nat, slot': nat, c': nat, b: nat)
    requires r' != r || slot' != slot || (b == |chunk| && c' != c)
    ensures Read(Write(m, r, slot, c, chunk), r', slot', c', b) == Read(m, r', slot', c', b)
  {
    forall k | 0 <= k < b
      ensures Byte(Write(m, r, slot, c, chunk), (r', slot', Offset(c', b, k))) == Byte(m, (r', slot', Offset(c', b, k)))
    {
      if r' == r && slot' == slot {
        forall i | 0 <= i < |chunk| ensures Offset(c', b, k) != Offset(c, b, i) {
          if Offset(c', b, k) == Offset(c, b, i) { OffsetsApart(b, c, i, c', k); }
        }
      }
      ByteKept(m, r, slot, c, chunk, |chunk|, (r', slot', Offset(c', b, k)));
    }
  }

  lemma WriteReads(m: Memory, r: nat, slot: nat, c: nat, chunk: Chunk, r': nat, c': nat, b: nat)
    requires b == |chunk|
    ensures Read(Write(m, r, slot, c, chunk), r', slot, c', b) == if r' == r && c' == c then chunk else Read(m, r', slot, c', b)
  {
    if r' == r && c' == c { ReadWritten(m, r, slot, c, chunk); }
    else { ReadOther(m, r, slot, c, chunk, r', slot, c', b); }
  }

  /** The source buffer with the first n chunks of operation t loaded. */
  function Load(p: Program, m: Memory, r: nat, t: nat, n: nat): Memory {
    if n == 0 then m else Write(Load(p, m, r, t, n - 1), r, Slot(t), n - 1, Data(p, r, t, n - 1))
  }

  lemma {:induction false} LoadReads(p: Program, m: Memory, r: nat, t: nat, n: nat, c: nat)
    requires c < n
    ensures Read(Load(p, m, r, t, n), r, Slot(t), c, p.bytes(t)) == Data(p, r, t, c)
  {
    if c < n - 1 { LoadReads(p, m, r, t, n - 1, c); }
    WriteReads(Load(p, m, r, t, n - 1), r, Slot(t), n - 1, Data(p, r, t, n - 1), r, c, p.bytes(t));
  }

  lemma {:induction false} LoadOthers(p: Program, m: Memory, r: nat, t: nat, n: nat, r': nat, c: nat, slot: nat, b: nat)
    requires r' != r
    ensures Read(Load(p, m, r, t, n), r', slot, c, b) == Read(m, r', slot, c, b)
  {
    if n > 0 {
      LoadOthers(p, m, r, t, n - 1, r', c, slot, b);
      ReadOther(Load(p, m, r, t, n - 1), r, Slot(t), n - 1, Data(p, r, t, n - 1), r', slot, c, b);
    }
  }

  // ---- steps

  predicate Is(p: Program, s: State, r: nat, phase: Phase) {
    r < p.size == |s.ranks| && s.ranks[r].phase == phase
  }

  predicate Enabled(p: Program, s: State, e: Event) {
    match e
    case Start(r) => Is(p, s, r, Ready)
    case Submit(r) => Is(p, s, r, Loaded)
    case DeliverData(m) => m in s.dataWrites
    case Signal(r) => Is(p, s, r, Sending) && forall m :: m in s.dataWrites ==> m.sender != r
    case DeliverSignal(m) => m in s.signalWrites
    case Finish(r) => Is(p, s, r, Signaled) && forall j :: 0 <= j < p.size ==> (r, Slot(s.ranks[r].op), j) in s.signals
    case Collect(r) => Is(p, s, r, Done)
  }

  function ToAll(p: Program, r: nat, t: nat): set<Message> {
    set j | 0 <= j < p.size :: Message(r, j, t)
  }

  function Received(p: Program, s: State, r: nat): seq<Chunk>
    requires r < |s.ranks|
  {
    var t := s.ranks[r].op;
    seq(p.size, c requires 0 <= c < p.size => Read(s.recv, r, Slot(t), c, p.bytes(t)))
  }

  function Apply(p: Program, s: State, e: Event): State
    requires Enabled(p, s, e)
  {
    match e
    case Start(r) =>
      s.(source := Load(p, s.source, r, s.ranks[r].op, p.size), ranks := s.ranks[r := s.ranks[r].(phase := Loaded)])
    case Submit(r) =>
      var t := s.ranks[r].op;
      s.(dataWrites := if Transfers(p.ops(t), r) then s.dataWrites + ToAll(p, r, t) else s.dataWrites,
         ranks := s.ranks[r := s.ranks[r].(phase := Sending)])
    case DeliverData(m) =>
      var op := p.ops(m.op);
      s.(recv := Write(s.recv, m.receiver, Slot(m.op), TargetChunk(op, m.sender),
                       Read(s.source, m.sender, Slot(m.op), SourceChunk(op, m.receiver), p.bytes(m.op))),
         dataWrites := s.dataWrites - {m})
    case Signal(r) =>
      s.(signalWrites := s.signalWrites + ToAll(p, r, s.ranks[r].op),
         ranks := s.ranks[r := s.ranks[r].(phase := Signaled)])
    case DeliverSignal(m) =>
      s.(signals := s.signals + {(m.receiver, Slot(m.op), m.sender)}, signalWrites := s.signalWrites - {m})
    case Finish(r) =>
      var slot := Slot(s.ranks[r].op);
      s.(signals := (set x | x in s.signals && !(x.0 == r && x.1 == slot)),
         ranks := s.ranks[r := s.ranks[r].(phase := Done)])
    case Collect(r) =>
      var t := s.ranks[r].op;
      s.(results := s.results[(r, t) := Received(p, s, r)], ranks := s.ranks[r := Rank(t + 1, Ready)])
  }

  // ---- the invariant

  /** Rank r has sent its signals of operation t. */
  ghost predicate HasSignaled(ranks: seq<Rank>, r: nat, t: nat)
    requires r < |ranks|
  {
    ranks[r].op > t || (ranks[r].op == t && ranks[r].phase in {Signaled, Done})
  }

  /** Rank j is past waiting for signals of operation t. */
  ghost predicate HasFinished(ranks: seq<Rank>, j: nat, t: nat)
    requires j < |ranks|
  {
    ranks[j].op > t || (ranks[j].op == t && ranks[j].phase == Done)
  }

  /** No rank is ahead of one that has not signaled. */
  ghost predicate InStep(s: State) {
    forall r, j, t :: 0 <= r < |s.ranks| && 0 <= j < |s.ranks| && HasFinished(s.ranks, r, t) ==> HasSignaled(s.ranks, j, t)
  }

  /** Signals in flight are sent, not yet set and not yet consumed. */
  ghost predicate SignalWritesOk(s: State) {
    forall m :: m in s.signalWrites ==>
      && m.sender < |s.ranks| && m.receiver < |s.ranks|
      && HasSignaled(s.ranks, m.sender, m.op) && !HasFinished(s.ranks, m.receiver, m.op)
      && (m.receiver, Slot(m.op), m.sender) !in s.signals
  }

  /** No signal is lost: from being sent until it is consumed it is in flight or set. */
  ghost predicate NoneLost(s: State) {
    forall r, j, t :: 0 <= r < |s.ranks| && 0 <= j < |s.ranks| && HasSignaled(s.ranks, r, t) && !HasFinished(s.ranks, j, t) ==>
      Message(r, j, t) in s.signalWrites || (j, Slot(t), r) in s.signals
  }

  /** A signal that is set stands for the receiver's current operation or the next one. */
  ghost predicate SignalOk(s: State, x: (nat, nat, nat)) {
    && x.0 < |s.ranks| && x.2 < |s.ranks|
    && (x.1 == Slot(s.ranks[x.0].op) || x.1 == Slot(s.ranks[x.0].op + 1))
    && var t := if x.1 == Slot(s.ranks[x.0].op) then s.ranks[x.0].op else s.ranks[x.0].op + 1;
       HasSignaled(s.ranks, x.2, t) && !HasFinished(s.ranks, x.0, t)
  }

  ghost predicate DataWritesOk(p: Program, s: State) {
    forall m :: m in s.dataWrites ==>
      && m.sender < |s.ranks| && m.receiver < |s.ranks| && Transfers(p.ops(m.op), m.sender)
      && s.ranks[m.sender] == Rank(m.op, Sending)
  }

  /** A started operation's source is in place. */
  ghost predicate SourceOk(p: Program, s: State) {
    forall r, c :: 0 <= r < |s.ranks| && 0 <= c < p.size && s.ranks[r].phase != Ready ==>
      Read(s.source, r, Slot(s.ranks[r].op), c, p.bytes(s.ranks[r].op)) == Data(p, r, s.ranks[r].op, c)
  }

  /** The chunk of r for j in operation t has been delivered. */
  ghost predicate Delivered(p: Program, s: State, r: nat, j: nat, t: nat)
    requires r < |s.ranks|
  {
    && Transfers(p.ops(t), r)
    && (HasSignaled(s.ranks, r, t) || (s.ranks[r] == Rank(t, Sending) && Message(r, j, t) !in s.dataWrites))
  }

  /** A delivered chunk stays in place until its receiver has collected it. */
  ghost predicate RecvOk(p: Program, s: State) {
    forall r, j, t :: 0 <= r < |s.ranks| && 0 <= j < |s.ranks| && Delivered(p, s, r, j, t) && s.ranks[j].op <= t ==>
      Read(s.recv, j, Slot(t), TargetChunk(p.ops(t), r), p.bytes(t)) == Sent(p, r, j, t)
  }

  /** A collected result holds every contribution at its place. */
  ghost predicate Exact(p: Program, j: nat, t: nat, result: seq<Chunk>) {
    && |result| == p.size
    && forall r :: 0 <= r < p.size && Transfers(p.ops(t), r) ==> result[TargetChunk(p.ops(t), r)] == Sent(p, r, j, t)
  }

  ghost predicate SignalInv(s: State) {
    InStep(s) && SignalWritesOk(s) && NoneLost(s) && forall x :: x in s.signals ==> SignalOk(s, x)
  }

  ghost predicate DataInv(p: Program, s: State) {
    && DataWritesOk(p, s) && SourceOk(p, s) && RecvOk(p, s)
    && forall k :: k in s.results ==> Exact(p, k.0, k.1, s.results[k])
  }

  ghost predicate Inv(p: Program, s: State) {
    |s.ranks| == p.size && SignalInv(s) && DataInv(p, s)
  }

  // ---- steps keep the invariant

  lemma Skew(s: State, r: nat, j: nat)
    requires InStep(s) && r < |s.ranks| && j < |s.ranks|
    ensures s.ranks[r].op <= s.ranks[j].op + 1
  {
    if s.ranks[r].op > 0 {
      assert HasFinished(s.ranks, r, s.ranks[r].op - 1);
      assert HasSignaled(s.ranks, j, s.ranks[r].op - 1);
    }
  }

  /** Steps that move no rank past signaling or finishing, and touch no signal. */
  lemma SignalFrame(s: State, s': State)
    requires SignalInv(s) && |s'.ranks| == |s.ranks| && s'.signals == s.signals && s'.signalWrites == s.signalWrites
    requires forall r :: 0 <= r < |s.ranks| ==>
               s'.ranks[r].op == s.ranks[r].op &&
               (s'.ranks[r].phase == s.ranks[r].phase || {s.ranks[r].phase, s'.ranks[r].phase} !! {Signaled, Done})
    ensures SignalInv(s')
  {
    assert forall r, t :: 0 <= r < |s.ranks| ==> HasSignaled(s'.ranks, r, t) == HasSignaled(s.ranks, r, t);
    assert forall r, t :: 0 <= r < |s.ranks| ==> HasFinished(s'.ranks, r, t) == HasFinished(s.ranks, r, t);
    forall x | x in s'.signals ensures SignalOk(s', x) { assert SignalOk(s, x); }
  }

  lemma SignalSignals(p: Program, s: State, r: nat)
    requires SignalInv(s) && Enabled(p, s, Signal(r))
    ensures SignalInv(Apply(p, s, Signal(r)))
  {
    var s', t := Apply(p, s, Signal(r)), s.ranks[r].op;
    assert forall i, u :: 0 <= i < |s.ranks| ==> (HasSignaled(s'.ranks, i, u) <==> HasSignaled(s.ranks, i, u) || (i == r && u == t));
    assert forall i, u :: 0 <= i < |s.ranks| ==> HasFinished(s'.ranks, i, u) == HasFinished(s.ranks, i, u);
    forall j | 0 <= j < |s.ranks| ensures !HasFinished(s.ranks, j, t) {
      assert HasFinished(s.ranks, j, t) ==> HasSignaled(s.ranks, r, t);
    }
    forall x | x in s'.signals ensures SignalOk(s', x) && !(x.1 == Slot(t) && x.2 == r) {
      assert SignalOk(s, x);
      Skew(s, r, x.0);
    }
    forall j | 0 <= j < |s.ranks| ensures Message(r, j, t) in s'.signalWrites {}
  }

  /** A pending signal is for the receiver's current operation or the next, so its slot tells which. */
  lemma PendingSignal(s: State, m: Message)
    requires InStep(s) && SignalWritesOk(s) && m in s.signalWrites
    ensures s.ranks[m.receiver].op <= m.op <= s.ranks[m.receiver].op + 1
  {
    Skew(s, m.sender, m.receiver);
  }

  lemma DeliverSignals(p: Program, s: State, m: Message)
    requires SignalInv(s) && Enabled(p, s, DeliverSignal(m))
    ensures SignalInv(Apply(p, s, DeliverSignal(m)))
  {
    var s', j := Apply(p, s, DeliverSignal(m)), m.receiver;
    PendingSignal(s, m);
    forall n | n in s.signalWrites && n.receiver == j ensures Slot(n.op) == Slot(m.op) ==> n.op == m.op {
      PendingSignal(s, n);
    }
    forall x | x in s'.signals ensures SignalOk(s', x) {
      if x in s.signals { assert SignalOk(s, x); }
    }
  }

  /** Resetting the slot loses nothing: a signal of the operation after the next cannot be there yet. */
  lemma FinishSignals(p: Program, s: State, r: nat)
    requires SignalInv(s) && Enabled(p, s, Finish(r))
    ensures SignalInv(Apply(p, s, Finish(r)))
  {
    var s', t := Apply(p, s, Finish(r)), s.ranks[r].op;
    assert forall i, u :: 0 <= i < |s.ranks| ==> HasSignaled(s'.ranks, i, u) == HasSignaled(s.ranks, i, u);
    assert forall i, u :: 0 <= i < |s.ranks| ==> (HasFinished(s'.ranks, i, u) <==> HasFinished(s.ranks, i, u) || (i == r && u == t));
    forall j | 0 <= j < |s.ranks| ensures HasSignaled(s.ranks, j, t) && Message(j, r, t) !in s.signalWrites {
      assert SignalOk(s, (r, Slot(t), j));
    }
    forall j, u | 0 <= j < |s.ranks| && HasSignaled(s.ranks, j, u) && !HasFinished(s'.ranks, r, u) ensures u == t + 1 {
      Skew(s, j, r);
    }
    forall x | x in s'.signals ensures SignalOk(s', x) { assert SignalOk(s, x); }
  }

  lemma CollectSignals(p: Program, s: State, r: nat)
    requires SignalInv(s) && Enabled(p, s, Collect(r))
    ensures SignalInv(Apply(p, s, Collect(r)))
  {
    var s', t := Apply(p, s, Collect(r)), s.ranks[r].op;
    assert forall i, u :: 0 <= i < |s.ranks| ==> HasSignaled(s'.ranks, i, u) == HasSignaled(s.ranks, i, u);
    assert forall i, u :: 0 <= i < |s.ranks| ==> HasFinished(s'.ranks, i, u) == HasFinished(s.ranks, i, u);
    forall x | x in s'.signals ensures SignalOk(s', x) { assert SignalOk(s, x); }
  }

  lemma SignalStep(p: Program, s: State, e: Event)
    requires SignalInv(s) && Enabled(p, s, e)
    ensures SignalInv(Apply(p, s, e)) && |Apply(p, s, e).ranks| == |s.ranks|
  {
    match e
    case Signal(r) => SignalSignals(p, s, r);
    case DeliverSignal(m) => DeliverSignals(p, s, m);
    case Finish(r) => FinishSignals(p, s, r);
    case Collect(r) => CollectSignals(p, s, r);
    case _ => SignalFrame(s, Apply(p, s, e));
  }

  lemma StartData(p: Program, s: State, r: nat)
    requires Inv(p, s) && Enabled(p, s, Start(r))
    ensures DataInv(p, Apply(p, s, Start(r)))
  {
    var s' := Apply(p, s, Start(r));
    forall i, c | 0 <= i < |s'.ranks| && 0 <= c < p.size && s'.ranks[i].phase != Ready
      ensures Read(s'.source, i, Slot(s'.ranks[i].op), c, p.bytes(s'.ranks[i].op)) == Data(p, i, s'.ranks[i].op, c)
    {
      var t := s.ranks[i].op;
      if i == r { LoadReads(p, s.source, r, t, p.size, c); }
      else { LoadOthers(p, s.source, r, s.ranks[r].op, p.size, i, c, Slot(t), p.bytes(t)); }
    }
    assert forall i, j, t :: 0 <= i < |s.ranks| ==> Delivered(p, s', i, j, t) == Delivered(p, s, i, j, t);
  }

  lemma SubmitData(p: Program, s: State, r: nat)
    requires Inv(p, s) && Enabled(p, s, Submit(r))
    ensures DataInv(p, Apply(p, s, Submit(r)))
  {
    var s' := Apply(p, s, Submit(r));
    forall i, j, t | 0 <= i < |s.ranks| && 0 <= j < |s.ranks| && Delivered(p, s', i, j, t) ensures Delivered(p, s, i, j, t) {}
  }

  /** What is delivered into a slot and what is still to be collected from it belong to one operation. */
  lemma NoClash(p: Program, s: State, m: Message, r: nat, t: nat)
    requires |s.ranks| == p.size && InStep(s) && DataWritesOk(p, s) && m in s.dataWrites && r < |s.ranks|
    requires Delivered(p, s, r, m.receiver, t) && s.ranks[m.receiver].op <= t && Slot(m.op) == Slot(t)
    ensures m.op == t
  {
    Skew(s, m.sender, m.receiver);
    Skew(s, r, m.sender);
  }

  lemma TargetsApart(op: Op, r: nat, q: nat)
    requires Transfers(op, r) && Transfers(op, q) && r != q
    ensures TargetChunk(op, r) != TargetChunk(op, q)
  {
  }

  /** A delivery leaves alone what is still to be collected, and puts its own chunk in place. */
  lemma DeliverRecv(p: Program, s: State, m: Message)
    requires Inv(p, s) && Enabled(p, s, DeliverData(m))
    ensures RecvOk(p, Apply(p, s, DeliverData(m)))
  {
    var s' := Apply(p, s, DeliverData(m));
    var op, slot := p.ops(m.op), Slot(m.op);
    var target := TargetChunk(op, m.sender);
    var chunk := Read(s.source, m.sender, slot, SourceChunk(op, m.receiver), p.bytes(m.op));
    forall r, j, t | 0 <= r < |s.ranks| && 0 <= j < |s.ranks| && Delivered(p, s', r, j, t) && s'.ranks[j].op <= t
      ensures Read(s'.recv, j, Slot(t), TargetChunk(p.ops(t), r), p.bytes(t)) == Sent(p, r, j, t)
    {
      if Message(r, j, t) == m {
        assert chunk == Sent(p, r, j, t);
        ReadWritten(s.recv, j, slot, target, chunk);
      } else {
        assert Delivered(p, s, r, j, t);
        if j == m.receiver && slot == Slot(t) {
          NoClash(p, s, m, r, t);
          TargetsApart(op, m.sender, r);
        }
        ReadOther(s.recv, m.receiver, slot, target, chunk, j, Slot(t), TargetChunk(p.ops(t), r), p.bytes(t));
      }
    }
  }

  lemma SignalData(p: Program, s: State, r: nat)
    requires Inv(p, s) && Enabled(p, s, Signal(r))
    ensures DataInv(p, Apply(p, s, Signal(r)))
  {
    var s' := Apply(p, s, Signal(r));
    forall i, j, t | 0 <= i < |s.ranks| && 0 <= j < |s.ranks| && Delivered(p, s', i, j, t) ensures Delivered(p, s, i, j, t) {}
  }

  lemma FinishData(p: Program, s: State, r: nat)
    requires Inv(p, s) && Enabled(p, s, Finish(r))
    ensures DataInv(p, Apply(p, s, Finish(r)))
  {
    var s' := Apply(p, s, Finish(r));
    forall i, j, t | 0 <= i < |s.ranks| && 0 <= j < |s.ranks| && Delivered(p, s', i, j, t) ensures Delivered(p, s, i, j, t) {}
  }

  /** When a rank collects, every peer has signaled, so all contributions are in place. */
  lemma CollectExact(p: Program, s: State, j: nat)
    requires Inv(p, s) && Enabled(p, s, Collect(j))
    ensures Exact(p, j, s.ranks[j].op, Received(p, s, j))
  {
    var t := s.ranks[j].op;
    assert HasFinished(s.ranks, j, t);
    forall r | 0 <= r < p.size && Transfers(p.ops(t), r)
      ensures TargetChunk(p.ops(t), r) < p.size && Received(p, s, j)[TargetChunk(p.ops(t), r)] == Sent(p, r, j, t)
    {
      assert HasSignaled(s.ranks, r, t) && Delivered(p, s, r, j, t);
    }
  }

  lemma CollectData(p: Program, s: State, j: nat)
    requires Inv(p, s) && Enabled(p, s, Collect(j))
    ensures DataInv(p, Apply(p, s, Collect(j)))
  {
    var s' := Apply(p, s, Collect(j));
    CollectExact(p, s, j);
    forall i, k, t | 0 <= i < |s.ranks| && 0 <= k < |s.ranks| && Delivered(p, s', i, k, t) ensures Delivered(p, s, i, k, t) {}
  }

  lemma StepInv(p: Program, s: State, e: Event)
    requires Inv(p, s) && Enabled(p, s, e)
    ensures Inv(p, Apply(p, s, e))
  {
    SignalStep(p, s, e);
    match e
    case Start(r) => StartData(p, s, r);
    case Submit(r) => SubmitData(p, s, r);
    case DeliverData(m) => DeliverRecv(p, s, m);
    case Signal(r) => SignalData(p, s, r);
    case DeliverSignal(_) =>
    case Finish(r) => FinishData(p, s, r);
    case Collect(r) => CollectData(p, s, r);
  }

  // ---- runs

  predicate Initial(p: Program, s: State) {
    && |s.ranks| == p.size && (forall r :: 0 <= r < p.size ==> s.ranks[r] == Rank(0, Ready))
    && s.signals == {} && s.dataWrites == {} && s.signalWrites == {} && s.results == map[]
  }

  ghost predicate Run(p: Program, s: State, es: seq<Event>, s': State)
    decreases |es|
  {
    if es == [] then s' == s
    else Enabled(p, s, es[0]) && Run(p, Apply(p, s, es[0]), es[1..], s')
  }

  lemma {:induction false} RunInv(p: Program, s: State, es: seq<Event>, s': State)
    requires Inv(p, s) && Run(p, s, es, s')
    ensures Inv(p, s')
    decreases |es|
  {
    if es != [] {
      StepInv(p, s, es[0]);
      RunInv(p, Apply(p, s, es[0]), es[1..], s');
    }
  }

  lemma InitialInv(p: Program, s: State)
    requires Initial(p, s)
    ensures Inv(p, s)
  {
  }

  lemma ExactMeans(p: Program, j: nat, t: nat, result: seq<Chunk>)
    requires Exact(p, j, t, result)
    ensures p.ops(t) == Gather ==> forall r :: 0 <= r < p.size ==> result[r] == Data(p, r, t, 0)
    ensures p.ops(t) == Transpose ==> forall r :: 0 <= r < p.size ==> result[r] == Data(p, r, t, j)
    ensures p.ops(t).Broadcast? && p.ops(t).root < p.size ==> result[0] == Data(p, p.ops(t).root, t, 0)
  {
    forall r | 0 <= r < p.size && p.ops(t) in {Gather, Transpose} ensures result[r] == Sent(p, r, j, t) {
      assert Transfers(p.ops(t), r);
    }
    assert p.ops(t).Broadcast? ==> Transfers(p.ops(t), p.ops(t).root);
  }

  /** Whatever a rank has collected of operation t is exactly what the operation is for, in every interleaving. */
  lemma CollectivesExact(p: Program, s0: State, es: seq<Event>, s: State, j: nat, t: nat)
    requires Initial(p, s0) && Run(p, s0, es, s) && (j, t) in s.results
    ensures |s.results[(j, t)]| == p.size
    ensures p.ops(t) == Gather ==> forall r :: 0 <= r < p.size ==> s.results[(j, t)][r] == Data(p, r, t, 0)
    ensures p.ops(t) == Transpose ==> forall r :: 0 <= r < p.size ==> s.results[(j, t)][r] == Data(p, r, t, j)
    ensures p.ops(t).Broadcast? && p.ops(t).root < p.size ==> s.results[(j, t)][0] == Data(p, p.ops(t).root, t, 0)
  {
    InitialInv(p, s0);
    RunInv(p, s0, es, s);
    ExactMeans(p, j, t, s.results[(j, t)]);
  }

  // ---- progress

  /** A rank that has not signaled can move, or one of its data writes can be delivered. */
  lemma CanMove(p: Program, s: State, r: nat) returns (e: Event)
    requires r < p.size == |s.ranks| && s.ranks[r].phase != Signaled
    ensures Enabled(p, s, e) && (e.Start? ==> e.rank == r)
  {
    match s.ranks[r].phase
    case Ready => e := Start(r);
    case Loaded => e := Submit(r);
    case Sending =>
      if m :| m in s.dataWrites && m.sender == r {
        e := DeliverData(m);
      } else {
        e := Signal(r);
      }
    case Done => e := Collect(r);
  }

  lemma {:induction false} Slowest(ranks: seq<Rank>) returns (j: nat)
    requires ranks != []
    ensures j < |ranks| && forall r :: 0 <= r < |ranks| ==> ranks[j].op <= ranks[r].op
  {
    if |ranks| == 1 {
      j := 0;
    } else {
      var k := Slowest(ranks[1..]);
      j := if ranks[0].op <= ranks[1..][k].op then 0 else k + 1;
      assert forall r :: 0 < r < |ranks| ==> ranks[r] == ranks[1..][r - 1];
    }
  }

  /** No signal is lost, so ranks that have operations left to do never wait for each other in vain. */
  lemma NoDeadlock(p: Program, s0: State, es: seq<Event>, s: State, limit: nat, behind: nat) returns (e: Event)
    requires Initial(p, s0) && Run(p, s0, es, s) && behind < |s.ranks| && s.ranks[behind].op < limit
    ensures Enabled(p, s, e) && (e.Start? ==> s.ranks[e.rank].op < limit)
  {
    InitialInv(p, s0);
    RunInv(p, s0, es, s);
    var j := Slowest(s.ranks);
    var t := s.ranks[j].op;
    if s.ranks[j].phase != Signaled {
      e := CanMove(p, s, j);
    } else if m :| m in s.signalWrites && m.receiver == j {
      e := DeliverSignal(m);
    } else if i :| 0 <= i < p.size && !HasSignaled(s.ranks, i, t) {
      e := CanMove(p, s, i);
    } else {
      e := Finish(j);
    }
  }
}
