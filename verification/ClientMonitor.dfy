/**
  Client liveness: mounts, remounts and pings push client ids into a queue, the
  monitor thread drains the queue into its table of deadlines, and takes the
  segments of clients whose deadline has passed. Steps are delimited by the
  client mutex, the segment mutex and the lock-free queue.
*/
module ClientMonitor {
  type Client = nat
  type Segment = nat

  /** A mounted segment; `owner` is the client that mounted it. */
  datatype Mounted = Mounted(owner: Client, ok: bool)

  /** What a mount request asks for; `valid` tells whether an allocator can be made for it. */
  datatype Wanted = Wanted(segment: Segment, valid: bool)

  /** Holder of the segment mutex that has pushed its ping and is about to mount. A remount also holds the client mutex. */
  datatype Holder = Nobody | Mounting(client: Client, wanted: seq<Wanted>, remount: bool)

  /** Where the monitor thread is in its loop. In `Dropped` it holds the client mutex. */
  datatype Monitor =
    | Polling(now: nat)
    | Expired(batch: set<Client>)
    | Dropped(batch: set<Client>)
    | Unmounting(targets: set<(Segment, Client)>)

  datatype State = State(
    queue: seq<Client>,
    deadlines: map<Client, nat>,
    okClients: set<Client>,
    activeClients: int,
    mounted: map<Segment, Mounted>,
    segmentsOf: map<Client, seq<Segment>>,
    holder: Holder,
    monitor: Monitor,
    unmounts: set<(nat, Segment)>)

  datatype Event =
    | Ping(client: Client)
    | MountBegin(client: Client, wanted: Wanted)
    | RemountBegin(client: Client, segments: seq<Wanted>)
    | MountEnd
    | LoopBegin(now: nat)
    | Drain
    | Expire
    | DropClients
    | PrepareExpired(targets: set<(Segment, Client)>)
    | CommitExpired(target: (Segment, Client))
    | PrepareUnmount(thread: nat, segment: Segment)
    | CommitUnmount(thread: nat, segment: Segment, client: Client)

  // ---- segment bookkeeping

  function Lists(m: map<Client, seq<Segment>>, c: Client): seq<Segment> {
    if c in m then m[c] else []
  }

  function WithoutFirst(l: seq<Segment>, x: Segment): (r: seq<Segment>)
    ensures forall y :: y in l && y != x ==> y in r
  {
    if l == [] then [] else
      assert l == [l[0]] + l[1..];
      if l[0] == x then l[1..] else [l[0]] + WithoutFirst(l[1..], x)
  }

  /** MountSegment: an already mounted or unusable segment changes nothing. */
  function MountOne(s: State, c: Client, w: Wanted): State {
    if !w.valid || w.segment in s.mounted then s
    else s.(mounted := s.mounted[w.segment := Mounted(c, true)],
            segmentsOf := s.segmentsOf[c := Lists(s.segmentsOf, c) + [w.segment]])
  }

  /** A segment that is being unmounted cannot be mounted yet. */
  predicate Unavailable(s: State, w: Wanted) {
    w.valid && w.segment in s.mounted && !s.mounted[w.segment].ok
  }

  /** ReMountSegment: mount one after the other, giving up at the first that is unavailable. */
  function MountAll(s: State, c: Client, ws: seq<Wanted>): (State, bool)
    decreases |ws|
  {
    if ws == [] then (s, true)
    else if Unavailable(s, ws[0]) then (s, false)
    else MountAll(MountOne(s, c, ws[0]), c, ws[1..])
  }

  /** CommitUnmountSegment. */
  function Commit(s: State, x: Segment, c: Client): State {
    s.(mounted := s.mounted - {x},
       segmentsOf := if c in s.segmentsOf then s.segmentsOf[c := WithoutFirst(s.segmentsOf[c], x)] else s.segmentsOf)
  }

  // ---- steps

  predicate ClientMutexFree(s: State) {
    !s.monitor.Dropped? && !(s.holder.Mounting? && s.holder.remount)
  }

  /** Segments of expired clients that the monitor can take. */
  predicate Takeable(s: State, batch: set<Client>, x: Segment, c: Client) {
    c in batch && x in Lists(s.segmentsOf, c) && x in s.mounted && s.mounted[x].ok
  }

  predicate Enabled(s: State, e: Event) {
    match e
    case Ping(_) => ClientMutexFree(s)
    case MountBegin(_, _) => s.holder == Nobody
    case RemountBegin(c, _) => s.holder == Nobody && ClientMutexFree(s) && c !in s.okClients
    case MountEnd => s.holder != Nobody
    case LoopBegin(_) => s.monitor.Polling? || s.monitor == Expired({}) || s.monitor == Unmounting({})
    case Drain => s.monitor.Polling? && s.queue != []
    case Expire => s.monitor.Polling?
    case DropClients => s.monitor.Expired? && ClientMutexFree(s)
    case PrepareExpired(ts) =>
      && s.monitor.Dropped? && s.holder == Nobody
      && (forall p :: p in ts ==> Takeable(s, s.monitor.batch, p.0, p.1))
      && (forall p, q :: p in ts && q in ts && p.0 == q.0 ==> p == q)
      && (forall c, x :: c in s.monitor.batch && x in Lists(s.segmentsOf, c) && Takeable(s, s.monitor.batch, x, c) ==>
            exists p :: p in ts && p.0 == x)
    case CommitExpired(p) => s.monitor.Unmounting? && s.holder == Nobody && p in s.monitor.targets
    case PrepareUnmount(_, x) => s.holder == Nobody && x in s.mounted && s.mounted[x].ok
    case CommitUnmount(t, x, _) => s.holder == Nobody && (t, x) in s.unmounts
  }

  function Late(deadlines: map<Client, nat>, now: nat): set<Client> {
    set c | c in deadlines && deadlines[c] < now
  }

  /** The monitor adds `ttl` to the time its loop began. */
  function Apply(ttl: nat, s: State, e: Event): State
    requires Enabled(s, e)
  {
    match e
    case Ping(c) => s.(queue := s.queue + [c])
    case MountBegin(c, w) => s.(queue := s.queue + [c], holder := Mounting(c, [w], false))
    case RemountBegin(c, ws) => s.(queue := s.queue + [c], holder := Mounting(c, ws, true))
    case MountEnd => Ended(s)
    case LoopBegin(now) => s.(monitor := Polling(now))
    case Drain => s.(queue := s.queue[1..], deadlines := s.deadlines[s.queue[0] := s.monitor.now + ttl])
    case Expire =>
      var late := Late(s.deadlines, s.monitor.now);
      s.(deadlines := s.deadlines - late, monitor := Expired(late))
    case DropClients =>
      s.(okClients := s.okClients - s.monitor.batch,
         activeClients := s.activeClients - |s.okClients * s.monitor.batch|,
         monitor := Dropped(s.monitor.batch))
    case PrepareExpired(ts) => s.(mounted := Taken(s.mounted, set p | p in ts :: p.0), monitor := Unmounting(ts))
    case CommitExpired(p) => Commit(s, p.0, p.1).(monitor := Unmounting(s.monitor.targets - {p}))
    case PrepareUnmount(t, x) => s.(mounted := Taken(s.mounted, {x}), unmounts := s.unmounts + {(t, x)})
    case CommitUnmount(t, x, c) => Commit(s, x, c).(unmounts := s.unmounts - {(t, x)})
  }

  /** The prepare phase for some segments. */
  function Taken(mounted: map<Segment, Mounted>, xs: set<Segment>): map<Segment, Mounted> {
    map x | x in mounted :: if x in xs then mounted[x].(ok := false) else mounted[x]
  }

  function Ended(s: State): State
    requires s.holder != Nobody
  {
    var c, ws := s.holder.client, s.holder.wanted;
    if !s.holder.remount then
      if ws == [] then s.(holder := Nobody) else MountOne(s, c, ws[0]).(holder := Nobody)
    else
      var (s', done) := MountAll(s, c, ws);
      if done then s'.(okClients := s.okClients + {c}, activeClients := s.activeClients + 1, holder := Nobody)
      else s'.(holder := Nobody)
  }

  // ---- nobody escapes

  /** The monitor will see this client again. */
  ghost predicate Watched(s: State, c: Client) {
    c in s.queue || c in s.deadlines || ((s.monitor.Expired? || s.monitor.Dropped?) && c in s.monitor.batch)
  }

  /** Every client that is OK or owns a segment in use is watched, and so is one about to become so. */
  ghost predicate Covered(s: State) {
    && (forall c :: c in s.okClients ==> Watched(s, c))
    && (forall x :: x in s.mounted && s.mounted[x].ok ==> Watched(s, s.mounted[x].owner))
    && (s.holder != Nobody ==> Watched(s, s.holder.client))
  }

  /** A segment in use is listed under its owner. */
  ghost predicate Listed(s: State) {
    forall x :: x in s.mounted && s.mounted[x].ok ==> x in Lists(s.segmentsOf, s.mounted[x].owner)
  }

  ghost predicate Inv(s: State) {
    && Covered(s) && Listed(s) && s.activeClients == |s.okClients|
    && (s.monitor.Dropped? ==> s.monitor.batch !! s.okClients)
    && (s.holder.Mounting? && s.holder.remount ==> s.holder.client !in s.okClients && !s.monitor.Dropped?)
  }

  lemma MountOneInv(s: State, c: Client, w: Wanted)
    requires Covered(s) && Listed(s) && Watched(s, c)
    ensures var s' := MountOne(s, c, w);
            Covered(s') && Listed(s') && s' == s.(mounted := s'.mounted, segmentsOf := s'.segmentsOf)
  {
  }

  lemma {:induction false} MountAllInv(s: State, c: Client, ws: seq<Wanted>)
    requires Covered(s) && Listed(s) && Watched(s, c)
    ensures var s' := MountAll(s, c, ws).0;
            Covered(s') && Listed(s') && s' == s.(mounted := s'.mounted, segmentsOf := s'.segmentsOf)
    decreases |ws|
  {
    if ws != [] && !Unavailable(s, ws[0]) {
      MountOneInv(s, c, ws[0]);
      MountAllInv(MountOne(s, c, ws[0]), c, ws[1..]);
    }
  }

  /** Releasing the mutex after mounting, with the client's status set to OK if a remount got through. */
  lemma ReleaseInv(s: State, s': State, ok: bool)
    requires Inv(s) && s.holder != Nobody && Covered(s') && Listed(s')
    requires s' == s.(mounted := s'.mounted, segmentsOf := s'.segmentsOf) && (ok ==> s.holder.remount)
    ensures Inv(s'.(holder := Nobody))
    ensures ok ==> Inv(s'.(okClients := s.okClients + {s.holder.client}, activeClients := s.activeClients + 1, holder := Nobody))
  {
  }

  lemma EndInv(s: State)
    requires Inv(s) && s.holder != Nobody
    ensures Inv(Ended(s))
  {
    var c, ws := s.holder.client, s.holder.wanted;
    if s.holder.remount {
      MountAllInv(s, c, ws);
      ReleaseInv(s, MountAll(s, c, ws).0, true);
    } else if ws == [] {
      ReleaseInv(s, s, false);
    } else {
      MountOneInv(s, c, ws[0]);
      ReleaseInv(s, MountOne(s, c, ws[0]), false);
    }
  }

  /** Draining moves a client from the queue to the table. */
  lemma DrainInv(ttl: nat, s: State)
    requires Inv(s) && Enabled(s, Drain)
    ensures Inv(Apply(ttl, s, Drain))
  {
  }

  lemma ExpireInv(ttl: nat, s: State)
    requires Inv(s) && Enabled(s, Expire)
    ensures Inv(Apply(ttl, s, Expire))
  {
  }

  lemma DropInv(ttl: nat, s: State)
    requires Inv(s) && Enabled(s, DropClients)
    ensures Inv(Apply(ttl, s, DropClients))
  {
  }

  /** After the prepare phase the clients of the batch have nothing left to watch. */
  lemma PrepareInv(ttl: nat, s: State, e: Event)
    requires Inv(s) && Enabled(s, e) && e.PrepareExpired?
    ensures Inv(Apply(ttl, s, e))
    ensures var s' := Apply(ttl, s, e);
            forall c :: c in s.monitor.batch ==>
              c !in s'.okClients && forall x :: x in s'.mounted && s'.mounted[x].ok ==> s'.mounted[x].owner != c
  {
  }

  lemma CommitInv(s: State, s': State, x: Segment, c: Client)
    requires Inv(s) && s' == Commit(s, x, c).(monitor := s'.monitor, unmounts := s'.unmounts)
    requires s'.monitor == s.monitor || (s.monitor.Unmounting? && s'.monitor.Unmounting?)
    ensures Inv(s')
  {
  }

  lemma StepInv(ttl: nat, s: State, e: Event)
    requires Inv(s) && Enabled(s, e)
    ensures Inv(Apply(ttl, s, e))
  {
    match e
    case MountEnd => EndInv(s);
    case Drain => DrainInv(ttl, s);
    case Expire => ExpireInv(ttl, s);
    case DropClients => DropInv(ttl, s);
    case PrepareExpired(_) => PrepareInv(ttl, s, e);
    case CommitExpired(p) => CommitInv(s, Apply(ttl, s, e), p.0, p.1);
    case CommitUnmount(_, x, c) => CommitInv(s, Apply(ttl, s, e), x, c);
    case _ => assert forall c :: Watched(s, c) ==> Watched(Apply(ttl, s, e), c);
  }

  // ---- runs

  predicate Initial(s: State) {
    s == State([], map[], {}, 0, map[], map[], Nobody, Polling(0), {})
  }

  ghost predicate Run(ttl: nat, s: State, es: seq<Event>, s': State)
    decreases |es|
  {
    if es == [] then s' == s
    else Enabled(s, es[0]) && Run(ttl, Apply(ttl, s, es[0]), es[1..], s')
  }

  lemma {:induction false} RunInv(ttl: nat, s: State, es: seq<Event>, s': State)
    requires Inv(s) && Run(ttl, s, es, s')
    ensures Inv(s')
    decreases |es|
  {
    if es != [] {
      StepInv(ttl, s, es[0]);
      RunInv(ttl, Apply(ttl, s, es[0]), es[1..], s');
    }
  }

  /** In every reachable state: whoever is OK or owns a usable segment is watched, and the gauge counts the OK clients. */
  lemma NobodyEscapes(ttl: nat, s0: State, es: seq<Event>, s: State)
    requires Initial(s0) && Run(ttl, s0, es, s)
    ensures forall c :: c in s.okClients ==> Watched(s, c)
    ensures forall x :: x in s.mounted && s.mounted[x].ok ==> Watched(s, s.mounted[x].owner)
    ensures s.activeClients == |s.okClients|
  {
    RunInv(ttl, s0, es, s);
  }

  /** And once the monitor has prepared a batch, none of its clients is OK or owns a usable segment. */
  lemma ExpiredLoseAll(ttl: nat, s0: State, es: seq<Event>, s: State, e: Event, c: Client)
    requires Initial(s0) && Run(ttl, s0, es, s) && Enabled(s, e) && e.PrepareExpired? && c in s.monitor.batch
    ensures var s' := Apply(ttl, s, e);
            c !in s'.okClients && forall x :: x in s'.mounted && s'.mounted[x].ok ==> s'.mounted[x].owner != c
  {
    RunInv(ttl, s0, es, s);
    PrepareInv(ttl, s, e);
  }

  // ---- whoever stays silent goes

  /** The client is OK or owns a segment in use. */
  ghost predicate Active(s: State, c: Client) {
    c in s.okClients || exists x :: x in s.mounted && s.mounted[x].ok && s.mounted[x].owner == c
  }

  /** Once the queue is drained every active client has a deadline, and is taken if and only if that has passed. */
  lemma DrainedHaveDeadlines(ttl: nat, s0: State, es: seq<Event>, s: State, c: Client)
    requires Initial(s0) && Run(ttl, s0, es, s) && s.monitor.Polling? && s.queue == [] && Active(s, c)
    ensures c in s.deadlines && Enabled(s, Expire)
    ensures c in Apply(ttl, s, Expire).monitor.batch <==> s.deadlines[c] < s.monitor.now
  {
    RunInv(ttl, s0, es, s);
  }

  /** The batch is with the monitor until its segments are taken. */
  ghost predicate InBatch(s: State, c: Client) {
    (s.monitor.Expired? || s.monitor.Dropped?) && c in s.monitor.batch
  }

  lemma {:induction false} BatchRun(ttl: nat, s: State, es: seq<Event>, s': State, c: Client)
    requires Run(ttl, s, es, s') && InBatch(s, c) && forall i :: 0 <= i < |es| ==> !es[i].PrepareExpired?
    ensures InBatch(s', c)
    decreases |es|
  {
    if es != [] {
      if es[0].MountEnd? { MountAllFrame(s, s.holder.client, s.holder.wanted); }
      BatchRun(ttl, Apply(ttl, s, es[0]), es[1..], s', c);
    }
  }

  lemma {:induction false} RunThrough(ttl: nat, s: State, a: seq<Event>, s1: State, b: seq<Event>, s2: State)
    requires Run(ttl, s, a, s1) && Run(ttl, s1, b, s2)
    ensures Run(ttl, s, a + b, s2)
    decreases |a|
  {
    if a == [] {
      assert a + b == b;
    } else {
      assert (a + b)[1..] == a[1..] + b;
      RunThrough(ttl, Apply(ttl, s, a[0]), a[1..], s1, b, s2);
    }
  }

  /** An active client whose deadline has passed loses its status and all its segments, whatever happens meanwhile. */
  lemma SilentLoseAll(ttl: nat, s0: State, es: seq<Event>, s: State, c: Client, meanwhile: seq<Event>, s1: State, e: Event)
    requires Initial(s0) && Run(ttl, s0, es, s) && s.monitor.Polling? && s.queue == [] && Active(s, c)
    requires c in s.deadlines && s.deadlines[c] < s.monitor.now
    requires Run(ttl, Apply(ttl, s, Expire), meanwhile, s1) && forall i :: 0 <= i < |meanwhile| ==> !meanwhile[i].PrepareExpired?
    requires Enabled(s1, e) && e.PrepareExpired?
    ensures !Active(Apply(ttl, s1, e), c)
  {
    BatchRun(ttl, Apply(ttl, s, Expire), meanwhile, s1, c);
    assert Run(ttl, s, [Expire] + meanwhile, s1) by { assert ([Expire] + meanwhile)[1..] == meanwhile; }
    RunThrough(ttl, s0, es, s, [Expire] + meanwhile, s1);
    ExpiredLoseAll(ttl, s0, es + ([Expire] + meanwhile), s1, e, c);
  }

  // ---- whoever pings in time stays

  /** Until time t the monitor cannot expire this client. */
  ghost predicate Safe(s: State, c: Client, t: nat) {
    && c in s.deadlines && s.deadlines[c] >= t && (s.monitor.Polling? ==> s.monitor.now <= t)
    && (s.monitor.Expired? || s.monitor.Dropped? ==> c !in s.monitor.batch)
  }

  /** The monitor's loops begin at times from p to p + ttl. */
  ghost predicate Between(es: seq<Event>, p: nat, ttl: nat) {
    forall i :: 0 <= i < |es| && es[i].LoopBegin? ==> p <= es[i].now <= p + ttl
  }

  lemma {:induction false} MountAllFrame(s: State, c: Client, ws: seq<Wanted>)
    ensures var s' := MountAll(s, c, ws).0; s' == s.(mounted := s'.mounted, segmentsOf := s'.segmentsOf)
    decreases |ws|
  {
    if ws != [] && !Unavailable(s, ws[0]) { MountAllFrame(MountOne(s, c, ws[0]), c, ws[1..]); }
  }

  lemma SafeStep(ttl: nat, s: State, e: Event, c: Client, p: nat)
    requires Enabled(s, e) && Safe(s, c, p + ttl) && (s.monitor.Polling? ==> p <= s.monitor.now)
    requires e.LoopBegin? ==> p <= e.now <= p + ttl
    ensures var s' := Apply(ttl, s, e);
            && Safe(s', c, p + ttl) && (s'.monitor.Polling? ==> p <= s'.monitor.now)
            && (c in s.okClients ==> c in s'.okClients)
  {
    if e.MountEnd? { MountAllFrame(s, s.holder.client, s.holder.wanted); }
  }

  lemma {:induction false} SafeRun(ttl: nat, s: State, es: seq<Event>, s': State, c: Client, p: nat)
    requires Run(ttl, s, es, s') && Between(es, p, ttl) && Safe(s, c, p + ttl) && (s.monitor.Polling? ==> p <= s.monitor.now)
    ensures Safe(s', c, p + ttl) && (c in s.okClients ==> c in s'.okClients)
    decreases |es|
  {
    if es != [] {
      SafeStep(ttl, s, es[0], c, p);
      SafeRun(ttl, Apply(ttl, s, es[0]), es[1..], s', c, p);
    }
  }

  /** A client whose ping was drained at time p is not expired by any loop that begins up to p + ttl. */
  lemma PingKeepsAlive(ttl: nat, s: State, es: seq<Event>, s': State)
    requires Enabled(s, Drain) && Run(ttl, Apply(ttl, s, Drain), es, s') && Between(es, s.monitor.now, ttl)
    ensures var c := s.queue[0];
            && (s'.monitor.Expired? || s'.monitor.Dropped? ==> c !in s'.monitor.batch)
            && (c in s.okClients ==> c in s'.okClients)
  {
    SafeRun(ttl, Apply(ttl, s, Drain), es, s', s.queue[0], s.monitor.now);
  }
}
