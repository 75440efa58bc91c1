/**
 The generation protocol: change readers, event persistors, workers and the
 generation driver interleave over shared metadata, and the process may crash
 and restart at any moment.

 A state holds what the metadata cluster stores (it survives a crash), what the
 process holds in memory (a crash resets it), the clusters' event logs, and a
 few history variables that no guard reads. A run is any sequence of enabled
 actions. Every action is one atomic step of the source: one server request,
 one channel operation, or one update made under the verifier's mutex.
 */
module RecheckProtocol {
  import opened Bson

  /** A document, named by its source namespace and `_id`. */
  type DocId = int

  /** The events `start..end` of a cluster's log; `end` doubles as the batch's resume token. */
  datatype Batch = Batch(start: nat, end: nat)

  /** One cluster's change reader and event persistor. */
  datatype ChangeHandling = ChangeHandling(
    log: seq<DocId>,        // every watched event, in order (the cluster's own state)
    token: nat,             // stored: the persisted resume token
    read: nat,              // the reader's position
    chan: seq<Batch>,       // batches the persistor has not finished
    locked: bool,           // the persistor is inserting the head batch, under the read lock
    remaining: set<nat>,    // that batch's events not yet inserted
    lastEnd: nat,           // resume token of the last batch persisted
    fence: Option<nat>,     // how many events precede the writes-off time
    signalled: bool,        // the reader has been given the writes-off time
    closed: bool,           // the reader has stopped and closed its channel
    finished: bool,         // the persistor has drained the closed channel
    handled: nat            // history: every earlier event has been enqueued
  )

  /** Both clusters' change handling. */
  datatype Clusters = Clusters(src: ChangeHandling, dst: ChangeHandling) {
    function Get(c: Cluster): ChangeHandling { if c == Src then src else dst }

    function Set(c: Cluster, h: ChangeHandling): (r: Clusters)
      ensures r.Get(c) == h
      ensures forall d: Cluster :: d != c ==> r.Get(d) == Get(d)
    {
      if c == Src then this.(src := h) else this.(dst := h)
    }
  }

  datatype RecheckStatus = RAdded | RProcessing | RCompleted

  /** A document task's status. `seenSrc` and `seenDst` record how many events each
      cluster had at the time the task was claimed, i.e. before any of its reads. */
  datatype DocStatus =
    | Added
    | Processing(seenSrc: nat, seenDst: nat, sent: set<DocId>)
    | Done(seenSrc: nat, seenDst: nat, mismatched: set<DocId>, suppressed: bool)

  datatype DocTask = DocTask(gen: nat, ids: set<DocId>, status: DocStatus)

  /** The worker that turns a recheck queue into document tasks. */
  datatype Builder =
    | NoBuilder
    | Claimed
    | Building(snap: set<DocId>, todo: set<DocId>)
    | Dropping

  /** Where the generation driver stands. In `Bumped` and `Ensured` it holds the write lock. */
  datatype Phase = Working | Between | Bumped | Ensured | Returned

  /** History: event `i` of cluster `c` was put into the queue of generation `k`. */
  datatype Enqueued = Enqueued(c: Cluster, i: nat, k: nat)

  datatype State = State(
    clusters: Clusters,
    // stored
    pgen: nat,
    recheck: map<nat, RecheckStatus>,
    docs: map<nat, DocTask>,
    queue: map<nat, set<DocId>>,
    // in memory
    gen: nat,
    last: bool,
    writesOff: bool,
    phase: Phase,
    builder: Builder,
    // history
    ever: map<nat, set<DocId>>,
    enqueued: set<Enqueued>,
    crashedInLast: bool
  ) {
    predicate Unlocked() { phase == Working || phase == Between }
  }

  /** The ids of generation `k` in a queue collection (an absent collection is empty). */
  function Q(m: map<nat, set<DocId>>, k: nat): set<DocId> { if k in m then m[k] else {} }

  function Put(m: map<nat, set<DocId>>, k: nat, v: set<DocId>): (r: map<nat, set<DocId>>)
    ensures Q(r, k) == v
    ensures forall j: nat :: j != k ==> Q(r, j) == Q(m, j)
  {
    m[k := v]
  }

  function Seen(st: DocStatus, c: Cluster): nat
    requires !st.Added?
  {
    if c == Src then st.seenSrc else st.seenDst
  }

  /** Steps of one cluster's reader and persistor that touch nothing else. */
  datatype LocalAction =
    | Event(id: DocId)
    | ReadBatch(end: nat)
    | Reopen
    | StartInsert
    | FinishInsert
    | PersistToken
    | Signal
    | CloseReader
    | FinishPersistor

  datatype Action =
    | Local(c: Cluster, step: LocalAction)
    | InsertOne(c: Cluster, i: nat)
    | WritesOff
    | ClaimRecheckTask
    | ReadQueue
    | InsertDocTask(key: nat, ids: set<DocId>)
    | CompleteRecheckTask
    | DropQueue(ok: bool)
    | ClaimDocTask(key: nat)
    | EnqueueMismatch(key: nat, id: DocId)
    | FinishDocTask(key: nat, mismatched: set<DocId>)
    | EndGeneration
    | Bump
    | EnsureRecheckTask
    | PersistGeneration
    | Return
    | CrashAndRestart

  predicate HasProcessing(s: State, key: nat) { key in s.docs && s.docs[key].status.Processing? }

  /** No task of the current generation is Added or Processing. */
  predicate NoPendingTask(s: State) {
    && (s.gen in s.recheck ==> s.recheck[s.gen] == RCompleted)
    && (forall t | t in s.docs && s.docs[t].gen == s.gen :: s.docs[t].status.Done?)
  }

  /** `unlocked`: the generation driver does not hold the write lock. */
  predicate LocalEnabled(h: ChangeHandling, a: LocalAction, unlocked: bool) {
    match a
    case Event(_) => true
    case ReadBatch(end) => !h.closed && h.read <= end <= |h.log|
    case Reopen => !h.closed
    case StartInsert => unlocked && !h.locked && h.chan != []
    case FinishInsert => h.locked && h.remaining == {} && h.chan != []
    case PersistToken => !h.locked
    case Signal => h.fence.Some?
    case CloseReader => h.signalled && h.fence.Some? && h.read >= h.fence.value
    case FinishPersistor => h.closed && h.chan == [] && !h.locked
  }

  /** The positions of a batch's events. */
  function Events(b: Batch): (r: set<nat>)
    ensures forall i: nat :: i in r <==> b.start <= i < b.end
    decreases b.end
  {
    if b.start < b.end then Events(Batch(b.start, b.end - 1)) + {b.end - 1} else {}
  }

  function LocalStep(h: ChangeHandling, a: LocalAction): ChangeHandling
    requires LocalEnabled(h, a, true)
  {
    match a
    case Event(id) => h.(log := h.log + [id])
    case ReadBatch(end) => h.(read := end, chan := h.chan + [Batch(h.read, end)])
    case Reopen => h.(read := h.token)
    case StartInsert =>
      h.(locked := true, remaining := Events(h.chan[0]))
    case FinishInsert =>
      h.(locked := false, chan := h.chan[1..], lastEnd := h.chan[0].end,
         handled := Max(h.handled, h.chan[0].end))
    case PersistToken => h.(token := h.lastEnd)
    case Signal => h.(signalled := true)
    case CloseReader => h.(closed := true)
    case FinishPersistor => h.(finished := true)
  }

  function Max(a: nat, b: nat): nat { if a < b then b else a }

  /** Neither persistor holds the read lock. */
  predicate Quiet(s: State) { forall c :: !s.clusters.Get(c).locked }

  predicate Enabled(s: State, a: Action) {
    match a
    case Local(c, step) => (s.phase != Returned || step.Event?) && LocalEnabled(s.clusters.Get(c), step, s.Unlocked())
    case InsertOne(c, i) => var h := s.clusters.Get(c); h.locked && i in h.remaining && i < |h.log|
    case WritesOff => s.Unlocked() && !s.writesOff && Quiet(s)
    case ClaimRecheckTask =>
      s.phase == Working && s.builder == NoBuilder && s.gen in s.recheck && s.recheck[s.gen] == RAdded
    case ReadQueue => s.builder.Claimed? || s.builder.Building?
    case InsertDocTask(key, ids) => s.builder.Building? && key !in s.docs && ids <= s.builder.snap
    case CompleteRecheckTask => s.builder.Building? && s.builder.todo == {}
    case DropQueue(_) => s.builder.Dropping?
    case ClaimDocTask(key) =>
      s.phase == Working && key in s.docs && s.docs[key].gen == s.gen && s.docs[key].status.Added?
    case EnqueueMismatch(key, id) =>
      s.phase == Working && HasProcessing(s, key) && id in s.docs[key].ids && !s.last
    case FinishDocTask(key, mismatched) =>
      && s.phase == Working && HasProcessing(s, key) && mismatched <= s.docs[key].ids
      && (!s.last ==> mismatched <= s.docs[key].status.sent)
    case EndGeneration => s.phase == Working && s.builder == NoBuilder && NoPendingTask(s)
    case Bump =>
      && s.phase == Between && !s.last && Quiet(s)
      && (s.writesOff ==> forall c :: s.clusters.Get(c).finished)
    case EnsureRecheckTask => s.phase == Bumped
    case PersistGeneration => s.phase == Ensured
    case Return => s.phase == Between && s.last
    case CrashAndRestart => s.phase != Returned
  }

  /** Puts `id` into generation `k`'s queue. */
  function Enqueue(s: State, k: nat, id: DocId): State {
    s.(queue := Put(s.queue, k, Q(s.queue, k) + {id}), ever := Put(s.ever, k, Q(s.ever, k) + {id}))
  }

  /** What a restart finds of one cluster: the log and the stored token. */
  function Restarted(h: ChangeHandling): ChangeHandling {
    h.(read := h.token, chan := [], locked := false, remaining := {}, lastEnd := h.token,
       fence := None, signalled := false, closed := false, finished := false)
  }

  function Fenced(h: ChangeHandling): ChangeHandling { h.(fence := Some(|h.log|)) }

  /** The process stopped while it was turning the recheck queue into tasks. */
  predicate Interrupted(s: State) { s.pgen in s.recheck && s.recheck[s.pgen] == RProcessing }

  /** What a restart makes of the document tasks: in-progress ones become Added again, and
      those of an interrupted recheck-queue task's generation are deleted. */
  function ResetDocs(docs: map<nat, DocTask>, interrupted: bool, gen: nat): map<nat, DocTask> {
    map t | t in docs && !(interrupted && docs[t].gen == gen) ::
      if docs[t].status.Processing? then docs[t].(status := Added) else docs[t]
  }

  function Do(s: State, a: Action): State
    requires Enabled(s, a)
  {
    match a
    case Local(c, step) => s.(clusters := s.clusters.Set(c, LocalStep(s.clusters.Get(c), step)))
    case InsertOne(c, i) =>
      var h := s.clusters.Get(c);
      Enqueue(s, s.gen + 1, h.log[i]).(
        clusters := s.clusters.Set(c, h.(remaining := h.remaining - {i})),
        enqueued := s.enqueued + {Enqueued(c, i, s.gen + 1)})
    case WritesOff =>
      s.(writesOff := true, clusters := Clusters(Fenced(s.clusters.Get(Src)), Fenced(s.clusters.Get(Dst))))
    case ClaimRecheckTask => s.(recheck := s.recheck[s.gen := RProcessing], builder := Claimed)
    case ReadQueue => s.(builder := Building(Q(s.queue, s.gen), Q(s.queue, s.gen)))
    case InsertDocTask(key, ids) =>
      s.(docs := s.docs[key := DocTask(s.gen, ids, Added)],
         builder := Building(s.builder.snap, s.builder.todo - ids))
    case CompleteRecheckTask => s.(recheck := s.recheck[s.gen := RCompleted], builder := Dropping)
    case DropQueue(ok) =>
      s.(queue := if ok then Put(s.queue, s.gen, {}) else s.queue, builder := NoBuilder)
    case ClaimDocTask(key) =>
      var claimed := Processing(|s.clusters.Get(Src).log|, |s.clusters.Get(Dst).log|, {});
      s.(docs := s.docs[key := s.docs[key].(status := claimed)])
    case EnqueueMismatch(key, id) =>
      var t := s.docs[key];
      Enqueue(s, s.gen + 1, id)
        .(docs := s.docs[key := t.(status := t.status.(sent := t.status.sent + {id}))])
    case FinishDocTask(key, mismatched) =>
      var t := s.docs[key];
      s.(docs := s.docs[key := t.(status := Done(t.status.seenSrc, t.status.seenDst, mismatched, s.last))])
    case EndGeneration => s.(phase := Between)
    case Bump => s.(gen := s.gen + 1, last := s.writesOff, phase := Bumped)
    case EnsureRecheckTask =>
      var added := Q(s.queue, s.gen) != {}
                   && (s.gen !in s.recheck || s.recheck[s.gen] == RProcessing);
      s.(recheck := if added then s.recheck[s.gen := RAdded] else s.recheck, phase := Ensured)
    case PersistGeneration => s.(pgen := s.gen, phase := Working)
    case Return => s.(phase := Returned)
    case CrashAndRestart =>
      s.(clusters := Clusters(Restarted(s.clusters.Get(Src)), Restarted(s.clusters.Get(Dst))),
         recheck := if Interrupted(s) then s.recheck[s.pgen := RAdded] else s.recheck,
         docs := ResetDocs(s.docs, Interrupted(s), s.pgen),
         gen := s.pgen, last := false, writesOff := false, phase := Working, builder := NoBuilder,
         crashedInLast := s.crashedInLast || s.last)
  }

  /** Verification has just begun: the initial scan is planned as generation-0 document
      tasks, and both readers start at the beginning of the logs they watch. */
  predicate Init(s: State) {
    && s.gen == s.pgen == 0 && s.phase == Working && !s.last && !s.writesOff && s.builder == NoBuilder
    && s.recheck == map[] && s.queue == map[] && s.ever == map[] && s.enqueued == {}
    && !s.crashedInLast
    && (forall t | t in s.docs :: s.docs[t].gen == 0 && s.docs[t].status.Added?)
    && (forall c: Cluster :: s.clusters.Get(c) == ChangeHandling([], 0, 0, [], false, {}, 0, None, false, false, false, 0))
  }

  /** `to` is reached from `from` by performing `actions`, each of them enabled. */
  predicate Run(from: State, actions: seq<Action>, to: State)
    decreases |actions|
  {
    if actions == [] then from == to
    else Enabled(from, actions[0]) && Run(Do(from, actions[0]), actions[1..], to)
  }
}
