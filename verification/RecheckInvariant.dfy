/**
 An invariant of every run of the generation protocol, and its preservation by every action.
 */
module RecheckInvariant {
  import opened Bson
  import opened RecheckProtocol

  ghost predicate InvPhase(s: State) {
    && s.gen == (if s.phase == Bumped || s.phase == Ensured then s.pgen + 1 else s.pgen)
    && (Quiet(s) || s.Unlocked())
    && (s.builder != NoBuilder ==> s.phase == Working)
    && (s.last ==> s.writesOff && forall c :: s.clusters.Get(c).finished)
    && (s.phase == Returned ==> s.last)
  }

  /** Queue collections against everything ever queued; `done`: generation `pgen`'s queue
      has been turned into tasks, so it may have been dropped. */
  ghost predicate QueueOk(queue: map<nat, set<DocId>>, ever: map<nat, set<DocId>>, pgen: nat, done: bool) {
    && (forall k: nat :: Q(queue, k) <= Q(ever, k))
    && (forall k: nat :: Q(ever, k) != {} ==> 1 <= k <= pgen + 1)
    && Q(queue, pgen + 1) == Q(ever, pgen + 1)
    && (!done ==> Q(queue, pgen) == Q(ever, pgen))
  }

  ghost predicate InvQueue(s: State) {
    QueueOk(s.queue, s.ever, s.pgen, s.pgen in s.recheck && s.recheck[s.pgen] == RCompleted)
  }

  /** Some document task of generation `k` has the id. */
  ghost predicate HasTask(docs: map<nat, DocTask>, k: nat, id: DocId) {
    exists t :: t in docs && docs[t].gen == k && id in docs[t].ids
  }

  ghost predicate InvRecheck(s: State) {
    && (forall k | k in s.recheck ::
          k <= s.pgen + 1 && (s.recheck[k] == RProcessing ==> k == s.pgen)
          && (k == s.pgen + 1 ==> s.recheck[k] == RAdded))
    && (Q(s.ever, s.pgen) != {} ==> s.pgen in s.recheck)
    && (s.phase == Ensured && Q(s.ever, s.gen) != {} ==> s.gen in s.recheck)
    && (s.builder.Claimed? || s.builder.Building? ==>
          s.pgen in s.recheck && s.recheck[s.pgen] == RProcessing)
    && (s.builder.Building? ==> s.builder.snap == Q(s.ever, s.pgen))
    && (s.builder.Dropping? ==> s.pgen in s.recheck && s.recheck[s.pgen] == RCompleted)
    && (s.phase != Working ==> s.pgen in s.recheck ==> s.recheck[s.pgen] == RCompleted)
  }

  /** Every id of the set has a document task of generation `k`. */
  ghost predicate AllHaveTasks(docs: map<nat, DocTask>, k: nat, ids: set<DocId>) {
    forall id | id in ids :: HasTask(docs, k, id)
  }

  ghost predicate PastCovered(docs: map<nat, DocTask>, ever: map<nat, set<DocId>>, bound: nat) {
    forall k: nat | k < bound :: AllHaveTasks(docs, k, Q(ever, k))
  }

  ghost predicate InvCover(s: State) {
    && PastCovered(s.docs, s.ever, s.pgen)
    && (s.pgen in s.recheck && s.recheck[s.pgen] == RCompleted ==> AllHaveTasks(s.docs, s.pgen, Q(s.ever, s.pgen)))
    && (s.builder.Building? ==> AllHaveTasks(s.docs, s.pgen, s.builder.snap - s.builder.todo))
  }

  ghost predicate DocsOk(docs: map<nat, DocTask>, pgen: nat, working: bool) {
    forall t | t in docs :: docs[t].gen <= pgen && (docs[t].status.Done? || (working && docs[t].gen == pgen))
  }

  ghost predicate InvDocs(s: State) { DocsOk(s.docs, s.pgen, s.phase == Working) }

  /** The batches, in channel order, start no later than what is handled before them ends. */
  ghost predicate ChanOk(h: nat, chan: seq<Batch>, read: nat)
    decreases |chan|
  {
    if chan == [] then read <= h
    else chan[0].start <= h && ChanOk(Max(h, chan[0].end), chan[1..], read)
  }

  ghost predicate IsEnqueued(enqueued: set<Enqueued>, c: Cluster, i: nat) {
    exists k :: Enqueued(c, i, k) in enqueued
  }

  ghost predicate HandlingOk(h: ChangeHandling, c: Cluster, enqueued: set<Enqueued>, writesOff: bool) {
    && h.handled <= |h.log| && h.read <= |h.log| && h.token <= h.handled && h.lastEnd <= h.handled
    && (forall b | b in h.chan :: b.end <= |h.log|)
    && ChanOk(h.handled, h.chan, h.read)
    && (forall i: nat | i < h.handled :: IsEnqueued(enqueued, c, i))
    && (h.locked ==>
          && h.chan != []
          && forall i: nat | h.chan[0].start <= i < h.chan[0].end && i !in h.remaining ::
               IsEnqueued(enqueued, c, i))
    && (h.fence.Some? <==> writesOff)
    && (h.closed ==> h.fence.Some? && h.read >= h.fence.value)
    && (h.finished ==> h.closed && h.chan == [] && !h.locked)
  }

  ghost predicate HandlingsOk(clusters: Clusters, enqueued: set<Enqueued>, writesOff: bool) {
    forall c :: HandlingOk(clusters.Get(c), c, enqueued, writesOff)
  }

  ghost predicate InvHandling(s: State) { HandlingsOk(s.clusters, s.enqueued, s.writesOff) }

  ghost predicate EnqueuedOk(enqueued: set<Enqueued>, clusters: Clusters, ever: map<nat, set<DocId>>, bound: nat) {
    forall e | e in enqueued ::
      && 1 <= e.k <= bound
      && e.i < |clusters.Get(e.c).log| && clusters.Get(e.c).log[e.i] in Q(ever, e.k)
  }

  /** No task of a generation was claimed before the events of that generation's queue. */
  ghost predicate ClaimedAfter(enqueued: set<Enqueued>, docs: map<nat, DocTask>) {
    forall e, t | e in enqueued && t in docs && docs[t].gen == e.k && !docs[t].status.Added? ::
      e.i < Seen(docs[t].status, e.c)
  }

  ghost predicate InvEnqueued(s: State) {
    && EnqueuedOk(s.enqueued, s.clusters, s.ever, if s.last then s.gen else s.pgen + 1)
    && ClaimedAfter(s.enqueued, s.docs)
  }

  /** Mismatches are in the next generation's queue before their task finishes, unless suppressed. */
  ghost predicate CarriedOver(docs: map<nat, DocTask>, ever: map<nat, set<DocId>>) {
    && (forall t | t in docs && docs[t].status.Processing? ::
          docs[t].status.sent <= Q(ever, docs[t].gen + 1))
    && (forall t | t in docs && docs[t].status.Done? && !docs[t].status.suppressed ::
          docs[t].status.mismatched <= Q(ever, docs[t].gen + 1))
  }

  ghost predicate SuppressedOnlyIn(docs: map<nat, DocTask>, gen: nat, last: bool) {
    forall t | t in docs && docs[t].status.Done? && docs[t].status.suppressed :: last && docs[t].gen == gen
  }

  ghost predicate InvCarry(s: State) {
    && CarriedOver(s.docs, s.ever)
    && (!s.crashedInLast ==> SuppressedOnlyIn(s.docs, s.gen, s.last))
  }

  ghost predicate Inv(s: State) {
    && InvPhase(s) && InvQueue(s) && InvRecheck(s) && InvCover(s) && InvDocs(s)
    && InvHandling(s) && InvEnqueued(s) && InvCarry(s)
  }

  lemma InitInv(s: State)
    requires Init(s)
    ensures Inv(s)
  {
    assert InvHandling(s) by {
      forall c
        ensures HandlingOk(s.clusters.Get(c), c, s.enqueued, s.writesOff)
      {
        assert s.clusters.Get(c) == s.clusters.Get(c);
      }
    }
  }

  lemma {:induction false} ChanOkAppend(h: nat, chan: seq<Batch>, read: nat, end: nat)
    requires ChanOk(h, chan, read) && read <= end
    ensures ChanOk(h, chan + [Batch(read, end)], end)
    decreases |chan|
  {
    var added := chan + [Batch(read, end)];
    if chan == [] {
      assert added[1..] == [];
    } else {
      ChanOkAppend(Max(h, chan[0].end), chan[1..], read, end);
      assert added[1..] == chan[1..] + [Batch(read, end)];
    }
  }

  lemma {:induction false} ChanOkLower(h: nat, chan: seq<Batch>, read: nat, lower: nat)
    requires ChanOk(h, chan, read) && lower <= h
    ensures ChanOk(h, chan, lower)
    decreases |chan|
  {
    if chan != [] {
      ChanOkLower(Max(h, chan[0].end), chan[1..], read, lower);
    }
  }

  /** Every task of `docs` for a generation below `bound` is in `docs'`, with the same ids. */
  ghost predicate Keeps(docs: map<nat, DocTask>, docs': map<nat, DocTask>, bound: nat) {
    forall t | t in docs && docs[t].gen < bound ::
      t in docs' && docs'[t].gen == docs[t].gen && docs'[t].ids == docs[t].ids
  }

  lemma KeepsTasks(docs: map<nat, DocTask>, docs': map<nat, DocTask>, bound: nat)
    requires Keeps(docs, docs', bound)
    ensures forall k: nat, id | k < bound && HasTask(docs, k, id) :: HasTask(docs', k, id)
  {
    forall k: nat, id | k < bound && HasTask(docs, k, id)
      ensures HasTask(docs', k, id)
    {
      var t :| t in docs && docs[t].gen == k && id in docs[t].ids;
      assert t in docs' && docs'[t].gen == k && id in docs'[t].ids;
    }
  }

  lemma EnqueuedKept(enqueued: set<Enqueued>, enqueued': set<Enqueued>)
    requires enqueued <= enqueued'
    ensures forall c, i :: IsEnqueued(enqueued, c, i) ==> IsEnqueued(enqueued', c, i)
  {
    forall c, i | IsEnqueued(enqueued, c, i)
      ensures IsEnqueued(enqueued', c, i)
    {
      var k :| Enqueued(c, i, k) in enqueued;
      assert Enqueued(c, i, k) in enqueued';
    }
  }

  lemma LocalKept(h: ChangeHandling, a: LocalAction, c: Cluster, enqueued: set<Enqueued>,
                  writesOff: bool, unlocked: bool)
    requires HandlingOk(h, c, enqueued, writesOff) && LocalEnabled(h, a, unlocked)
    ensures HandlingOk(LocalStep(h, a), c, enqueued, writesOff)
    ensures h.log <= LocalStep(h, a).log
    ensures LocalStep(h, a).locked ==> h.locked || unlocked
    ensures h.finished ==> LocalStep(h, a).finished
  {
    match a
    case ReadBatch(end) => ChanOkAppend(h.handled, h.chan, h.read, end);
    case Reopen => ChanOkLower(h.handled, h.chan, h.read, h.token);
    case _ =>
  }

  /** Enqueueing, while unlocked, goes to the queue after the stored generation. */
  lemma EnqueueGrows(s: State, id: DocId)
    ensures forall k: nat :: Q(s.ever, k) <= Q(Enqueue(s, s.gen + 1, id).ever, k)
    ensures id in Q(Enqueue(s, s.gen + 1, id).ever, s.gen + 1)
  {
  }

  lemma EnqueueKeepsQueue(s: State, id: DocId)
    requires InvQueue(s) && s.gen == s.pgen
    ensures InvQueue(Enqueue(s, s.gen + 1, id))
  {
  }

  lemma CarriedGrows(docs: map<nat, DocTask>, ever: map<nat, set<DocId>>, ever': map<nat, set<DocId>>)
    requires CarriedOver(docs, ever) && forall k: nat :: Q(ever, k) <= Q(ever', k)
    ensures CarriedOver(docs, ever')
  {
  }

  lemma CarriedUpdate(docs: map<nat, DocTask>, ever: map<nat, set<DocId>>, key: nat, t: DocTask)
    requires CarriedOver(docs, ever)
    requires t.status.Processing? ==> t.status.sent <= Q(ever, t.gen + 1)
    requires t.status.Done? && !t.status.suppressed ==> t.status.mismatched <= Q(ever, t.gen + 1)
    ensures CarriedOver(docs[key := t], ever)
  {
  }

  /** A step of one reader or persistor keeps the whole invariant if it keeps that cluster's. */
  lemma LocalFrame(s: State, c: Cluster, h: ChangeHandling)
    requires Inv(s) && HandlingOk(h, c, s.enqueued, s.writesOff)
    requires s.clusters.Get(c).log <= h.log
    requires h.locked ==> s.clusters.Get(c).locked || s.Unlocked()
    requires s.clusters.Get(c).finished ==> h.finished
    ensures Inv(s.(clusters := s.clusters.Set(c, h)))
  {
    var s' := s.(clusters := s.clusters.Set(c, h));
    LocalPhase(s, s', c, h);
    LocalEnqueued(s, s', c, h);
    LocalKeepsRest(s, s', c, h);
    assert InvHandling(s');
  }

  lemma LocalPhase(s: State, s': State, c: Cluster, h: ChangeHandling)
    requires InvPhase(s) && s' == s.(clusters := s.clusters.Set(c, h))
    requires h.locked ==> s.clusters.Get(c).locked || s.Unlocked()
    requires s.clusters.Get(c).finished ==> h.finished
    ensures InvPhase(s')
  {
  }

  lemma LocalEnqueued(s: State, s': State, c: Cluster, h: ChangeHandling)
    requires InvEnqueued(s) && s' == s.(clusters := s.clusters.Set(c, h)) && s.clusters.Get(c).log <= h.log
    ensures InvEnqueued(s')
  {
  }

  lemma LocalKeepsRest(s: State, s': State, c: Cluster, h: ChangeHandling)
    requires InvQueue(s) && InvRecheck(s) && InvDocs(s) && InvCover(s) && InvCarry(s)
    requires s' == s.(clusters := s.clusters.Set(c, h))
    ensures InvQueue(s') && InvRecheck(s') && InvDocs(s') && InvCover(s') && InvCarry(s')
  {
  }

  // The other actions, in three groups; the step lemmas below go group by group.

  predicate ByPersistor(a: Action) { a.InsertOne? || a.WritesOff? }

  predicate ByBuilder(a: Action) {
    a.ClaimRecheckTask? || a.ReadQueue? || a.InsertDocTask? || a.CompleteRecheckTask? || a.DropQueue?
  }

  predicate ByWorker(a: Action) { a.ClaimDocTask? || a.EnqueueMismatch? || a.FinishDocTask? }

  predicate ByDriver(a: Action) {
    a.EndGeneration? || a.Bump? || a.EnsureRecheckTask? || a.PersistGeneration? || a.Return? || a.CrashAndRestart?
  }

  lemma DriverPhase(s: State, a: Action)
    requires InvPhase(s) && InvHandling(s)
    requires ByDriver(a) && Enabled(s, a)
    ensures InvPhase(Do(s, a))
  {
    match a
    case EndGeneration =>
    case Bump =>
    case EnsureRecheckTask =>
    case PersistGeneration =>
    case Return =>
    case CrashAndRestart =>
  }

  lemma StepPhase(s: State, a: Action)
    requires InvPhase(s) && InvHandling(s)
    requires !a.Local? && Enabled(s, a)
    ensures InvPhase(Do(s, a))
  {
    if ByDriver(a) {
      DriverPhase(s, a);
    } else {
      OthersPhase(s, a);
    }
  }

  lemma OthersPhase(s: State, a: Action)
    requires InvPhase(s) && InvHandling(s)
    requires !a.Local? && !ByDriver(a) && Enabled(s, a)
    ensures InvPhase(Do(s, a))
  {
    match a
    case InsertOne(_, _) =>
    case WritesOff =>
    case ClaimRecheckTask =>
    case ReadQueue =>
    case InsertDocTask(_, _) =>
    case CompleteRecheckTask =>
    case DropQueue(_) =>
    case ClaimDocTask(_) =>
    case EnqueueMismatch(_, _) =>
    case FinishDocTask(_, _) =>
  }

  lemma EnqueuingQueue(s: State, a: Action)
    requires InvPhase(s) && InvQueue(s)
    requires (a.InsertOne? || a.EnqueueMismatch?) && Enabled(s, a)
    ensures InvQueue(Do(s, a))
  {
    var id := if a.InsertOne? then s.clusters.Get(a.c).log[a.i] else a.id;
    EnqueueKeepsQueue(s, id);
    DoEnqueues(s, a, id);
  }

  lemma DoEnqueues(s: State, a: Action, id: DocId)
    requires (a.InsertOne? || a.EnqueueMismatch?) && Enabled(s, a)
    requires id == if a.InsertOne? then s.clusters.Get(a.c).log[a.i] else a.id
    ensures var s', q := Do(s, a), Enqueue(s, s.gen + 1, id);
      && s'.queue == q.queue && s'.ever == q.ever && s'.pgen == s.pgen && s'.recheck == s.recheck
  {
  }

  lemma DroppingQueue(s: State, a: Action)
    requires InvPhase(s) && InvQueue(s) && InvRecheck(s)
    requires (a.DropQueue? || a.PersistGeneration?) && Enabled(s, a)
    ensures InvQueue(Do(s, a))
  {
  }

  lemma StepQueue(s: State, a: Action)
    requires InvPhase(s) && InvQueue(s) && InvRecheck(s)
    requires !a.Local? && Enabled(s, a)
    ensures InvQueue(Do(s, a))
  {
    if a.InsertOne? || a.EnqueueMismatch? {
      EnqueuingQueue(s, a);
    } else if a.DropQueue? || a.PersistGeneration? {
      DroppingQueue(s, a);
    } else {
      OtherQueue(s, a);
    }
  }

  lemma OtherQueue(s: State, a: Action)
    requires InvQueue(s) && InvRecheck(s) && !a.Local? && Enabled(s, a)
    requires !a.InsertOne? && !a.EnqueueMismatch? && !a.DropQueue? && !a.PersistGeneration?
    ensures InvQueue(Do(s, a))
  {
    var s' := Do(s, a);
    assert s'.queue == s.queue && s'.ever == s.ever && s'.pgen == s.pgen;
  }

  lemma StepDocs(s: State, a: Action)
    requires InvPhase(s) && InvDocs(s)
    requires !a.Local? && Enabled(s, a)
    ensures InvDocs(Do(s, a))
  {
    if ByDriver(a) {
      DriverDocs(s, a);
    } else if ByWorker(a) || a.InsertDocTask? {
      TaskDocs(s, a);
    } else {
      assert Do(s, a).docs == s.docs && Do(s, a).pgen == s.pgen && Do(s, a).phase == s.phase;
    }
  }

  lemma TaskDocs(s: State, a: Action)
    requires InvPhase(s) && InvDocs(s)
    requires (ByWorker(a) || a.InsertDocTask?) && Enabled(s, a)
    ensures InvDocs(Do(s, a))
  {
    match a
    case InsertDocTask(_, _) =>
    case ClaimDocTask(_) =>
    case EnqueueMismatch(_, _) =>
    case FinishDocTask(_, _) =>
  }

  lemma DriverDocs(s: State, a: Action)
    requires InvPhase(s) && InvDocs(s)
    requires ByDriver(a) && Enabled(s, a)
    ensures InvDocs(Do(s, a))
  {
    match a
    case EndGeneration =>
    case Bump =>
    case EnsureRecheckTask =>
    case PersistGeneration =>
    case Return =>
    case CrashAndRestart =>
  }

  lemma HandlingGrows(h: ChangeHandling, c: Cluster, enqueued: set<Enqueued>, enqueued': set<Enqueued>, writesOff: bool)
    requires HandlingOk(h, c, enqueued, writesOff) && enqueued <= enqueued'
    ensures HandlingOk(h, c, enqueued', writesOff)
  {
    EnqueuedKept(enqueued, enqueued');
  }

  lemma InsertOneHandling(s: State, a: Action)
    requires InvHandling(s) && a.InsertOne? && Enabled(s, a)
    ensures InvHandling(Do(s, a))
  {
    var s', h := Do(s, a), s.clusters.Get(a.c);
    forall c
      ensures HandlingOk(s'.clusters.Get(c), c, s'.enqueued, s'.writesOff)
    {
      HandlingGrows(s.clusters.Get(c), c, s.enqueued, s'.enqueued, s.writesOff);
      if c == a.c {
        assert s'.clusters.Get(c) == h.(remaining := h.remaining - {a.i});
        assert IsEnqueued(s'.enqueued, c, a.i) by {
          assert Enqueued(c, a.i, s.gen + 1) in s'.enqueued;
        }
      }
    }
  }

  lemma StepHandling(s: State, a: Action)
    requires InvHandling(s) && !a.Local? && Enabled(s, a)
    ensures InvHandling(Do(s, a))
  {
    var s' := Do(s, a);
    if a.InsertOne? {
      InsertOneHandling(s, a);
    } else if a.WritesOff? || a.CrashAndRestart? {
      assert HandlingOk(s'.clusters.Get(Src), Src, s'.enqueued, s'.writesOff);
      assert HandlingOk(s'.clusters.Get(Dst), Dst, s'.enqueued, s'.writesOff);
    } else {
      assert s'.clusters == s.clusters && s'.enqueued == s.enqueued && s'.writesOff == s.writesOff;
    }
  }

  lemma PersistorRecheck(s: State, a: Action)
    requires InvPhase(s) && InvRecheck(s)
    requires ByPersistor(a) && Enabled(s, a)
    ensures InvRecheck(Do(s, a))
  {
    match a
    case InsertOne(_, _) =>
    case WritesOff =>
  }

  lemma BuilderRecheck(s: State, a: Action)
    requires InvPhase(s) && InvQueue(s) && InvRecheck(s)
    requires ByBuilder(a) && Enabled(s, a)
    ensures InvRecheck(Do(s, a))
  {
    match a
    case ClaimRecheckTask =>
    case ReadQueue =>
    case InsertDocTask(_, _) =>
    case CompleteRecheckTask =>
    case DropQueue(_) =>
  }

  lemma WorkerRecheck(s: State, a: Action)
    requires InvPhase(s) && InvRecheck(s)
    requires ByWorker(a) && Enabled(s, a)
    ensures InvRecheck(Do(s, a))
  {
    match a
    case ClaimDocTask(_) =>
    case EnqueueMismatch(_, _) =>
    case FinishDocTask(_, _) =>
  }

  lemma DriverRecheck(s: State, a: Action)
    requires InvPhase(s) && InvQueue(s) && InvRecheck(s)
    requires ByDriver(a) && Enabled(s, a)
    ensures InvRecheck(Do(s, a))
  {
    match a
    case EndGeneration =>
    case Bump =>
    case EnsureRecheckTask => EnsureRecheck(s, a);
    case PersistGeneration =>
    case Return =>
    case CrashAndRestart => CrashRecheck(s, a);
  }

  lemma EnsureRecheck(s: State, a: Action)
    requires InvPhase(s) && InvQueue(s) && InvRecheck(s)
    requires a.EnsureRecheckTask? && Enabled(s, a)
    ensures InvRecheck(Do(s, a))
  {
  }

  lemma CrashRecheck(s: State, a: Action)
    requires InvPhase(s) && InvQueue(s) && InvRecheck(s)
    requires a.CrashAndRestart? && Enabled(s, a)
    ensures InvRecheck(Do(s, a))
  {
  }

  lemma InsertedHasTask(s: State, a: Action)
    requires a.InsertDocTask? && Enabled(s, a)
    ensures forall id | id in a.ids :: HasTask(Do(s, a).docs, s.gen, id)
  {
    forall id | id in a.ids
      ensures HasTask(Do(s, a).docs, s.gen, id)
    {
      assert a.key in Do(s, a).docs && Do(s, a).docs[a.key].gen == s.gen && id in Do(s, a).docs[a.key].ids;
    }
  }

  lemma PersistorCover(s: State, a: Action)
    requires InvPhase(s) && InvCover(s)
    requires ByPersistor(a) && Enabled(s, a)
    ensures InvCover(Do(s, a))
  {
    KeepsTasks(s.docs, Do(s, a).docs, s.pgen + 1);
    match a
    case InsertOne(_, _) =>
    case WritesOff =>
  }

  lemma BuilderCover(s: State, a: Action)
    requires InvPhase(s) && InvRecheck(s) && InvCover(s) && InvDocs(s)
    requires ByBuilder(a) && Enabled(s, a)
    ensures InvCover(Do(s, a))
  {
    KeepsTasks(s.docs, Do(s, a).docs, s.pgen + 1);
    match a
    case ClaimRecheckTask =>
    case ReadQueue =>
    case InsertDocTask(_, _) => InsertedHasTask(s, a);
    case CompleteRecheckTask =>
    case DropQueue(_) =>
  }

  lemma WorkerCover(s: State, a: Action)
    requires InvPhase(s) && InvCover(s) && InvDocs(s)
    requires ByWorker(a) && Enabled(s, a)
    ensures InvCover(Do(s, a))
  {
    var s' := Do(s, a);
    KeepsTasks(s.docs, s'.docs, s.pgen + 1);
    assert s'.recheck == s.recheck && s'.builder == s.builder && s'.pgen == s.pgen;
    assert forall k: nat | k <= s.pgen :: Q(s'.ever, k) == Q(s.ever, k);
  }

  lemma DriverCover(s: State, a: Action)
    requires InvPhase(s) && InvQueue(s) && InvRecheck(s) && InvCover(s)
    requires ByDriver(a) && Enabled(s, a)
    ensures InvCover(Do(s, a))
  {
    match a
    case EndGeneration =>
    case Bump =>
    case EnsureRecheckTask =>
    case PersistGeneration =>
    case Return =>
    case CrashAndRestart => KeepsTasks(s.docs, Do(s, a).docs, if Interrupted(s) then s.pgen else s.pgen + 1);
  }

  lemma EnqueuedWith(enqueued: set<Enqueued>, clusters: Clusters, clusters': Clusters,
                     ever: map<nat, set<DocId>>, ever': map<nat, set<DocId>>, bound: nat, e: Enqueued)
    requires EnqueuedOk(enqueued, clusters, ever, bound)
    requires forall c :: clusters'.Get(c).log == clusters.Get(c).log
    requires forall k: nat :: Q(ever, k) <= Q(ever', k)
    requires 1 <= e.k <= bound && e.i < |clusters.Get(e.c).log| && clusters.Get(e.c).log[e.i] in Q(ever', e.k)
    ensures EnqueuedOk(enqueued + {e}, clusters', ever', bound)
  {
  }

  lemma ClaimedAfterWith(enqueued: set<Enqueued>, docs: map<nat, DocTask>, e: Enqueued)
    requires ClaimedAfter(enqueued, docs) && forall t | t in docs :: docs[t].gen < e.k
    ensures ClaimedAfter(enqueued + {e}, docs)
  {
  }

  lemma InsertOneEnqueued(s: State, a: Action)
    requires InvPhase(s) && InvQueue(s) && InvHandling(s) && InvDocs(s) && InvEnqueued(s)
    requires a.InsertOne? && Enabled(s, a)
    ensures InvEnqueued(Do(s, a))
  {
    var s', e := Do(s, a), Enqueued(a.c, a.i, s.gen + 1);
    assert !s.last && s.gen == s.pgen;
    assert forall d: Cluster :: s'.clusters.Get(d).log == s.clusters.Get(d).log;
    EnqueuedWith(s.enqueued, s.clusters, s'.clusters, s.ever, s'.ever, s.pgen + 1, e);
    ClaimedAfterWith(s.enqueued, s.docs, e);
  }

  lemma PersistorEnqueued(s: State, a: Action)
    requires InvPhase(s) && InvQueue(s) && InvHandling(s) && InvDocs(s) && InvEnqueued(s)
    requires ByPersistor(a) && Enabled(s, a)
    ensures InvEnqueued(Do(s, a))
  {
    if a.InsertOne? {
      InsertOneEnqueued(s, a);
    }
  }

  lemma BuilderEnqueued(s: State, a: Action)
    requires InvPhase(s) && InvQueue(s) && InvDocs(s) && InvEnqueued(s)
    requires ByBuilder(a) && Enabled(s, a)
    ensures InvEnqueued(Do(s, a))
  {
    match a
    case ClaimRecheckTask =>
    case ReadQueue =>
    case InsertDocTask(_, _) =>
    case CompleteRecheckTask =>
    case DropQueue(_) =>
  }

  lemma MismatchEnqueued(s: State, a: Action)
    requires InvPhase(s) && InvQueue(s) && InvDocs(s) && InvEnqueued(s)
    requires a.EnqueueMismatch? && Enabled(s, a)
    ensures InvEnqueued(Do(s, a))
  {
  }

  lemma WorkerEnqueued(s: State, a: Action)
    requires InvPhase(s) && InvQueue(s) && InvDocs(s) && InvEnqueued(s)
    requires ByWorker(a) && Enabled(s, a)
    ensures InvEnqueued(Do(s, a))
  {
    match a
    case ClaimDocTask(_) =>
    case EnqueueMismatch(_, _) => MismatchEnqueued(s, a);
    case FinishDocTask(_, _) =>
  }

  lemma ResetKeepsClaimed(enqueued: set<Enqueued>, docs: map<nat, DocTask>, interrupted: bool, gen: nat)
    requires ClaimedAfter(enqueued, docs)
    ensures ClaimedAfter(enqueued, ResetDocs(docs, interrupted, gen))
  {
  }

  lemma SameLogs(enqueued: set<Enqueued>, clusters: Clusters, clusters': Clusters, ever: map<nat, set<DocId>>,
                 bound: nat, bound': nat)
    requires EnqueuedOk(enqueued, clusters, ever, bound) && bound <= bound'
    requires forall c: Cluster :: clusters'.Get(c).log == clusters.Get(c).log
    ensures EnqueuedOk(enqueued, clusters', ever, bound')
  {
  }

  lemma CrashEnqueued(s: State, a: Action)
    requires InvPhase(s) && InvEnqueued(s)
    requires a.CrashAndRestart? && Enabled(s, a)
    ensures InvEnqueued(Do(s, a))
  {
    var s' := Do(s, a);
    ResetKeepsClaimed(s.enqueued, s.docs, Interrupted(s), s.pgen);
    SameLogs(s.enqueued, s.clusters, s'.clusters, s.ever, if s.last then s.gen else s.pgen + 1, s'.pgen + 1);
  }

  lemma DriverEnqueued(s: State, a: Action)
    requires InvPhase(s) && InvQueue(s) && InvDocs(s) && InvEnqueued(s)
    requires ByDriver(a) && Enabled(s, a)
    ensures InvEnqueued(Do(s, a))
  {
    if a.CrashAndRestart? {
      CrashEnqueued(s, a);
    } else {
      var s' := Do(s, a);
      assert s'.docs == s.docs && s'.enqueued == s.enqueued && s'.ever == s.ever && s'.clusters == s.clusters;
    }
  }

  lemma PersistorCarry(s: State, a: Action)
    requires InvPhase(s) && InvQueue(s) && InvCarry(s)
    requires ByPersistor(a) && Enabled(s, a)
    ensures InvCarry(Do(s, a))
  {
    var s' := Do(s, a);
    if a.InsertOne? {
      EnqueueGrows(s, s.clusters.Get(a.c).log[a.i]);
      CarriedGrows(s.docs, s.ever, s'.ever);
    }
    assert CarriedOver(s'.docs, s'.ever);
    assert s'.docs == s.docs && s'.gen == s.gen && s'.last == s.last && s'.crashedInLast == s.crashedInLast;
  }

  lemma BuilderCarry(s: State, a: Action)
    requires InvCarry(s)
    requires ByBuilder(a) && Enabled(s, a)
    ensures InvCarry(Do(s, a))
  {
    match a
    case ClaimRecheckTask =>
    case ReadQueue =>
    case InsertDocTask(_, _) =>
    case CompleteRecheckTask =>
    case DropQueue(_) =>
  }

  lemma MismatchCarry(s: State, a: Action)
    requires InvPhase(s) && InvDocs(s) && InvCarry(s)
    requires a.EnqueueMismatch? && Enabled(s, a)
    ensures CarriedOver(Do(s, a).docs, Do(s, a).ever)
  {
    var s', t := Do(s, a), s.docs[a.key];
    EnqueueGrows(s, a.id);
    CarriedGrows(s.docs, s.ever, s'.ever);
    MismatchSent(s, a);
    CarriedUpdate(s.docs, s'.ever, a.key, s'.docs[a.key]);
  }

  lemma MismatchSent(s: State, a: Action)
    requires a.EnqueueMismatch? && Enabled(s, a) && CarriedOver(s.docs, s.ever) && s.docs[a.key].gen == s.gen
    ensures var s' := Do(s, a);
      && s'.docs == s.docs[a.key := s'.docs[a.key]] && s'.ever == Enqueue(s, s.gen + 1, a.id).ever
      && s'.docs[a.key].status.Processing? && s'.docs[a.key].gen == s.gen
      && s'.docs[a.key].status.sent <= Q(s'.ever, s.gen + 1)
  {
    EnqueueGrows(s, a.id);
  }

  lemma WorkerCarry(s: State, a: Action)
    requires InvPhase(s) && InvQueue(s) && InvDocs(s) && InvCarry(s)
    requires ByWorker(a) && Enabled(s, a)
    ensures InvCarry(Do(s, a))
  {
    if a.EnqueueMismatch? {
      MismatchCarry(s, a);
    } else {
      CarriedUpdate(s.docs, s.ever, a.key, Do(s, a).docs[a.key]);
    }
  }

  lemma ResetKeepsCarried(docs: map<nat, DocTask>, ever: map<nat, set<DocId>>, interrupted: bool, gen: nat)
    requires CarriedOver(docs, ever)
    ensures CarriedOver(ResetDocs(docs, interrupted, gen), ever)
  {
  }

  lemma CrashCarry(s: State, a: Action)
    requires InvPhase(s) && InvCarry(s)
    requires a.CrashAndRestart? && Enabled(s, a)
    ensures InvCarry(Do(s, a))
  {
    ResetKeepsCarried(s.docs, s.ever, Interrupted(s), s.pgen);
  }

  lemma DriverCarry(s: State, a: Action)
    requires InvPhase(s) && InvCarry(s)
    requires ByDriver(a) && Enabled(s, a)
    ensures InvCarry(Do(s, a))
  {
    match a
    case EndGeneration =>
    case Bump =>
    case EnsureRecheckTask =>
    case PersistGeneration =>
    case Return =>
    case CrashAndRestart => CrashCarry(s, a);
  }

  lemma StepInv(s: State, a: Action)
    requires Inv(s) && Enabled(s, a)
    ensures Inv(Do(s, a))
  {
    if a.Local? {
      var h := s.clusters.Get(a.c);
      LocalKept(h, a.step, a.c, s.enqueued, s.writesOff, s.Unlocked());
      LocalFrame(s, a.c, LocalStep(h, a.step));
    } else {
      StepPhase(s, a);
      StepQueue(s, a);
      StepDocs(s, a);
      StepHandling(s, a);
      StepRest(s, a);
    }
  }

  lemma StepRest(s: State, a: Action)
    requires Inv(s) && !a.Local? && Enabled(s, a)
    ensures InvRecheck(Do(s, a)) && InvCover(Do(s, a)) && InvEnqueued(Do(s, a)) && InvCarry(Do(s, a))
  {
    if ByPersistor(a) {
      PersistorRecheck(s, a);
      PersistorCover(s, a);
      PersistorEnqueued(s, a);
      PersistorCarry(s, a);
    } else if ByBuilder(a) {
      BuilderRecheck(s, a);
      BuilderCover(s, a);
      BuilderEnqueued(s, a);
      BuilderCarry(s, a);
    } else if ByWorker(a) {
      WorkerRecheck(s, a);
      WorkerCover(s, a);
      WorkerEnqueued(s, a);
      WorkerCarry(s, a);
    } else {
      DriverRecheck(s, a);
      DriverCover(s, a);
      DriverEnqueued(s, a);
      DriverCarry(s, a);
    }
  }

  lemma {:induction false} RunInv(s: State, actions: seq<Action>, s': State)
    requires Inv(s) && Run(s, actions, s')
    ensures Inv(s')
    decreases |actions|
  {
    if actions != [] {
      StepInv(s, actions[0]);
      RunInv(Do(s, actions[0]), actions[1..], s');
    }
  }
}
