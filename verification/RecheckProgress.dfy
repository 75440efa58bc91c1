/**
 The generation protocol never gets stuck: from every state of every run, whatever crashed or
 failed before, the driver can still come to its return, with no further crash.
 */
module RecheckProgress {
  import opened Bson
  import opened RecheckProtocol
  import opened RecheckInvariant
  import opened RecheckSafety
  import opened RecheckRuns

  // ---- Two more invariants ---------------------------------------------------------------

  /** The log holds the events that a persistor still has to insert, and those before writes-off. */
  ghost predicate WithinLog(h: ChangeHandling) {
    && (forall i: nat | i in h.remaining :: i < |h.log|)
    && (h.fence.Some? ==> h.fence.value <= |h.log|)
  }

  /** A recheck-queue task in progress has a worker. */
  ghost predicate HasWorker(s: State) {
    forall k | k in s.recheck && s.recheck[k] == RProcessing :: s.builder.Claimed? || s.builder.Building?
  }

  ghost predicate Good(s: State) { Inv(s) && (forall c :: WithinLog(s.clusters.Get(c))) && HasWorker(s) }

  lemma LocalWithinLog(h: ChangeHandling, a: LocalAction)
    requires WithinLog(h) && LocalEnabled(h, a, true) && forall b | b in h.chan :: b.end <= |h.log|
    ensures WithinLog(LocalStep(h, a))
  {
    if a.StartInsert? {
      assert h.chan[0] in h.chan;
    }
  }

  lemma LocalStepWithinLog(s: State, c: Cluster, d: Cluster, step: LocalAction)
    requires WithinLog(s.clusters.Get(d)) && Enabled(s, Local(c, step))
    requires forall b | b in s.clusters.Get(c).chan :: b.end <= |s.clusters.Get(c).log|
    ensures WithinLog(Do(s, Local(c, step)).clusters.Get(d))
  {
    if c == d {
      LocalWithinLog(s.clusters.Get(c), step);
    }
  }

  lemma StepWithinLog(s: State, a: Action, c: Cluster)
    requires WithinLog(s.clusters.Get(c)) && InvHandling(s) && Enabled(s, a)
    ensures WithinLog(Do(s, a).clusters.Get(c))
  {
    if a.Local? {
      assert HandlingOk(s.clusters.Get(a.c), a.c, s.enqueued, s.writesOff);
      LocalStepWithinLog(s, a.c, c, a.step);
    } else {
      OtherHandling(s, a, c);
    }
  }

  /** What actions other than a cluster's own make of its change handling. */
  lemma OtherHandling(s: State, a: Action, c: Cluster)
    requires Enabled(s, a) && !a.Local?
    ensures var h, h' := s.clusters.Get(c), Do(s, a).clusters.Get(c);
      h' == h || h' == Fenced(h) || h' == Restarted(h) || (h' == h.(remaining := h'.remaining) && h'.remaining <= h.remaining)
  {
    if a.InsertOne? {
      var h := s.clusters.Get(a.c);
      assert Do(s, a).clusters == s.clusters.Set(a.c, h.(remaining := h.remaining - {a.i}));
    }
  }

  lemma StepHasWorker(s: State, a: Action)
    requires InvPhase(s) && InvRecheck(s) && HasWorker(s) && Enabled(s, a)
    ensures HasWorker(Do(s, a))
  {
    if a.Local? || a.InsertOne? || a.WritesOff? {
      assert Do(s, a).recheck == s.recheck && Do(s, a).builder == s.builder;
    }
  }

  lemma StepGood(s: State, a: Action)
    requires Good(s) && Enabled(s, a)
    ensures Good(Do(s, a))
  {
    StepInv(s, a);
    StepHasWorker(s, a);
    StepWithinLog(s, a, Src);
    StepWithinLog(s, a, Dst);
  }

  lemma {:induction false} RunGood(s: State, actions: seq<Action>, s': State)
    requires Good(s) && Run(s, actions, s')
    ensures Good(s')
    decreases |actions|
  {
    if actions != [] {
      StepGood(s, actions[0]);
      RunGood(Do(s, actions[0]), actions[1..], s');
    }
  }

  lemma ReachableGood(s: State)
    requires Reachable(s)
    ensures Good(s)
  {
    var init, actions :| Init(init) && Run(init, actions, s);
    InitInv(init);
    assert forall c :: init.clusters.Get(c).remaining == {};
    RunGood(init, actions, s);
  }

  // ---- Continuations ---------------------------------------------------------------------

  /** `s'` follows from `s` without a crash. */
  ghost predicate Leads(s: State, s': State) {
    Reachable(s') && exists actions :: Run(s, actions, s') && NoCrash(actions)
  }

  lemma Here(s: State)
    requires Reachable(s)
    ensures Leads(s, s)
  {
    assert Run(s, [], s) && NoCrash([]);
  }

  lemma Then(start: State, s: State, a: Action) returns (s': State)
    requires Leads(start, s) && Enabled(s, a) && !a.CrashAndRestart?
    ensures s' == Do(s, a) && Leads(start, s')
  {
    var actions :| Run(start, actions, s) && NoCrash(actions);
    s' := Do(s, a);
    ReachableStep(s, a);
    RunStep(start, actions, s, a);
    assert NoCrash(actions + [a]);
  }

  /** What the invariants say of one cluster's change handling. */
  ghost predicate HandlingFacts(h: ChangeHandling, writesOff: bool) {
    && WithinLog(h) && h.read <= |h.log|
    && (h.locked ==> h.chan != [])
    && (h.fence.Some? <==> writesOff)
  }

  lemma HandlingIs(s: State, c: Cluster)
    requires Reachable(s)
    ensures HandlingFacts(s.clusters.Get(c), s.writesOff)
  {
    ReachableGood(s);
    assert HandlingOk(s.clusters.Get(c), c, s.enqueued, s.writesOff);
  }

  /** And of the recheck queue and its worker. */
  ghost predicate QueueFacts(s: State) {
    && (s.builder != NoBuilder ==> s.phase == Working)
    && (s.builder == NoBuilder && s.gen in s.recheck && s.phase == Working ==> s.recheck[s.gen] != RProcessing)
    && (s.builder.Claimed? || s.builder.Building? ==> s.gen in s.recheck)
    && (s.builder.Dropping? ==> s.gen in s.recheck && s.recheck[s.gen] == RCompleted)
  }

  lemma QueueIs(s: State)
    requires Reachable(s)
    ensures QueueFacts(s)
  {
    ReachableGood(s);
  }

  // ---- A persistor's channel -------------------------------------------------------------

  /** All but the queues and cluster `c`'s change handling is the same, and of that the log, the
      fence, the reader's position and its end. */
  ghost predicate OnlyPersists(s: State, s': State, c: Cluster) {
    && s'.phase == s.phase && s'.last == s.last && s'.writesOff == s.writesOff
    && (forall d :: d != c ==> s'.clusters.Get(d) == s.clusters.Get(d))
    && var h, h' := s.clusters.Get(c), s'.clusters.Get(c);
       h'.log == h.log && h'.fence == h.fence && h'.read == h.read && h'.closed == h.closed
  }

  lemma {:induction false} InsertRest(start: State, s: State, c: Cluster) returns (s': State)
    requires Leads(start, s) && s.Unlocked() && s.clusters.Get(c).locked
    ensures Leads(start, s') && OnlyPersists(s, s', c)
    ensures var h := s'.clusters.Get(c); h.locked && h.remaining == {} && h.chan == s.clusters.Get(c).chan
    decreases s.clusters.Get(c).remaining
  {
    s' := s;
    var h := s.clusters.Get(c);
    if i: nat :| i in h.remaining {
      HandlingIs(s, c);
      s' := Then(start, s, InsertOne(c, i));
      s' := InsertRest(start, s', c);
    }
  }

  /** The batch in hand, if there is one, is finished. */
  lemma Unlock(start: State, s: State, c: Cluster) returns (s': State)
    requires Leads(start, s) && s.phase == Between
    ensures Leads(start, s') && OnlyPersists(s, s', c) && !s'.clusters.Get(c).locked
    ensures var h := s.clusters.Get(c); s'.clusters.Get(c).chan == if h.locked && h.chan != [] then h.chan[1..] else h.chan
  {
    s' := s;
    if s.clusters.Get(c).locked {
      s' := InsertRest(start, s, c);
      HandlingIs(s', c);
      s' := Then(start, s', Local(c, FinishInsert));
    }
  }

  lemma {:induction false} EmptyChannel(start: State, s: State, c: Cluster) returns (s': State)
    requires Leads(start, s) && s.phase == Between && !s.clusters.Get(c).locked
    ensures Leads(start, s') && OnlyPersists(s, s', c)
    ensures !s'.clusters.Get(c).locked && s'.clusters.Get(c).chan == []
    decreases |s.clusters.Get(c).chan|
  {
    s' := s;
    if s.clusters.Get(c).chan != [] {
      s' := Then(start, s, Local(c, StartInsert));
      s' := Unlock(start, s', c);
      s' := EmptyChannel(start, s', c);
    }
  }

  // ---- A reader's end --------------------------------------------------------------------

  /** All but the queues and cluster `c`'s change handling is the same. */
  ghost predicate Beside(s: State, s': State, c: Cluster) {
    && s'.phase == s.phase && s'.last == s.last && s'.writesOff == s.writesOff
    && forall d :: d != c ==> s'.clusters.Get(d) == s.clusters.Get(d)
  }

  /** The reader is told the writes-off time, reads as far, and stops. */
  lemma Close(start: State, s: State, c: Cluster) returns (s': State)
    requires Leads(start, s) && s.phase == Between && s.writesOff && !s.clusters.Get(c).locked
    ensures Leads(start, s') && Beside(s, s', c) && s'.clusters.Get(c).closed && !s'.clusters.Get(c).locked
  {
    s' := s;
    HandlingIs(s, c);
    if !s.clusters.Get(c).closed {
      s' := Then(start, s', Local(c, Signal));
      s' := Then(start, s', Local(c, ReadBatch(|s.clusters.Get(c).log|)));
      s' := Then(start, s', Local(c, CloseReader));
    }
  }

  /** Its persistor then empties the channel and finishes. */
  lemma Drain(start: State, s: State, c: Cluster) returns (s': State)
    requires Leads(start, s) && s.phase == Between && s.writesOff && !s.clusters.Get(c).locked
    ensures Leads(start, s') && Beside(s, s', c) && s'.clusters.Get(c).finished && !s'.clusters.Get(c).locked
  {
    s' := Close(start, s, c);
    s' := EmptyChannel(start, s', c);
    s' := Then(start, s', Local(c, FinishPersistor));
  }

  // ---- The recheck queue -----------------------------------------------------------------

  lemma {:induction false} FreshKey(used: set<nat>) returns (k: nat)
    ensures forall t | t in used :: t < k
  {
    k := 0;
    if t: nat :| t in used {
      var other := FreshKey(used - {t});
      k := Max(other, t + 1);
      assert forall u | u in used :: u == t || u in used - {t};
    }
  }

  /** A worker reads the queue it has claimed, makes one task of it, and drops it. */
  lemma TurnQueueIntoTask(start: State, s: State) returns (s': State)
    requires Leads(start, s) && s.phase == Working && (s.builder.Claimed? || s.builder.Building?)
    ensures Leads(start, s') && s'.phase == Working && s'.last == s.last && s'.gen == s.gen
    ensures s'.builder == NoBuilder && s'.gen in s'.recheck && s'.recheck[s'.gen] == RCompleted
  {
    QueueIs(s);
    s' := Then(start, s, ReadQueue);
    var key := FreshKey(s.docs.Keys);
    assert key !in s.docs;
    s' := Then(start, s', InsertDocTask(key, s'.builder.snap));
    s' := Then(start, s', CompleteRecheckTask);
    s' := Then(start, s', DropQueue(true));
  }

  /** No worker is at the queue, and none has to be. */
  ghost predicate QueueDone(s: State) {
    s.builder == NoBuilder && (s.gen in s.recheck ==> s.recheck[s.gen] == RCompleted)
  }

  lemma FinishQueue(start: State, s: State) returns (s': State)
    requires Leads(start, s) && s.phase == Working
    ensures Leads(start, s') && s'.phase == Working && s'.last == s.last && s'.gen == s.gen && QueueDone(s')
  {
    s' := s;
    QueueIs(s);
    if s.builder.Dropping? {
      s' := Then(start, s, DropQueue(true));
    } else if s.builder.Claimed? || s.builder.Building? {
      s' := TurnQueueIntoTask(start, s);
    } else if !QueueDone(s) {
      s' := Then(start, s, ClaimRecheckTask);
      s' := TurnQueueIntoTask(start, s');
    }
  }

  // ---- Document tasks --------------------------------------------------------------------

  function Unfinished(docs: map<nat, DocTask>, gen: nat): set<nat> {
    set t | t in docs && docs[t].gen == gen && !docs[t].status.Done?
  }

  /** Nothing but the document tasks differs, and of those at most task `t`. */
  ghost predicate OnlyTask(s: State, s': State, t: nat) {
    t in s'.docs && s' == s.(docs := s.docs[t := s'.docs[t]])
  }

  lemma ClaimTask(start: State, s: State, t: nat) returns (s': State)
    requires Leads(start, s) && s.phase == Working && t in Unfinished(s.docs, s.gen)
    ensures Leads(start, s') && OnlyTask(s, s', t) && s'.docs[t].status.Processing? && s'.docs[t].gen == s.gen
  {
    s' := s;
    if s.docs[t].status.Added? {
      s' := Then(start, s, ClaimDocTask(t));
    } else {
      assert s.docs == s.docs[t := s.docs[t]];
    }
  }

  lemma EndTask(start: State, s: State, t: nat) returns (s': State)
    requires Leads(start, s) && s.phase == Working && HasProcessing(s, t)
    ensures Leads(start, s') && OnlyTask(s, s', t) && s'.docs[t].status.Done?
  {
    s' := Then(start, s, FinishDocTask(t, {}));
  }

  /** A worker finishes one task, finding no mismatch. */
  lemma FinishTask(start: State, s: State, t: nat) returns (s': State)
    requires Leads(start, s) && s.phase == Working && t in Unfinished(s.docs, s.gen)
    ensures Leads(start, s') && OnlyTask(s, s', t)
    ensures Unfinished(s'.docs, s.gen) == Unfinished(s.docs, s.gen) - {t}
  {
    var claimed := ClaimTask(start, s, t);
    s' := EndTask(start, claimed, t);
    OneLess(s.docs, t, s'.docs[t], s.gen);
    assert s'.docs == s.docs[t := s'.docs[t]];
  }

  lemma OneLess(docs: map<nat, DocTask>, t: nat, done: DocTask, gen: nat)
    requires done.status.Done?
    ensures Unfinished(docs[t := done], gen) == Unfinished(docs, gen) - {t}
  {
  }

  lemma {:induction false} FinishTasks(start: State, s: State) returns (s': State)
    requires Leads(start, s) && s.phase == Working && QueueDone(s)
    ensures Leads(start, s') && s'.phase == Working && s'.last == s.last && QueueDone(s')
    ensures Unfinished(s'.docs, s'.gen) == {}
    decreases Unfinished(s.docs, s.gen)
  {
    s' := s;
    if t: nat :| t in Unfinished(s.docs, s.gen) {
      s' := FinishTask(start, s, t);
      s' := FinishTasks(start, s');
    }
  }

  // ---- The driver ------------------------------------------------------------------------

  lemma FinishGeneration(start: State, s: State) returns (s': State)
    requires Leads(start, s) && s.phase == Working
    ensures Leads(start, s') && s'.phase == Between && s'.last == s.last
  {
    s' := FinishQueue(start, s);
    s' := FinishTasks(start, s');
    forall t | t in s'.docs && s'.docs[t].gen == s'.gen
      ensures s'.docs[t].status.Done?
    {
      assert t !in Unfinished(s'.docs, s'.gen);
    }
    s' := Then(start, s', EndGeneration);
  }

  lemma StartGeneration(start: State, s: State) returns (s': State)
    requires Leads(start, s) && (s.phase == Bumped || s.phase == Ensured)
    ensures Leads(start, s') && s'.phase == Working && s'.last == s.last
  {
    s' := s;
    if s.phase == Bumped {
      s' := Then(start, s, EnsureRecheckTask);
    }
    s' := Then(start, s', PersistGeneration);
  }

  /** Writes-off is announced, if it has not been. */
  lemma AnnounceWritesOff(start: State, s: State) returns (s': State)
    requires Leads(start, s) && s.phase == Between && !s.last
    ensures Leads(start, s') && s'.phase == Between && !s'.last && s'.writesOff && Quiet(s')
  {
    s' := Unlock(start, s, Src);
    s' := Unlock(start, s', Dst);
    if !s.writesOff {
      s' := Then(start, s', WritesOff);
    }
  }

  /** Writes-off is announced, the readers and persistors finish, and the last generation begins. */
  lemma BumpToLast(start: State, s: State) returns (s': State)
    requires Leads(start, s) && s.phase == Between && !s.last
    ensures Leads(start, s') && s'.phase == Bumped && s'.last
  {
    s' := AnnounceWritesOff(start, s);
    assert forall c :: !s'.clusters.Get(c).locked;
    s' := Drain(start, s', Src);
    s' := Drain(start, s', Dst);
    s' := Then(start, s', Bump);
  }

  lemma ComeBetween(start: State, s: State) returns (s': State)
    requires Leads(start, s) && s.phase != Returned
    ensures Leads(start, s') && s'.phase == Between && s'.last == s.last
  {
    s' := s;
    if s'.phase == Bumped || s'.phase == Ensured {
      s' := StartGeneration(start, s');
    }
    if s'.phase == Working {
      s' := FinishGeneration(start, s');
    }
  }

  /** What nothing can prevent: clusters log events even after the driver's return, and until then
      the process may crash, readers that have not stopped may begin again at their stored token,
      and tokens may be stored between two batches. */
  lemma AtAnyTime(s: State, c: Cluster, id: DocId)
    ensures Enabled(s, Local(c, Event(id)))
    ensures Do(s, Local(c, Event(id))) == s.(clusters := s.clusters.Set(c, s.clusters.Get(c).(log := s.clusters.Get(c).log + [id])))
    ensures s.phase != Returned ==> Enabled(s, CrashAndRestart)
    ensures s.phase != Returned && !s.clusters.Get(c).closed ==> Enabled(s, Local(c, Reopen))
    ensures s.phase != Returned && !s.clusters.Get(c).locked ==> Enabled(s, Local(c, PersistToken))
  {
  }

  // ---- Restarts --------------------------------------------------------------------------

  /** A restart keeps a cluster's log and token and nothing else, and reads on from the token; no
      document task is in progress then, and finished ones are as they were. */
  lemma RestartForgets(s: State, c: Cluster, t: nat)
    requires Enabled(s, CrashAndRestart)
    ensures var h, h' := s.clusters.Get(c), Do(s, CrashAndRestart).clusters.Get(c);
      h' == ChangeHandling(h.log, h.token, h.token, [], false, {}, h.token, None, false, false, false, h.handled)
    ensures var docs' := Do(s, CrashAndRestart).docs;
      t in docs' ==> t in s.docs && (docs'[t].status.Added? || (docs'[t].status.Done? && docs'[t] == s.docs[t]))
  {
  }

  /** Once a batch has been inserted and its token stored, a restart reads on after the batch. */
  lemma RestartReadsOn(s: State, c: Cluster)
    requires Enabled(s, Local(c, FinishInsert)) && s.phase != Returned
    ensures var s1 := Do(s, Local(c, FinishInsert));
      Enabled(s1, Local(c, PersistToken)) &&
      var s2 := Do(s1, Local(c, PersistToken));
      Enabled(s2, CrashAndRestart) && Do(s2, CrashAndRestart).clusters.Get(c).read == s.clusters.Get(c).chan[0].end
  {
  }

  /** Wherever a run stands, crashed or not, the driver can still return without a further crash. */
  lemma DriverCanReturn(s: State) returns (actions: seq<Action>, s': State)
    requires Reachable(s)
    ensures Run(s, actions, s') && NoCrash(actions) && s'.phase == Returned
  {
    ReachableGood(s);
    Here(s);
    s' := s;
    if s.phase != Returned {
      s' := ComeBetween(s, s');
      if !s'.last {
        s' := BumpToLast(s, s');
        s' := ComeBetween(s, s');
      }
      s' := Then(s, s', Return);
    }
    actions :| Run(s, actions, s') && NoCrash(actions);
  }
}
