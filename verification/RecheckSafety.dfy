/**
 What every run of the generation protocol guarantees, and the one guarantee a crash
 during the last generation breaks.
 */
module RecheckSafety {
  import opened Bson
  import opened RecheckProtocol
  import opened RecheckInvariant

  /** Some run of the verifier, from a fresh start, leads to `s`. */
  ghost predicate Reachable(s: State) {
    exists init, actions :: Init(init) && Run(init, actions, s)
  }

  lemma ReachableInv(s: State)
    requires Reachable(s)
    ensures Inv(s)
  {
    var init, actions :| Init(init) && Run(init, actions, s);
    InitInv(init);
    RunInv(init, actions, s);
  }

  /** A finished document task of generation `k` whose reads all followed the first `seen`
      events of cluster `c`. */
  ghost predicate Compared(s: State, k: nat, id: DocId, c: Cluster, seen: nat) {
    exists t :: t in s.docs && s.docs[t].gen == k && id in s.docs[t].ids
                && s.docs[t].status.Done? && Seen(s.docs[t].status, c) >= seen
  }

  ghost predicate Finished(s: State, k: nat, id: DocId) {
    exists t :: t in s.docs && s.docs[t].gen == k && id in s.docs[t].ids && s.docs[t].status.Done?
  }

  // ------------------------------------------------------------------
  // Queues and generations
  // ------------------------------------------------------------------

  /** A queue gains entries only while the in-memory generation is the one before it. */
  lemma QueuesGrowOnlyAhead(s: State, a: Action, k: nat)
    requires Enabled(s, a)
    ensures k != s.gen + 1 ==> Q(Do(s, a).queue, k) <= Q(s.queue, k) && Q(Do(s, a).ever, k) == Q(s.ever, k)
    ensures forall e | e in Do(s, a).enqueued && e !in s.enqueued :: e.k == s.gen + 1
  {
    match a
    case Local(c, step) =>
      var h := LocalStep(s.clusters.Get(c), step);
      assert Do(s, a) == s.(clusters := s.clusters.Set(c, h));
    case _ =>
  }

  lemma GenerationsNeverShrink(s: State, a: Action)
    requires Inv(s) && Enabled(s, a)
    ensures s.pgen <= Do(s, a).pgen
  {
    match a
    case Local(c, step) =>
      var h := LocalStep(s.clusters.Get(c), step);
      assert Do(s, a) == s.(clusters := s.clusters.Set(c, h));
    case _ =>
  }

  /** From the moment generation `k` is the stored one, its queue never gains another entry,
      whatever happens later, restarts included. */
  lemma {:induction false} StoredGenerationsQueueIsFrozen(s: State, actions: seq<Action>, s': State, k: nat)
    requires Reachable(s) && Run(s, actions, s') && k <= s.pgen
    ensures Q(s'.ever, k) == Q(s.ever, k) && s.pgen <= s'.pgen
    decreases |actions|
  {
    ReachableInv(s);
    if actions != [] {
      var s1 := Do(s, actions[0]);
      QueuesGrowOnlyAhead(s, actions[0], k);
      GenerationsNeverShrink(s, actions[0]);
      ReachableStep(s, actions[0]);
      StoredGenerationsQueueIsFrozen(s1, actions[1..], s', k);
    }
  }

  lemma {:induction false} RunStep(init: State, actions: seq<Action>, s: State, a: Action)
    requires Run(init, actions, s) && Enabled(s, a)
    ensures Run(init, actions + [a], Do(s, a))
    decreases |actions|
  {
    if actions == [] {
      assert Run(Do(s, a), [], Do(s, a));
      assert ([a])[1..] == [];
    } else {
      RunStep(Do(init, actions[0]), actions[1..], s, a);
      assert (actions + [a])[1..] == actions[1..] + [a];
    }
  }

  lemma ReachableStep(s: State, a: Action)
    requires Reachable(s) && Enabled(s, a)
    ensures Reachable(Do(s, a))
  {
    var init, actions :| Init(init) && Run(init, actions, s);
    RunStep(init, actions, s, a);
  }

  /** The worker that turns a queue into tasks has read all of it: everything ever queued. */
  lemma QueueIsReadWhole(s: State)
    requires Reachable(s) && s.builder.Building?
    ensures s.builder.snap == Q(s.ever, s.gen)
  {
    ReachableInv(s);
  }

  /** A generation ends only once every id ever put in its queue lies in a finished document
      task of that generation, also across restarts. */
  lemma GenerationEndsWithItsQueueChecked(s: State, k: nat, id: DocId)
    requires Reachable(s) && id in Q(s.ever, k)
    requires k < s.gen || (k == s.gen && Enabled(s, EndGeneration))
    ensures Finished(s, k, id)
  {
    ReachableInv(s);
    assert HasTask(s.docs, k, id) by {
      if k < s.pgen {
        assert AllHaveTasks(s.docs, k, Q(s.ever, k));
      } else {
        assert s.recheck[s.pgen] == RCompleted;
      }
    }
    var t :| t in s.docs && s.docs[t].gen == k && id in s.docs[t].ids;
    assert s.docs[t].status.Done?;
  }

  /** A restart finds at most one interrupted recheck-queue task, of the stored generation:
      the reset's two internal-error branches are unreachable. */
  lemma InterruptedTaskIsOfStoredGeneration(s: State, k: nat)
    requires Reachable(s) && k in s.recheck && s.recheck[k] == RProcessing
    ensures k == s.pgen
  {
    ReachableInv(s);
  }

  // ------------------------------------------------------------------
  // The main result
  // ------------------------------------------------------------------

  /** If the driver returns normally, every watched event of either cluster before that
      cluster's writes-off time was enqueued in some generation `k - 1` and its document
      was compared in generation `k`, by a task that was claimed after the event. */
  lemma EveryWatchedEventIsCompared(s: State, c: Cluster, i: nat)
    requires Reachable(s) && s.phase == Returned
    ensures s.clusters.Get(c).fence.Some?
    ensures i < s.clusters.Get(c).fence.value ==>
              i < |s.clusters.Get(c).log|
              && exists k: nat :: k >= 1 && Enqueued(c, i, k) in s.enqueued
                                  && Compared(s, k, s.clusters.Get(c).log[i], c, i + 1)
  {
    ReachableInv(s);
    var h := s.clusters.Get(c);
    assert h.finished && h.closed && HandlingOk(h, c, s.enqueued, s.writesOff);
    if i < h.fence.value {
      assert h.chan == [] && h.read <= h.handled;
      assert IsEnqueued(s.enqueued, c, i);
      var k: nat :| Enqueued(c, i, k) in s.enqueued;
      assert 1 <= k <= s.gen && h.log[i] in Q(s.ever, k);
      assert HasTask(s.docs, k, h.log[i]);
      var t :| t in s.docs && s.docs[t].gen == k && h.log[i] in s.docs[t].ids;
      assert s.docs[t].status.Done? && i < Seen(s.docs[t].status, c);
      assert Compared(s, k, h.log[i], c, i + 1);
    }
  }

  // ------------------------------------------------------------------
  // Carrying mismatches over
  // ------------------------------------------------------------------

  /** A mismatch found before the last generation is compared again in the next one, if its
      task finished outside a last generation. */
  lemma UnsuppressedMismatchIsRechecked(s: State, t: nat, id: DocId)
    requires Reachable(s) && s.phase == Returned
    requires t in s.docs && s.docs[t].gen < s.gen && s.docs[t].status.Done?
    requires id in s.docs[t].status.mismatched && !s.docs[t].status.suppressed
    ensures Finished(s, s.docs[t].gen + 1, id)
  {
    ReachableInv(s);
    var k := s.docs[t].gen + 1;
    assert id in Q(s.ever, k);
    QueuedIsFinished(s, k, id);
  }

  /** Without a crash during a last generation, every mismatch found before the final
      generation is compared again in the next one. */
  lemma MismatchesAreCarriedOver(s: State, t: nat, id: DocId)
    requires Reachable(s) && s.phase == Returned && !s.crashedInLast
    requires t in s.docs && s.docs[t].gen < s.gen && s.docs[t].status.Done?
    requires id in s.docs[t].status.mismatched
    ensures Finished(s, s.docs[t].gen + 1, id)
  {
    ReachableInv(s);
    UnsuppressedMismatchIsRechecked(s, t, id);
  }

  /** From generation 1 on, a document task holds only ids of its generation's queue. */
  ghost predicate TasksComeFromQueues(s: State) {
    forall t | t in s.docs && s.docs[t].gen >= 1 :: s.docs[t].ids <= Q(s.ever, s.docs[t].gen)
  }

  lemma QueuesOnlyGrow(s: State, a: Action, k: nat)
    requires Enabled(s, a)
    ensures Q(s.ever, k) <= Q(Do(s, a).ever, k)
  {
    match a
    case Local(c, step) =>
      var h := LocalStep(s.clusters.Get(c), step);
      assert Do(s, a) == s.(clusters := s.clusters.Set(c, h));
    case _ =>
  }

  /** A step makes no document task but the one it inserts. */
  lemma WhereTasksComeFrom(s: State, a: Action, t: nat)
    requires Enabled(s, a) && t in Do(s, a).docs
    ensures var task := Do(s, a).docs[t];
      || (t in s.docs && task.gen == s.docs[t].gen && task.ids == s.docs[t].ids)
      || (s.builder.Building? && task.gen == s.gen && task.ids <= s.builder.snap && Do(s, a).ever == s.ever)
  {
    match a
    case Local(c, step) =>
      var h := LocalStep(s.clusters.Get(c), step);
      assert Do(s, a) == s.(clusters := s.clusters.Set(c, h));
    case _ =>
  }

  lemma ReadWhole(s: State)
    requires Inv(s) && s.builder.Building?
    ensures s.builder.snap == Q(s.ever, s.gen)
  {
  }

  lemma StepTasksComeFromQueues(s: State, a: Action)
    requires Inv(s) && TasksComeFromQueues(s) && Enabled(s, a)
    ensures TasksComeFromQueues(Do(s, a))
  {
    forall t | t in Do(s, a).docs && Do(s, a).docs[t].gen >= 1
      ensures Do(s, a).docs[t].ids <= Q(Do(s, a).ever, Do(s, a).docs[t].gen)
    {
      WhereTasksComeFrom(s, a, t);
      QueuesOnlyGrow(s, a, Do(s, a).docs[t].gen);
      if s.builder.Building? {
        ReadWhole(s);
      }
    }
  }

  lemma {:induction false} RunTasksComeFromQueues(s: State, actions: seq<Action>, s': State)
    requires Inv(s) && TasksComeFromQueues(s) && Run(s, actions, s')
    ensures TasksComeFromQueues(s')
    decreases |actions|
  {
    if actions != [] {
      StepTasksComeFromQueues(s, actions[0]);
      StepInv(s, actions[0]);
      RunTasksComeFromQueues(Do(s, actions[0]), actions[1..], s');
    }
  }

  lemma ReachableTasksComeFromQueues(s: State)
    requires Reachable(s)
    ensures TasksComeFromQueues(s)
  {
    var init, actions :| Init(init) && Run(init, actions, s);
    InitInv(init);
    RunTasksComeFromQueues(init, actions, s);
  }

  /** Once the driver has returned, the documents compared in a generation after the first are
      exactly those that were ever put into its queue. */
  lemma ComparedIffQueued(s: State, k: nat, id: DocId)
    requires Reachable(s) && s.phase == Returned && 1 <= k <= s.gen
    ensures Finished(s, k, id) <==> id in Q(s.ever, k)
  {
    ReachableTasksComeFromQueues(s);
    if id in Q(s.ever, k) {
      QueuedIsFinished(s, k, id);
    }
  }

  lemma QueuedIsFinished(s: State, k: nat, id: DocId)
    requires Reachable(s) && s.phase == Returned && 1 <= k <= s.gen && id in Q(s.ever, k)
    ensures Finished(s, k, id)
  {
    ReachableInv(s);
    assert HasTask(s.docs, k, id);
    var t :| t in s.docs && s.docs[t].gen == k && id in s.docs[t].ids;
    assert s.docs[t].status.Done?;
  }

  /** The step puts a document into generation `k`'s queue: for a change event, or for a mismatch
      found by a task that does not run in a last generation. */
  predicate Puts(s: State, a: Action, k: nat, id: DocId)
    requires Enabled(s, a)
  {
    k == s.gen + 1 && ((a.InsertOne? && s.clusters.Get(a.c).log[a.i] == id) || (a.EnqueueMismatch? && a.id == id))
  }

  predicate PutDuring(s: State, actions: seq<Action>, k: nat, id: DocId)
    decreases |actions|
  {
    actions != [] && Enabled(s, actions[0])
    && (Puts(s, actions[0], k, id) || PutDuring(Do(s, actions[0]), actions[1..], k, id))
  }

  lemma StepPuts(s: State, a: Action, k: nat, id: DocId)
    requires Enabled(s, a)
    ensures id in Q(Do(s, a).ever, k) <==> id in Q(s.ever, k) || Puts(s, a, k, id)
  {
    match a
    case Local(c, step) =>
      var h := LocalStep(s.clusters.Get(c), step);
      assert Do(s, a) == s.(clusters := s.clusters.Set(c, h));
    case _ =>
  }

  lemma {:induction false} QueueIsWhatWasPut(s: State, actions: seq<Action>, s': State, k: nat, id: DocId)
    requires Run(s, actions, s')
    ensures id in Q(s'.ever, k) <==> id in Q(s.ever, k) || PutDuring(s, actions, k, id)
    decreases |actions|
  {
    if actions != [] {
      StepPuts(s, actions[0], k, id);
      QueueIsWhatWasPut(Do(s, actions[0]), actions[1..], s', k, id);
    }
  }

  /** In every run that ends with the driver's return, with or without crashes, a mismatch found
      before the final generation is compared again in the next one if and only if some step put
      its document into that generation's queue: a change event's, or a mismatch's, its own or
      another task's, found while the generation did not count as the last. A task that finished
      outside a last generation has itself put it there. */
  lemma {:induction false} MismatchIsCarriedOverIff(init: State, actions: seq<Action>, s: State, t: nat, id: DocId)
    requires Init(init) && Run(init, actions, s) && s.phase == Returned
    requires t in s.docs && s.docs[t].gen < s.gen && s.docs[t].status.Done?
    requires id in s.docs[t].status.mismatched
    ensures Finished(s, s.docs[t].gen + 1, id) <==> PutDuring(init, actions, s.docs[t].gen + 1, id)
    ensures !s.docs[t].status.suppressed ==> PutDuring(init, actions, s.docs[t].gen + 1, id)
  {
    assert Reachable(s);
    var k := s.docs[t].gen + 1;
    ComparedIffQueued(s, k, id);
    QueueIsWhatWasPut(init, actions, s, k, id);
    if !s.docs[t].status.suppressed {
      UnsuppressedMismatchIsRechecked(s, t, id);
    }
  }
}
