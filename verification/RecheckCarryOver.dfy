/**
 A run in which a mismatch is lost: the process crashes during its last generation, after a
 task found a mismatch and, the generation being the last, did not enqueue it again. The
 restarted process no longer knows that the generation was the last.
 */
module RecheckCarryOver {
  import opened Bson
  import opened RecheckProtocol
  import opened RecheckSafety

  const Fresh := ChangeHandling([], 0, 0, [], false, {}, 0, None, false, false, false, 0)
  const Drained := Fresh.(fence := Some(0), signalled := true, closed := true, finished := true)

  const Start: State :=
    State(Clusters(Fresh, Fresh), 0, map[], map[0 := DocTask(0, {7}, Added)], map[],
          0, false, false, Working, NoBuilder, map[], {}, false)

  const Failed: DocStatus := Done(0, 0, {7}, false)
  const FailedInLast: DocStatus := Done(0, 0, {7}, true)

  /** Generation 0 found document 7 mismatched and enqueued it. */
  const AfterScan: State :=
    Start.(docs := map[0 := DocTask(0, {7}, Failed)], queue := map[1 := {7}], ever := map[1 := {7}],
           phase := Between)

  /** Generation 1, the last one, begins. */
  const LastGeneration: State :=
    AfterScan.(clusters := Clusters(Drained, Drained), pgen := 1, gen := 1, last := true, writesOff := true,
               recheck := map[1 := RAdded], phase := Working)

  /** Its only task fails again; nothing is enqueued. */
  const LastGenerationChecked: State :=
    LastGeneration.(recheck := map[1 := RCompleted], queue := map[1 := {}],
                    docs := map[0 := DocTask(0, {7}, Failed), 1 := DocTask(1, {7}, FailedInLast)])

  /** The process crashes and restarts in generation 1. */
  const Restart: State :=
    LastGenerationChecked.(clusters := Clusters(Fresh, Fresh), last := false, writesOff := false,
                           crashedInLast := true)

  /** Generation 2 has nothing to check, and the verifier reports success for it. */
  const Finish: State :=
    Restart.(clusters := Clusters(Drained, Drained), pgen := 2, gen := 2, last := true, writesOff := true,
             phase := Returned)

  /** `to` is the state that `a` leads to from the reachable state `from`. */
  lemma Step(from: State, a: Action, to: State)
    requires Reachable(from) && Enabled(from, a) && Do(from, a) == to
    ensures Reachable(to)
  {
    ReachableStep(from, a);
  }

  lemma StartReachable()
    ensures Reachable(Start)
  {
    assert Init(Start) by {
      assert Start.clusters.Get(Src) == Fresh && Start.clusters.Get(Dst) == Fresh;
    }
    assert Run(Start, [], Start);
  }

  const Enqueueing: State :=
    Start.(docs := map[0 := DocTask(0, {7}, Processing(0, 0, {7}))], queue := map[1 := {7}], ever := map[1 := {7}])

  lemma MismatchIsEnqueued()
    ensures Reachable(Enqueueing)
  {
    StartReachable();
    var s1 := Start.(docs := map[0 := DocTask(0, {7}, Processing(0, 0, {}))]);
    Step(Start, ClaimDocTask(0), s1);
    var s2, none: set<DocId> := Do(s1, EnqueueMismatch(0, 7)), {};
    assert none + {7} == {7};
    assert s2.docs == Enqueueing.docs;
    Step(s1, EnqueueMismatch(0, 7), Enqueueing);
  }

  lemma ScanFindsMismatch()
    ensures Reachable(AfterScan)
  {
    MismatchIsEnqueued();
    Step(Enqueueing, FinishDocTask(0, {7}), AfterScan.(phase := Working));
    Step(AfterScan.(phase := Working), EndGeneration, AfterScan);
  }

  /** Writes-off, both readers and persistors finish, and the generation is bumped. */
  lemma WritesOffAndBump(s: State)
    requires Reachable(s) && s.phase == Between && !s.last && !s.writesOff
    requires s.clusters == Clusters(Fresh, Fresh)
    ensures Reachable(s.(clusters := Clusters(Drained, Drained), writesOff := true, last := true,
                         gen := s.gen + 1, phase := Bumped))
  {
    var f := Fresh.(fence := Some(0));
    var s1 := s.(writesOff := true, clusters := Clusters(f, f));
    Step(s, WritesOff, s1);
    var s2 := DrainOne(s1, Src);
    var s3 := DrainOne(s2, Dst);
    BumpDrained(s3);
  }

  lemma BumpDrained(s: State)
    requires Reachable(s) && s.phase == Between && !s.last && s.writesOff
    requires s.clusters == Clusters(Drained, Drained)
    ensures Reachable(s.(last := true, gen := s.gen + 1, phase := Bumped))
  {
    Step(s, Bump, s.(gen := s.gen + 1, last := true, phase := Bumped));
  }

  lemma DrainOne(s: State, c: Cluster) returns (s': State)
    requires Reachable(s) && s.phase == Between && s.clusters.Get(c) == Fresh.(fence := Some(0))
    ensures Reachable(s') && s' == s.(clusters := s.clusters.Set(c, Drained))
  {
    var f := Fresh.(fence := Some(0));
    var s1 := s.(clusters := s.clusters.Set(c, f.(signalled := true)));
    var s2 := s.(clusters := s.clusters.Set(c, f.(signalled := true, closed := true)));
    s' := s.(clusters := s.clusters.Set(c, Drained));
    Step(s, Local(c, Signal), s1);
    Step(s1, Local(c, CloseReader), s2);
    Step(s2, Local(c, FinishPersistor), s');
  }

  lemma LastGenerationBegins()
    ensures Reachable(LastGeneration)
  {
    ScanFindsMismatch();
    WritesOffAndBump(AfterScan);
    var bumped := LastGeneration.(pgen := 0, recheck := map[], phase := Bumped);
    assert bumped == AfterScan.(clusters := Clusters(Drained, Drained), writesOff := true, last := true,
                                gen := 1, phase := Bumped);
    Step(bumped, EnsureRecheckTask, bumped.(recheck := map[1 := RAdded], phase := Ensured));
    Step(bumped.(recheck := map[1 := RAdded], phase := Ensured), PersistGeneration, LastGeneration);
  }

  const QueueDone: State :=
    LastGeneration.(recheck := map[1 := RCompleted], queue := map[1 := {}],
                    docs := map[0 := DocTask(0, {7}, Failed), 1 := DocTask(1, {7}, Added)])

  const QueueRead: State :=
    LastGeneration.(recheck := map[1 := RProcessing], builder := Building({7}, {7}))

  lemma LastGenerationReadsQueue()
    ensures Reachable(QueueRead)
  {
    LastGenerationBegins();
    Step(LastGeneration, ClaimRecheckTask, QueueRead.(builder := Claimed));
    Step(QueueRead.(builder := Claimed), ReadQueue, QueueRead);
  }

  const Planned: State := QueueRead.(docs := QueueDone.docs, builder := Building({7}, {}))

  lemma TaskIsInserted()
    ensures Reachable(Planned)
  {
    LastGenerationReadsQueue();
    var none: set<DocId> := {};
    assert {7} - {7} == none;
    assert Do(QueueRead, InsertDocTask(1, {7})).docs == QueueDone.docs;
    Step(QueueRead, InsertDocTask(1, {7}), Planned);
  }

  lemma LastGenerationIsPlanned()
    ensures Reachable(QueueDone)
  {
    TaskIsInserted();
    var s2 := Planned.(recheck := map[1 := RCompleted], builder := Dropping);
    Step(Planned, CompleteRecheckTask, s2);
    Step(s2, DropQueue(true), QueueDone);
  }

  lemma LastGenerationFails()
    ensures Reachable(LastGenerationChecked)
  {
    LastGenerationIsPlanned();
    var s1 := QueueDone.(docs := QueueDone.docs[1 := DocTask(1, {7}, Processing(0, 0, {}))]);
    Step(QueueDone, ClaimDocTask(1), s1);
    assert Do(s1, FinishDocTask(1, {7})).docs == LastGenerationChecked.docs;
    Step(s1, FinishDocTask(1, {7}), LastGenerationChecked);
  }

  lemma CrashAfterFailure()
    ensures Reachable(Restart)
  {
    LastGenerationFails();
    assert Do(LastGenerationChecked, CrashAndRestart).docs == LastGenerationChecked.docs;
    Step(LastGenerationChecked, CrashAndRestart, Restart);
  }

  lemma RestartedRunEndsGeneration()
    ensures Reachable(Restart.(phase := Between))
  {
    CrashAfterFailure();
    Step(Restart, EndGeneration, Restart.(phase := Between));
  }

  lemma RestartedRunReturns()
    ensures Reachable(Finish)
  {
    RestartedRunEndsGeneration();
    WritesOffAndBump(Restart.(phase := Between));
    var bumped := Finish.(pgen := 1, phase := Bumped);
    assert bumped == Restart.(clusters := Clusters(Drained, Drained), writesOff := true, last := true,
                              gen := 2, phase := Bumped);
    Step(bumped, EnsureRecheckTask, bumped.(phase := Ensured));
    Step(bumped.(phase := Ensured), PersistGeneration, Finish.(phase := Working));
    FinalGenerationReturns();
  }

  lemma FinalGenerationReturns()
    requires Reachable(Finish.(phase := Working))
    ensures Reachable(Finish)
  {
    Step(Finish.(phase := Working), EndGeneration, Finish.(phase := Between));
    Step(Finish.(phase := Between), Return, Finish);
  }

  /** The driver returns normally although a mismatch of generation 1 was never compared again. */
  lemma CrashInLastGenerationLosesMismatch()
    ensures Reachable(Finish) && Finish.phase == Returned
    ensures Finish.docs[1].gen < Finish.gen && 7 in Finish.docs[1].status.mismatched
    ensures !Finished(Finish, Finish.docs[1].gen + 1, 7)
  {
    RestartedRunReturns();
  }
}
