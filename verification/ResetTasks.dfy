/** Rolling back the tasks that an interrupted verifier left in progress. Updates that touch many
    tasks are not atomic: an interruption may fall between any two tasks. */
module ResetTasks {
  import opened Bson

  type TaskId = nat

  datatype Kind = Primary | VerifyCollection | ProcessRecheckQueue | VerifyDocuments

  datatype Status = Added | Processing | Completed | Failed | MetadataMismatch

  datatype Task = Task(kind: Kind, status: Status, generation: nat, namespace: string, beginTime: Option<nat>)

  type Tasks = map<TaskId, Task>

  /** What a reset comes to. */
  datatype Outcome =
    | Reset
    | PrimaryIncomplete
    | InvalidPrimary
    | TooManyQueueTasks
    | GenerationMismatch
    | Interrupted

  datatype Final = Final(tasks: Tasks, outcome: Outcome)

  // ---- What a reset is to do -------------------------------------------------------------

  function ResetTask(t: Task): Task { t.(status := Added, beginTime := None) }

  predicate InProgress(t: Task, kind: Kind) { t.kind == kind && t.status == Processing }

  function InProgressTasks(ts: Tasks, kind: Kind): set<TaskId> { set id | id in ts && InProgress(ts[id], kind) }

  function IncompletePrimaries(ts: Tasks): set<TaskId> {
    set id | id in ts && ts[id].kind == Primary && ts[id].status != Completed
  }

  /** Whether the document tasks of a namespace are to be made anew. */
  predicate Repartitioned(ts: Tasks, namespace: string) {
    exists id :: id in ts && InProgress(ts[id], VerifyCollection) && ts[id].generation == 0 && ts[id].namespace == namespace
  }

  predicate DroppedWithCollection(ts: Tasks, t: Task) { t.kind == VerifyDocuments && Repartitioned(ts, t.namespace) }

  function AfterCollections(ts: Tasks): Tasks {
    map id | id in ts && !DroppedWithCollection(ts, ts[id]) ::
      if InProgress(ts[id], VerifyCollection) then ResetTask(ts[id]) else ts[id]
  }

  /** Whether the document tasks of a generation are to be made anew. */
  predicate Requeued(ts: Tasks, generation: nat) {
    exists id :: id in ts && InProgress(ts[id], ProcessRecheckQueue) && ts[id].generation == generation
  }

  predicate DroppedWithQueue(ts: Tasks, t: Task) { t.kind == VerifyDocuments && Requeued(ts, t.generation) }

  function AfterQueue(ts: Tasks): Tasks {
    map id | id in ts && !DroppedWithQueue(ts, ts[id]) ::
      if InProgress(ts[id], ProcessRecheckQueue) then ResetTask(ts[id]) else ts[id]
  }

  function AfterDocuments(ts: Tasks): Tasks {
    map id | id in ts :: if InProgress(ts[id], VerifyDocuments) then ResetTask(ts[id]) else ts[id]
  }

  function OnlyPrimary(ts: Tasks): Tasks { map id | id in ts && ts[id].kind == Primary :: ts[id] }

  /** What follows the reset of the collection tasks. */
  function AfterQueueAndDocuments(ts: Tasks, generation: nat): Final {
    var queue := InProgressTasks(ts, ProcessRecheckQueue);
    if |queue| > 1 then Final(ts, TooManyQueueTasks)
    else if exists id :: id in queue && ts[id].generation != generation then Final(ts, GenerationMismatch)
    else Final(AfterDocuments(AfterQueue(ts)), Reset)
  }

  /** What an uninterrupted reset leaves. */
  function ResetFinal(ts: Tasks, generation: nat): Final {
    var incomplete := IncompletePrimaries(ts);
    if |incomplete| > 1 || exists id :: id in incomplete && ts[id].status != Added then Final(ts, InvalidPrimary)
    else if incomplete != {} then Final(OnlyPrimary(ts), PrimaryIncomplete)
    else AfterQueueAndDocuments(AfterCollections(ts), generation)
  }

  /** With the primary task complete, a reset that succeeds leaves nothing in progress but what
      it does not look at. */
  lemma NothingLeftInProgress(ts: Tasks, generation: nat, id: TaskId)
    requires ResetFinal(ts, generation).outcome == Reset && id in ResetFinal(ts, generation).tasks
    ensures ResetFinal(ts, generation).tasks[id].status != Processing
    ensures id in ts && ResetFinal(ts, generation).tasks[id] ==
      if ts[id].status == Processing then Task(ts[id].kind, Added, ts[id].generation, ts[id].namespace, None) else ts[id]
  {
    var ts1 := AfterCollections(ts);
    var ts2 := AfterQueue(ts1);
    assert id in ts2 && id in ts1;
    assert IncompletePrimaries(ts) == {} && id !in IncompletePrimaries(ts);
  }

  /** And it drops exactly the document tasks that will be made anew: those of a collection whose
      first scan was being planned, and those of the generation whose queue was being read. */
  lemma DropsExactly(ts: Tasks, generation: nat, id: TaskId)
    requires ResetFinal(ts, generation).outcome == Reset && id in ts
    ensures id !in ResetFinal(ts, generation).tasks <==>
      ts[id].kind == VerifyDocuments && (Repartitioned(ts, ts[id].namespace) || Requeued(ts, ts[id].generation))
  {
    var ts1 := AfterCollections(ts);
    assert Requeued(ts1, ts[id].generation) == Requeued(ts, ts[id].generation) by {
      if Requeued(ts, ts[id].generation) {
        var q :| q in ts && InProgress(ts[q], ProcessRecheckQueue) && ts[q].generation == ts[id].generation;
        assert q in ts1 && ts1[q] == ts[q];
      }
    }
  }

  // ---- Steps that do not change what a reset is to do ------------------------------------

  lemma DropWithCollections(ts: Tasks, done: set<TaskId>)
    requires forall id | id in done :: id in ts && DroppedWithCollection(ts, ts[id])
    ensures AfterCollections(ts - done) == AfterCollections(ts)
    ensures IncompletePrimaries(ts - done) == IncompletePrimaries(ts)
  {
    var ts' := ts - done;
    forall namespace ensures Repartitioned(ts', namespace) == Repartitioned(ts, namespace) {
      if Repartitioned(ts, namespace) {
        var c :| c in ts && InProgress(ts[c], VerifyCollection) && ts[c].generation == 0 && ts[c].namespace == namespace;
        assert c in ts' && ts'[c] == ts[c];
      }
    }
  }

  lemma ResetCollection(ts: Tasks, id: TaskId)
    requires id in ts && InProgress(ts[id], VerifyCollection)
    requires ts[id].generation == 0 ==>
      forall d | d in ts && ts[d].kind == VerifyDocuments :: ts[d].namespace != ts[id].namespace
    ensures AfterCollections(ts[id := ResetTask(ts[id])]) == AfterCollections(ts)
    ensures IncompletePrimaries(ts[id := ResetTask(ts[id])]) == IncompletePrimaries(ts)
  {
    var ts' := ts[id := ResetTask(ts[id])];
    forall d | d in ts && ts[d].kind == VerifyDocuments
      ensures Repartitioned(ts', ts[d].namespace) == Repartitioned(ts, ts[d].namespace)
    {
      if Repartitioned(ts, ts[d].namespace) {
        var c :| c in ts && InProgress(ts[c], VerifyCollection) && ts[c].generation == 0 && ts[c].namespace == ts[d].namespace;
        assert c in ts' && ts'[c] == ts[c];
      }
    }
  }

  /** Once no collection task is in progress there is nothing left to do for them. */
  lemma CollectionsDone(ts: Tasks)
    requires InProgressTasks(ts, VerifyCollection) == {}
    ensures AfterCollections(ts) == ts
  {
    forall id | id in ts ensures !InProgress(ts[id], VerifyCollection) {
      assert id !in InProgressTasks(ts, VerifyCollection);
    }
  }

  lemma DropWithQueue(ts: Tasks, done: set<TaskId>)
    requires forall id | id in done :: id in ts && DroppedWithQueue(ts, ts[id])
    ensures AfterQueue(ts - done) == AfterQueue(ts)
    ensures InProgressTasks(ts - done, ProcessRecheckQueue) == InProgressTasks(ts, ProcessRecheckQueue)
  {
    var ts' := ts - done;
    forall generation ensures Requeued(ts', generation) == Requeued(ts, generation) {
      if Requeued(ts, generation) {
        var q :| q in ts && InProgress(ts[q], ProcessRecheckQueue) && ts[q].generation == generation;
        assert q in ts' && ts'[q] == ts[q];
      }
    }
  }

  lemma ResetQueue(ts: Tasks, id: TaskId)
    requires id in ts && InProgressTasks(ts, ProcessRecheckQueue) == {id}
    requires forall d | d in ts && ts[d].kind == VerifyDocuments :: ts[d].generation != ts[id].generation
    ensures AfterQueue(ts) == ts[id := ResetTask(ts[id])]
    ensures InProgressTasks(ts[id := ResetTask(ts[id])], ProcessRecheckQueue) == {}
  {
    assert id in InProgressTasks(ts, ProcessRecheckQueue);
    forall q | q in ts && InProgress(ts[q], ProcessRecheckQueue) ensures q == id {
      assert q in InProgressTasks(ts, ProcessRecheckQueue);
    }
  }

  lemma QueueDone(ts: Tasks)
    requires InProgressTasks(ts, ProcessRecheckQueue) == {}
    ensures AfterQueue(ts) == ts
  {
    forall id | id in ts ensures !InProgress(ts[id], ProcessRecheckQueue) {
      assert id !in InProgressTasks(ts, ProcessRecheckQueue);
    }
  }

  function WithReset(ts: Tasks, done: set<TaskId>): Tasks {
    map id | id in ts :: if id in done then ResetTask(ts[id]) else ts[id]
  }

  lemma ResetDocuments(ts: Tasks, done: set<TaskId>)
    requires done <= InProgressTasks(ts, VerifyDocuments)
    ensures AfterDocuments(WithReset(ts, done)) == AfterDocuments(ts)
    ensures done == InProgressTasks(ts, VerifyDocuments) ==> WithReset(ts, done) == AfterDocuments(ts)
    ensures InProgressTasks(WithReset(ts, done), ProcessRecheckQueue) == InProgressTasks(ts, ProcessRecheckQueue)
  {
    forall id | id in ts ensures InProgress(ts[id], VerifyDocuments) <==> id in InProgressTasks(ts, VerifyDocuments) {
    }
  }

  lemma DropNonPrimary(ts: Tasks, done: set<TaskId>)
    requires forall id | id in done :: id in ts && ts[id].kind != Primary
    ensures OnlyPrimary(ts - done) == OnlyPrimary(ts)
    ensures IncompletePrimaries(ts - done) == IncompletePrimaries(ts)
    ensures (forall id | id in ts && ts[id].kind != Primary :: id in done) ==> ts - done == OnlyPrimary(ts)
  {
  }

  // ---- The reset -------------------------------------------------------------------------

  class TaskStore {
    var tasks: Tasks
    /** How many more single-task updates succeed before the process is stopped. */
    var updatesLeft: nat

    constructor (tasks: Tasks, updatesLeft: nat)
      ensures this.tasks == tasks && this.updatesLeft == updatesLeft
    {
      this.tasks, this.updatesLeft := tasks, updatesLeft;
    }

    /** Deletes tasks, one by one in some order; not all of them, if stopped meanwhile. */
    method DeleteMany(doomed: set<TaskId>) returns (ok: bool, ghost done: set<TaskId>)
      modifies this
      ensures done <= doomed && tasks == old(tasks) - done && (ok ==> done == doomed)
    {
      done := {};
      var rest := doomed;
      while rest != {}
        invariant rest <= doomed && done == doomed - rest && tasks == old(tasks) - done
      {
        if updatesLeft == 0 {
          return false, done;
        }
        var id :| id in rest;
        tasks, rest, updatesLeft := tasks - {id}, rest - {id}, updatesLeft - 1;
        done := done + {id};
      }
      return true, done;
    }

    /** Puts tasks back to their state before any work, one by one in some order. */
    method ResetMany(ids: set<TaskId>) returns (ok: bool, ghost done: set<TaskId>)
      requires ids <= tasks.Keys
      modifies this
      ensures done <= ids && tasks == WithReset(old(tasks), done) && (ok ==> done == ids)
    {
      done := {};
      var rest := ids;
      assert tasks == WithReset(tasks, {});
      while rest != {}
        invariant rest <= ids && done == ids - rest && tasks == WithReset(old(tasks), done)
      {
        if updatesLeft == 0 {
          return false, done;
        }
        var id :| id in rest;
        tasks, rest, updatesLeft := tasks[id := ResetTask(tasks[id])], rest - {id}, updatesLeft - 1;
        done := done + {id};
      }
      return true, done;
    }

    /** One update of one task. */
    method ResetOne(id: TaskId) returns (ok: bool)
      requires id in tasks
      modifies this
      ensures tasks == if ok then old(tasks)[id := ResetTask(old(tasks)[id])] else old(tasks)
    {
      if updatesLeft == 0 {
        return false;
      }
      tasks, updatesLeft := tasks[id := ResetTask(tasks[id])], updatesLeft - 1;
      return true;
    }

    /** If the primary task is incomplete, everything else goes. None: there is more to do. */
    method HandleIncompletePrimary() returns (r: Option<Outcome>)
      modifies this
      ensures IncompletePrimaries(tasks) == IncompletePrimaries(old(tasks))
      ensures r.None? ==> IncompletePrimaries(tasks) == {} && tasks == old(tasks)
      ensures r.Some? ==> PrimaryAttempt(old(tasks), tasks, r.value)
    {
      var incomplete := set id | id in tasks && tasks[id].kind == Primary && tasks[id].status != Completed;
      if |incomplete| == 0 {
        return None;
      }
      if |incomplete| > 1 {
        return Some(InvalidPrimary);
      }
      var id :| id in incomplete;
      OnlyOne(incomplete, id);
      if tasks[id].status != Added {
        return Some(InvalidPrimary);
      }
      ghost var before := tasks;
      var ok;
      ghost var done;
      ok, done := DeleteMany(set id | id in tasks && tasks[id].kind != Primary);
      DropNonPrimary(before, done);
      return Some(if ok then PrimaryIncomplete else Interrupted);
    }

    /** Collection tasks in progress start again; those of generation 0 without the document
        tasks of their namespace, which go first. */
    method ResetCollectionTasks() returns (ok: bool)
      modifies this
      ensures AfterCollections(tasks) == AfterCollections(old(tasks))
      ensures IncompletePrimaries(tasks) == IncompletePrimaries(old(tasks))
      ensures ok ==> tasks == AfterCollections(old(tasks))
    {
      var rest := set id | id in tasks && InProgress(tasks[id], VerifyCollection);
      while rest != {}
        invariant rest == InProgressTasks(tasks, VerifyCollection)
        invariant AfterCollections(tasks) == AfterCollections(old(tasks))
        invariant IncompletePrimaries(tasks) == IncompletePrimaries(old(tasks))
      {
        var id :| id in rest;
        ok := ResetCollectionTask(id);
        if !ok {
          return false;
        }
        rest := rest - {id};
      }
      CollectionsDone(tasks);
      return true;
    }

    method ResetCollectionTask(id: TaskId) returns (ok: bool)
      requires id in tasks && InProgress(tasks[id], VerifyCollection)
      modifies this
      ensures AfterCollections(tasks) == AfterCollections(old(tasks))
      ensures IncompletePrimaries(tasks) == IncompletePrimaries(old(tasks))
      ensures ok ==> InProgressTasks(tasks, VerifyCollection) == InProgressTasks(old(tasks), VerifyCollection) - {id}
    {
      if tasks[id].generation == 0 {
        ghost var before := tasks;
        var namespace := tasks[id].namespace;
        ghost var done;
        ok, done := DeleteMany(set d | d in tasks && tasks[d].kind == VerifyDocuments && tasks[d].namespace == namespace);
        assert Repartitioned(before, namespace);
        DropWithCollections(before, done);
        if !ok {
          return false;
        }
      }
      ResetCollection(tasks, id);
      ok := ResetOne(id);
    }

    /** A task that fills the recheck tasks of its generation starts again, without the document
        tasks it made, which go first. None: there is more to do. */
    method ResetQueueTasks(generation: nat) returns (r: Option<Outcome>)
      modifies this
      ensures InProgressTasks(tasks, VerifyCollection) <= InProgressTasks(old(tasks), VerifyCollection)
      ensures IncompletePrimaries(tasks) == IncompletePrimaries(old(tasks))
      ensures r.None? ==> QueueFits(old(tasks), generation) && tasks == AfterQueue(old(tasks))
      ensures r == Some(TooManyQueueTasks) || r == Some(GenerationMismatch) ==>
        tasks == old(tasks) && AfterQueueAndDocuments(tasks, generation) == Final(tasks, r.value)
      ensures r.Some? && r != Some(TooManyQueueTasks) && r != Some(GenerationMismatch) ==>
        && r.value == Interrupted && QueueFits(old(tasks), generation) && AfterQueue(tasks) == AfterQueue(old(tasks))
        && InProgressTasks(tasks, ProcessRecheckQueue) == InProgressTasks(old(tasks), ProcessRecheckQueue)
        && QueueFits(tasks, generation)
    {
      var queue := set id | id in tasks && InProgress(tasks[id], ProcessRecheckQueue);
      if |queue| == 0 {
        QueueDone(tasks);
        return None;
      }
      if |queue| > 1 {
        return Some(TooManyQueueTasks);
      }
      var id :| id in queue;
      OnlyOne(queue, id);
      if tasks[id].generation != generation {
        return Some(GenerationMismatch);
      }
      var ok := ResetQueueTask(id);
      return if ok then None else Some(Interrupted);
    }

    method ResetQueueTask(id: TaskId) returns (ok: bool)
      requires InProgressTasks(tasks, ProcessRecheckQueue) == {id}
      modifies this
      ensures InProgressTasks(tasks, VerifyCollection) <= InProgressTasks(old(tasks), VerifyCollection)
      ensures IncompletePrimaries(tasks) == IncompletePrimaries(old(tasks))
      ensures ok ==> tasks == AfterQueue(old(tasks))
      ensures !ok ==>
        && AfterQueue(tasks) == AfterQueue(old(tasks)) && QueueFits(tasks, old(tasks)[id].generation)
        && InProgressTasks(tasks, ProcessRecheckQueue) == InProgressTasks(old(tasks), ProcessRecheckQueue)
    {
      ghost var before := tasks;
      var generation := tasks[id].generation;
      ghost var done;
      ok, done := DeleteMany(set d | d in tasks && tasks[d].kind == VerifyDocuments && tasks[d].generation == generation);
      assert Requeued(before, generation);
      DropWithQueue(before, done);
      if !ok {
        return;
      }
      ResetQueue(tasks, id);
      ok := ResetOne(id);
    }

    /** Document tasks in progress start again. */
    method ResetDocumentTasks() returns (ok: bool)
      modifies this
      ensures AfterDocuments(tasks) == AfterDocuments(old(tasks))
      ensures InProgressTasks(tasks, ProcessRecheckQueue) == InProgressTasks(old(tasks), ProcessRecheckQueue)
      ensures InProgressTasks(tasks, VerifyCollection) == InProgressTasks(old(tasks), VerifyCollection)
      ensures IncompletePrimaries(tasks) == IncompletePrimaries(old(tasks))
      ensures ok ==> tasks == AfterDocuments(old(tasks))
    {
      ghost var before := tasks;
      ghost var done;
      ok, done := ResetMany(set id | id in tasks && InProgress(tasks[id], VerifyDocuments));
      ResetDocuments(before, done);
    }

    /** Rolls back what an earlier process left in progress. Whatever it leaves, a further reset
        is still to come to the same end; and if it is not interrupted that end is reached. */
    method ResetInProgressTasks(generation: nat) returns (r: Outcome)
      modifies this
      ensures Attempt(old(tasks), tasks, r, generation)
    {
      var handled := HandleIncompletePrimary();
      if handled.Some? {
        return handled.value;
      }
      ghost var first := tasks;
      var ok := ResetCollectionTasks();
      CollectionPhase(first, tasks, generation);
      if !ok {
        return Interrupted;
      }
      NoCollectionLeft(first);
      r := ResetQueueAndDocuments(generation);
    }

    method ResetQueueAndDocuments(generation: nat) returns (r: Outcome)
      requires IncompletePrimaries(tasks) == {} && InProgressTasks(tasks, VerifyCollection) == {}
      modifies this
      ensures Attempt(old(tasks), tasks, r, generation)
    {
      ghost var second := tasks;
      var failed := ResetQueueTasks(generation);
      LastPhases(second, generation);
      LastPhases(tasks, generation);
      if failed.Some? {
        return failed.value;
      }
      ghost var third := tasks;
      NoQueueLeft(second);
      var ok := ResetDocumentTasks();
      LastPhases(tasks, generation);
      QueueDone(third);
      QueueDone(tasks);
      return if ok then Reset else Interrupted;
    }
  }

  lemma CollectionPhase(before: Tasks, after: Tasks, generation: nat)
    requires IncompletePrimaries(before) == {} && IncompletePrimaries(after) == {}
    requires AfterCollections(after) == AfterCollections(before)
    ensures ResetFinal(after, generation) == ResetFinal(before, generation)
  {
  }

  lemma NoCollectionLeft(ts: Tasks)
    ensures InProgressTasks(AfterCollections(ts), VerifyCollection) == {}
  {
  }

  lemma NoQueueLeft(ts: Tasks)
    ensures InProgressTasks(AfterQueue(ts), ProcessRecheckQueue) == {}
  {
  }

  /** Past the collection tasks, a reset is what the last two phases do. */
  lemma LastPhases(ts: Tasks, generation: nat)
    requires IncompletePrimaries(ts) == {} && InProgressTasks(ts, VerifyCollection) == {}
    ensures ResetFinal(ts, generation) == AfterQueueAndDocuments(ts, generation)
    ensures QueueFits(ts, generation) ==> ResetFinal(ts, generation) == Final(AfterDocuments(AfterQueue(ts)), Reset)
  {
    CollectionsDone(ts);
  }

  /** What one call of the reset promises. */
  ghost predicate Attempt(before: Tasks, after: Tasks, r: Outcome, generation: nat) {
    && ResetFinal(after, generation) == ResetFinal(before, generation)
    && (r != Interrupted ==> Final(after, r) == ResetFinal(before, generation))
  }

  ghost predicate PrimaryAttempt(before: Tasks, after: Tasks, r: Outcome) {
    forall generation :: Attempt(before, after, r, generation)
  }

  ghost predicate QueueFits(ts: Tasks, generation: nat) {
    && |InProgressTasks(ts, ProcessRecheckQueue)| <= 1
    && forall id | id in InProgressTasks(ts, ProcessRecheckQueue) :: ts[id].generation == generation
  }

  lemma OnlyOne(s: set<TaskId>, id: TaskId)
    requires |s| == 1 && id in s
    ensures s == {id}
  {
    assert |s - {id}| == 0;
  }

  /** Any number of interrupted resets and a last one that is not: the same tasks and the same
      outcome as one uninterrupted reset. */
  lemma {:induction false} InterruptedResetsAgree(states: seq<Tasks>, outcomes: seq<Outcome>, generation: nat)
    requires |states| == |outcomes| + 1 && |outcomes| >= 1
    requires forall i | 0 <= i < |outcomes| :: Attempt(states[i], states[i + 1], outcomes[i], generation)
    requires outcomes[|outcomes| - 1] != Interrupted
    ensures Final(states[|outcomes|], outcomes[|outcomes| - 1]) == ResetFinal(states[0], generation)
  {
    if |outcomes| > 1 {
      assert Attempt(states[0], states[1], outcomes[0], generation);
      InterruptedResetsAgree(states[1..], outcomes[1..], generation);
    } else {
      assert Attempt(states[0], states[1], outcomes[0], generation);
    }
  }
}
