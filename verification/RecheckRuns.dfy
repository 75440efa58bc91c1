/**
 The main guarantee over whole runs, told by their steps: what was logged before writes-off has
 been compared, by tasks claimed after it was logged, whenever the driver returns.
 */
module RecheckRuns {
  import opened Bson
  import opened RecheckProtocol
  import opened RecheckInvariant
  import opened RecheckSafety

  predicate NoCrash(actions: seq<Action>) { forall i | 0 <= i < |actions| :: !actions[i].CrashAndRestart? }

  // ---- The writes-off step ---------------------------------------------------------------

  /** Since writes-off: each cluster's log goes on from what it was, and its fence is there. */
  ghost predicate FencedAt(s: State, w: State) {
    && s.writesOff
    && forall c :: w.clusters.Get(c).log <= s.clusters.Get(c).log && s.clusters.Get(c).fence == Some(|w.clusters.Get(c).log|)
  }

  lemma LocalKeepsFences(s: State, c: Cluster, step: LocalAction, w: State)
    requires FencedAt(s, w) && Enabled(s, Local(c, step))
    ensures FencedAt(Do(s, Local(c, step)), w)
  {
    var h := LocalStep(s.clusters.Get(c), step);
    assert Do(s, Local(c, step)) == s.(clusters := s.clusters.Set(c, h));
    assert s.clusters.Get(c).log <= h.log && h.fence == s.clusters.Get(c).fence;
  }

  lemma InsertKeepsFences(s: State, c: Cluster, i: nat, w: State)
    requires FencedAt(s, w) && Enabled(s, InsertOne(c, i))
    ensures FencedAt(Do(s, InsertOne(c, i)), w)
  {
  }

  lemma StepKeepsFences(s: State, a: Action, w: State)
    requires FencedAt(s, w) && Enabled(s, a) && !a.CrashAndRestart?
    ensures FencedAt(Do(s, a), w)
  {
    if a.Local? {
      LocalKeepsFences(s, a.c, a.step, w);
    } else if a.InsertOne? {
      InsertKeepsFences(s, a.c, a.i, w);
    } else {
      assert Do(s, a).clusters == s.clusters && Do(s, a).writesOff == s.writesOff;
    }
  }

  lemma {:induction false} RunKeepsFences(s: State, actions: seq<Action>, s': State, w: State)
    requires FencedAt(s, w) && Run(s, actions, s') && NoCrash(actions)
    ensures FencedAt(s', w)
    decreases |actions|
  {
    if actions != [] {
      StepKeepsFences(s, actions[0], w);
      RunKeepsFences(Do(s, actions[0]), actions[1..], s', w);
    }
  }

  /** A run in which writes-off is in force at the end has a last such step, after which the
      process did not crash. */
  lemma {:induction false} LastWritesOff(s: State, actions: seq<Action>, s': State)
    returns (before: seq<Action>, w: State, after: seq<Action>)
    requires Run(s, actions, s') && !s.writesOff && s'.writesOff
    ensures Run(s, before, w) && Enabled(w, WritesOff) && Run(Do(w, WritesOff), after, s') && NoCrash(after)
    ensures actions == before + [WritesOff] + after
    decreases |actions|
  {
    var n := |actions| - 1;
    var m := LastStep(s, actions, s');
    assert actions == actions[..n] + [actions[n]];
    if actions[n] == WritesOff {
      before, w, after := actions[..n], m, [];
    } else {
      OnlyWritesOffAnnounces(m, actions[n]);
      before, w, after := LastWritesOff(s, actions[..n], m);
      RunStep(Do(w, WritesOff), after, m, actions[n]);
      OneMoreAction(before, after, actions[n]);
      after := after + [actions[n]];
    }
  }

  lemma OneMoreAction(before: seq<Action>, after: seq<Action>, a: Action)
    requires NoCrash(after) && !a.CrashAndRestart?
    ensures NoCrash(after + [a]) && before + [WritesOff] + after + [a] == before + [WritesOff] + (after + [a])
  {
  }

  lemma OnlyWritesOffAnnounces(s: State, a: Action)
    requires Enabled(s, a) && a != WritesOff && Do(s, a).writesOff
    ensures s.writesOff && !a.CrashAndRestart?
  {
  }

  /** A run's last step, and the state it starts from. */
  lemma {:induction false} LastStep(s: State, actions: seq<Action>, s': State) returns (m: State)
    requires Run(s, actions, s') && actions != []
    ensures var n := |actions| - 1; Run(s, actions[..n], m) && Enabled(m, actions[n]) && Do(m, actions[n]) == s'
    decreases |actions|
  {
    if |actions| == 1 {
      m := s;
      assert actions[1..] == [];
    } else {
      m := LastStep(Do(s, actions[0]), actions[1..], s');
      assert actions[..|actions| - 1][1..] == actions[1..][..|actions| - 2];
    }
  }

  /** The driver returns only after writes-off, with no crash since. */
  lemma ReturnFollowsWritesOff(init: State, actions: seq<Action>, s: State)
    returns (before: seq<Action>, w: State, after: seq<Action>)
    requires Init(init) && Run(init, actions, s) && s.phase == Returned
    ensures Run(init, before, w) && Enabled(w, WritesOff) && Run(Do(w, WritesOff), after, s) && NoCrash(after)
    ensures actions == before + [WritesOff] + after
  {
    assert Reachable(s);
    ReachableInv(s);
    before, w, after := LastWritesOff(init, actions, s);
  }

  // ---- The claim of a task ---------------------------------------------------------------

  /** In the run task `t` is claimed at a time when cluster `c` has logged its event `i`. */
  predicate ClaimedAfterEvent(s: State, actions: seq<Action>, t: nat, c: Cluster, i: nat)
    decreases |actions|
  {
    actions != [] && Enabled(s, actions[0]) && (
      || (actions[0] == ClaimDocTask(t) && i < |s.clusters.Get(c).log|)
      || ClaimedAfterEvent(Do(s, actions[0]), actions[1..], t, c, i))
  }

  predicate ClaimedWith(s: State, t: nat, c: Cluster, i: nat) {
    t in s.docs && !s.docs[t].status.Added? && i < Seen(s.docs[t].status, c)
  }

  lemma StepClaims(s: State, a: Action, t: nat, c: Cluster, i: nat)
    requires Enabled(s, a) && ClaimedWith(Do(s, a), t, c, i)
    ensures ClaimedWith(s, t, c, i) || (a == ClaimDocTask(t) && i < |s.clusters.Get(c).log|)
  {
    match a
    case Local(c, step) =>
      var h := LocalStep(s.clusters.Get(c), step);
      assert Do(s, a) == s.(clusters := s.clusters.Set(c, h));
    case _ =>
  }

  lemma {:induction false} RunClaims(s: State, actions: seq<Action>, s': State, t: nat, c: Cluster, i: nat)
    requires Run(s, actions, s') && ClaimedWith(s', t, c, i)
    ensures ClaimedWith(s, t, c, i) || ClaimedAfterEvent(s, actions, t, c, i)
    decreases |actions|
  {
    if actions != [] {
      RunClaims(Do(s, actions[0]), actions[1..], s', t, c, i);
      if ClaimedWith(Do(s, actions[0]), t, c, i) {
        StepClaims(s, actions[0], t, c, i);
      }
    }
  }

  // ---- The guarantee ---------------------------------------------------------------------

  /** A finished task of a later generation than the first holds the document of event `i` and was
      claimed after the event. */
  ghost predicate ComparedInRun(init: State, actions: seq<Action>, s: State, c: Cluster, i: nat, id: DocId) {
    exists t :: t in s.docs && s.docs[t].gen >= 1 && id in s.docs[t].ids && s.docs[t].status.Done?
                && ClaimedAfterEvent(init, actions, t, c, i)
  }

  /** Whatever readers, persistors, workers, the driver and crashes do: if the driver returns, every
      event that either cluster had logged when writes-off was last announced has had its document
      compared, by a task that was claimed after the event was logged. */
  lemma {:induction false} EveryEventBeforeWritesOffIsCompared(
    init: State, before: seq<Action>, w: State, after: seq<Action>, s: State, c: Cluster, i: nat)
    requires Init(init) && Run(init, before, w) && Enabled(w, WritesOff)
    requires Run(Do(w, WritesOff), after, s) && NoCrash(after) && s.phase == Returned
    requires i < |w.clusters.Get(c).log|
    ensures ComparedInRun(init, before + [WritesOff] + after, s, c, i, w.clusters.Get(c).log[i])
  {
    JoinRuns(init, before, w, after, s);
    FencesAtReturn(w, after, s, c);
    EventIsComparedInRun(init, before + [WritesOff] + after, s, c, i);
  }

  lemma {:induction false} FencesAtReturn(w: State, after: seq<Action>, s: State, c: Cluster)
    requires Enabled(w, WritesOff) && Run(Do(w, WritesOff), after, s) && NoCrash(after)
    ensures w.clusters.Get(c).log <= s.clusters.Get(c).log && s.clusters.Get(c).fence == Some(|w.clusters.Get(c).log|)
  {
    assert FencedAt(Do(w, WritesOff), w);
    RunKeepsFences(Do(w, WritesOff), after, s, w);
  }

  lemma {:induction false} EventIsComparedInRun(init: State, actions: seq<Action>, s: State, c: Cluster, i: nat)
    requires Init(init) && Run(init, actions, s) && s.phase == Returned
    requires var f := s.clusters.Get(c).fence; f.Some? && i < f.value
    ensures i < |s.clusters.Get(c).log| && ComparedInRun(init, actions, s, c, i, s.clusters.Get(c).log[i])
  {
    assert Reachable(s);
    EveryWatchedEventIsCompared(s, c, i);
    var id := s.clusters.Get(c).log[i];
    var k: nat :| k >= 1 && Enqueued(c, i, k) in s.enqueued && Compared(s, k, id, c, i + 1);
    var t :| t in s.docs && s.docs[t].gen == k && id in s.docs[t].ids
             && s.docs[t].status.Done? && Seen(s.docs[t].status, c) >= i + 1;
    NotClaimedAtFirst(init, t, c, i);
    RunClaims(init, actions, s, t, c, i);
  }

  lemma NotClaimedAtFirst(init: State, t: nat, c: Cluster, i: nat)
    requires Init(init)
    ensures !ClaimedWith(init, t, c, i)
  {
  }

  lemma {:induction false} JoinRuns(init: State, before: seq<Action>, w: State, after: seq<Action>, s: State)
    requires Init(init) && Run(init, before, w) && Enabled(w, WritesOff) && Run(Do(w, WritesOff), after, s)
    ensures Run(init, before + [WritesOff] + after, s) && Reachable(s)
  {
    RunStep(init, before, w, WritesOff);
    RunJoin(init, before + [WritesOff], Do(w, WritesOff), after, s);
  }

  lemma {:induction false} RunJoin(s: State, first: seq<Action>, m: State, second: seq<Action>, s': State)
    requires Run(s, first, m) && Run(m, second, s')
    ensures Run(s, first + second, s')
    decreases |first|
  {
    if first == [] {
      assert first + second == second;
    } else {
      RunJoin(Do(s, first[0]), first[1..], m, second, s');
      assert (first + second)[1..] == first[1..] + second;
    }
  }
}
