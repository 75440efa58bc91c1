/** How change readers finish once writes are off. Each has its own way to tell that it has read
    far enough; what the generation protocol needs of them is that a reader which finishes has sent
    every event before the writes-off time. */
module WritesOffDrain {
  import opened Bson
  import OplogEvents
  import RecheckProtocol

  type Timestamp = nat

  datatype OpType = DocumentOp | TolerableDdl | OtherOp

  datatype StreamEvent = StreamEvent(opType: OpType, hasNamespace: bool, time: Option<Timestamp>)

  /** A server's response: events, the server's clock if reported, the resume token's time. */
  datatype Response = Response(events: seq<StreamEvent>, serverTime: Option<Timestamp>, tokenTime: Timestamp)

  /** What is sent to the persistor. */
  datatype Batch = Batch(events: seq<StreamEvent>, tokenTime: Timestamp)

  /** What a reader knows of where it is, and what it has sent. */
  datatype Position =
    Position(lastEvent: Option<Timestamp>, serverTime: Option<Timestamp>, tokenTime: Timestamp, sent: seq<Batch>)

  /** How a reader stops: at its end, on an event it refuses, or cancelled from outside. */
  datatype Outcome = Finished(at: Timestamp) | Refused | Cancelled

  const REQUIRED_IDLE_POLLS := 3

  predicate Accepts(onDdl: OplogEvents.OnDdl, e: StreamEvent) {
    && (e.opType == DocumentOp || onDdl.Allow? || (onDdl.WarnMost? && e.opType == TolerableDdl))
    && e.hasNamespace
  }

  predicate AcceptsAll(onDdl: OplogEvents.OnDdl, events: seq<StreamEvent>) {
    forall e | e in events :: Accepts(onDdl, e)
  }

  function OrZero(t: Option<Timestamp>): Timestamp { if t.Some? then t.value else 0 }

  predicate Reached(t: Option<Timestamp>, fence: Timestamp) { t.Some? && t.value >= fence }

  /** The latest event time seen, where only a later one than the last replaces it. */
  function LastEventAfter(last: Option<Timestamp>, events: seq<StreamEvent>): Option<Timestamp> {
    if events == [] then last
    else
      var before := LastEventAfter(last, events[..|events| - 1]);
      var time := events[|events| - 1].time;
      if time.Some? && OrZero(before) < time.value then time else before
  }

  function Advance(p: Position, r: Response): Position {
    Position(
      LastEventAfter(p.lastEvent, r.events),
      if r.serverTime.Some? then r.serverTime else p.serverTime,
      r.tokenTime,
      p.sent + [Batch(r.events, r.tokenTime)])
  }

  /** Where a reader is after some responses. */
  function After(p: Position, rs: seq<Response>): Position {
    if rs == [] then p else Advance(After(p, rs[..|rs| - 1]), rs[|rs| - 1])
  }

  function EventsOf(rs: seq<Response>): seq<StreamEvent> {
    if rs == [] then [] else EventsOf(rs[..|rs| - 1]) + rs[|rs| - 1].events
  }

  /** The last three polls all came back empty. */
  predicate Idle(rs: seq<Response>) {
    |rs| >= 3 && forall i | |rs| - 3 <= i < |rs| :: rs[i].events == []
  }

  /** Where the drain of a DocumentDB stream ends: an event at the fence or past it has been read,
      or the server's clock has passed the fence and the last polls were empty. */
  predicate Quiesced(p: Position, rs: seq<Response>, fence: Timestamp) {
    && rs != []
    && (Reached(After(p, rs).lastEvent, fence) || (Reached(After(p, rs).serverTime, fence) && Idle(rs)))
  }

  lemma {:induction false} AfterOne(p: Position, rs: seq<Response>, n: nat)
    requires n < |rs|
    ensures After(p, rs[..n + 1]) == Advance(After(p, rs[..n]), rs[n])
  {
    assert rs[..n + 1][..n] == rs[..n];
  }

  // ---- The change stream reader ----------------------------------------------------------

  class ChangeStreamReader {
    const onDdl: OplogEvents.OnDdl
    var lastEvent: Option<Timestamp>
    var serverTime: Option<Timestamp>
    var tokenTime: Timestamp
    var sent: seq<Batch>
    var running: bool
    var startAt: Timestamp

    function At(): Position
      reads this
    {
      Position(lastEvent, serverTime, tokenTime, sent)
    }

    /** Reads one response and sends its events, even if there are none, with the new token. A
        refused event leaves the whole batch unsent. */
    method ReadBatch(r: Response) returns (ok: bool)
      modifies this`lastEvent, this`serverTime, this`tokenTime, this`sent
      ensures ok == AcceptsAll(onDdl, r.events)
      ensures ok ==> At() == Advance(old(At()), r)
      ensures !ok ==> sent == old(sent)
    {
      for i := 0 to |r.events|
        invariant forall j | 0 <= j < i :: Accepts(onDdl, r.events[j])
        invariant lastEvent == LastEventAfter(old(lastEvent), r.events[..i])
        invariant unchanged(this`serverTime, this`sent)
      {
        var e := r.events[i];
        assert e in r.events;
        assert r.events[..i + 1][..i] == r.events[..i];
        if e.opType != DocumentOp {
          if onDdl.Allow? {
          } else if onDdl.WarnMost? && e.opType == TolerableDdl {
          } else {
            return false;
          }
        }
        if !e.hasNamespace {
          return false;
        }
        if e.time.Some? && OrZero(lastEvent) < e.time.value {
          lastEvent := e.time;
        }
      }
      assert r.events[..|r.events|] == r.events;
      if r.serverTime.Some? {
        serverTime := r.serverTime;
      }
      tokenTime := r.tokenTime;
      sent := sent + [Batch(r.events, r.tokenTime)];
      ok := true;
    }

    /** Reads `responses` until the writes-off time is known, which is after `enough` of them. */
    method ReadUntilSignalled(responses: seq<Response>, enough: nat) returns (outcome: Outcome, polls: nat)
      modifies this`lastEvent, this`serverTime, this`tokenTime, this`sent
      ensures Stopped(onDdl, responses, outcome, polls)
      ensures polls <= enough
      ensures outcome.Finished? ==> polls == enough && At() == After(old(At()), responses[..polls])
      ensures sent == After(old(At()), responses[..polls]).sent
    {
      polls := 0;
      assert responses[..0] == [];
      while polls < enough
        invariant polls <= enough && polls <= |responses|
        invariant At() == After(old(At()), responses[..polls])
      {
        if polls == |responses| {
          return Cancelled, polls;
        }
        var ok := ReadBatch(responses[polls]);
        if !ok {
          return Refused, polls;
        }
        AfterOne(old(At()), responses, polls);
        polls := polls + 1;
      }
      outcome := Finished(tokenTime);
    }

    /** Reads on until the resume token has reached the writes-off time. */
    method DrainToToken(responses: seq<Response>, fence: Timestamp) returns (outcome: Outcome, polls: nat)
      modifies this`lastEvent, this`serverTime, this`tokenTime, this`sent
      ensures Stopped(onDdl, responses, outcome, polls)
      ensures sent == After(old(At()), responses[..polls]).sent
      ensures forall n | 0 <= n < polls :: After(old(At()), responses[..n]).tokenTime < fence
      ensures outcome.Finished? <==> After(old(At()), responses[..polls]).tokenTime >= fence
      ensures outcome.Finished? ==> At() == After(old(At()), responses[..polls]) && outcome.at == tokenTime
    {
      polls := 0;
      assert responses[..0] == [];
      while true
        invariant polls <= |responses|
        invariant At() == After(old(At()), responses[..polls])
        invariant forall n | 0 <= n < polls :: After(old(At()), responses[..n]).tokenTime < fence
        decreases |responses| - polls
      {
        if tokenTime >= fence {
          return Finished(tokenTime), polls;
        }
        if polls == |responses| {
          return Cancelled, polls;
        }
        var ok := ReadBatch(responses[polls]);
        if !ok {
          return Refused, polls;
        }
        AfterOne(old(At()), responses, polls);
        polls := polls + 1;
      }
    }

    /** Reads on until an event at or past the writes-off time has been read, or until the server
        is past it and the stream has been idle. */
    method DrainUntilQuiesced(responses: seq<Response>, fence: Timestamp) returns (outcome: Outcome, polls: nat)
      modifies this`lastEvent, this`serverTime, this`tokenTime, this`sent
      ensures Stopped(onDdl, responses, outcome, polls)
      ensures sent == After(old(At()), responses[..polls]).sent
      ensures forall n | 0 <= n < polls :: !Quiesced(old(At()), responses[..n], fence)
      ensures outcome.Finished? <==> Quiesced(old(At()), responses[..polls], fence)
      ensures outcome.Finished? ==>
        && At() == After(old(At()), responses[..polls])
        && Some(outcome.at) == if Reached(lastEvent, fence) then lastEvent else serverTime
    {
      polls := 0;
      var idlePolls := 0;
      assert responses[..0] == [];
      while polls < |responses|
        invariant polls <= |responses|
        invariant At() == After(old(At()), responses[..polls])
        invariant IdleFor(responses[..polls], idlePolls)
        invariant forall n | 0 <= n <= polls :: !Quiesced(old(At()), responses[..n], fence)
      {
        var ok := ReadBatch(responses[polls]);
        if !ok {
          return Refused, polls;
        }
        AfterOne(old(At()), responses, polls);
        IdleOne(responses, polls, idlePolls);
        idlePolls := if responses[polls].events == [] then idlePolls + 1 else 0;
        polls := polls + 1;
        IdleCounts(responses[..polls], idlePolls);
        if Reached(lastEvent, fence) {
          return Finished(lastEvent.value), polls;
        }
        if Reached(serverTime, fence) && idlePolls >= REQUIRED_IDLE_POLLS {
          return Finished(serverTime.value), polls;
        }
      }
      outcome := Cancelled;
    }

    /** Reads on until it has read far enough. */
    method Drain(responses: seq<Response>, fence: Timestamp, isDocumentDb: bool) returns (outcome: Outcome, polls: nat)
      modifies this`lastEvent, this`serverTime, this`tokenTime, this`sent
      ensures Stopped(onDdl, responses, outcome, polls)
      ensures sent == After(old(At()), responses[..polls]).sent
      ensures outcome.Finished? ==> At() == After(old(At()), responses[..polls]) && outcome.at >= fence
      ensures outcome.Finished? ==> Drained(old(At()), responses[..polls], fence, isDocumentDb)
    {
      if isDocumentDb {
        outcome, polls := DrainUntilQuiesced(responses, fence);
      } else {
        outcome, polls := DrainToToken(responses, fence);
      }
    }

    /** The whole run of a reader, which is given the writes-off time after `enough` polls. */
    method IterateChangeStream(responses: seq<Response>, enough: nat, fence: Timestamp, isDocumentDb: bool)
      returns (outcome: Outcome, polls: nat)
      modifies this
      ensures Stopped(onDdl, responses, outcome, polls)
      ensures sent == After(old(At()), responses[..polls]).sent
      ensures outcome.Finished? ==>
        && enough <= polls && At() == After(old(At()), responses[..polls])
        && ReadFarEnough(old(At()), responses[..polls], enough, fence, isDocumentDb)
      ensures outcome.Finished? ==> !running && startAt == outcome.at >= fence
      ensures !outcome.Finished? ==> running == old(running)
    {
      outcome, polls := ReadUntilSignalled(responses, enough);
      if !outcome.Finished? {
        return;
      }
      var more;
      outcome, more := Drain(responses[polls..], fence, isDocumentDb);
      AfterMore(old(At()), responses, polls, more);
      polls := polls + more;
      if outcome.Finished? {
        FarEnough(old(At()), responses, enough, more, fence, isDocumentDb);
        running, startAt := false, outcome.at;
      }
    }
  }

  lemma {:induction false} FarEnough(p: Position, rs: seq<Response>, n: nat, more: nat, fence: Timestamp, isDocumentDb: bool)
    requires n + more <= |rs|
    requires Drained(After(p, rs[..n]), rs[n..][..more], fence, isDocumentDb)
    ensures ReadFarEnough(p, rs[..n + more], n, fence, isDocumentDb)
  {
    AfterMore(p, rs, n, more);
    assert rs[..n + more][n..] == rs[n..][..more] && rs[..n + more][..n] == rs[..n];
  }

  /** A reader stops at its end, at the first response with an event it refuses, or for want of
      responses. */
  predicate Stopped(onDdl: OplogEvents.OnDdl, responses: seq<Response>, outcome: Outcome, polls: nat) {
    && polls <= |responses|
    && (outcome.Cancelled? ==> polls == |responses|)
    && (outcome.Refused? ==> polls < |responses| && !AcceptsAll(onDdl, responses[polls].events))
  }

  /** Where a drain ends. */
  predicate Drained(p: Position, rs: seq<Response>, fence: Timestamp, isDocumentDb: bool) {
    if isDocumentDb then Quiesced(p, rs, fence) else After(p, rs).tokenTime >= fence
  }

  /** Whether a reader may finish after some responses, the writes-off time being known after `enough`. */
  predicate ReadFarEnough(p: Position, rs: seq<Response>, enough: nat, fence: Timestamp, isDocumentDb: bool)
    requires enough <= |rs|
  {
    if isDocumentDb then Quiesced(After(p, rs[..enough]), rs[enough..], fence) else After(p, rs).tokenTime >= fence
  }

  /** Exactly the last `idlePolls` polls were empty. */
  predicate IdleFor(rs: seq<Response>, idlePolls: nat) {
    && idlePolls <= |rs|
    && (forall i | |rs| - idlePolls <= i < |rs| :: rs[i].events == [])
    && (idlePolls < |rs| ==> rs[|rs| - idlePolls - 1].events != [])
  }

  lemma IdleOne(rs: seq<Response>, n: nat, idlePolls: nat)
    requires n < |rs| && IdleFor(rs[..n], idlePolls)
    ensures IdleFor(rs[..n + 1], if rs[n].events == [] then idlePolls + 1 else 0)
  {
    assert forall i | 0 <= i < n :: rs[..n][i] == rs[..n + 1][i];
  }

  lemma IdleCounts(rs: seq<Response>, idlePolls: nat)
    requires IdleFor(rs, idlePolls)
    ensures Idle(rs) <==> idlePolls >= REQUIRED_IDLE_POLLS
  {
  }

  lemma {:induction false} AfterMore(p: Position, rs: seq<Response>, n: nat, more: nat)
    requires n + more <= |rs|
    ensures After(p, rs[..n + more]) == After(After(p, rs[..n]), rs[n..][..more])
  {
    if more > 0 {
      AfterMore(p, rs, n, more - 1);
      assert rs[..n + more][..n + more - 1] == rs[..n + more - 1];
      assert rs[n..][..more][..more - 1] == rs[n..][..more - 1];
    } else {
      assert rs[..n + more] == rs[..n];
    }
  }

  // ---- What a finished reader has read ---------------------------------------------------

  /** The times of a cluster's watched events, in order. */
  predicate InOrder(log: seq<Timestamp>) { forall i, j | 0 <= i < j < |log| :: log[i] <= log[j] }

  /** How many events precede a time. */
  function CountBefore(log: seq<Timestamp>, fence: Timestamp): nat {
    if log == [] then 0 else CountBefore(log[..|log| - 1], fence) + if log[|log| - 1] < fence then 1 else 0
  }

  /** From a place of the log on, nothing is earlier than `time`. */
  predicate NothingEarlier(log: seq<Timestamp>, place: nat, time: Timestamp) {
    forall i | place <= i < |log| :: log[i] >= time
  }

  /** Passing a place of the log means passing as many events as precede the writes-off time, if
      and only if none of those is still to come. */
  lemma {:induction false} PassedAllIff(log: seq<Timestamp>, place: nat, fence: Timestamp)
    requires InOrder(log) && place <= |log|
    ensures CountBefore(log, fence) <= place <==> NothingEarlier(log, place, fence)
    ensures CountBefore(log, fence) <= |log|
  {
    if log != [] {
      var n := |log| - 1;
      var rest := log[..n];
      PassedAllIff(rest, if place > n then n else place, fence);
      if log[n] < fence {
        AllBefore(rest, fence);
      } else {
        assert NothingEarlier(log, place, fence) <==> NothingEarlier(rest, if place > n then n else place, fence);
      }
    }
  }

  lemma {:induction false} AllBefore(log: seq<Timestamp>, fence: Timestamp)
    requires forall i | 0 <= i < |log| :: log[i] < fence
    ensures CountBefore(log, fence) == |log|
  {
    if log != [] { AllBefore(log[..|log| - 1], fence); }
  }

  /** The events are those of the log from `start` on, without a gap. */
  predicate Delivers(log: seq<Timestamp>, start: nat, events: seq<StreamEvent>) {
    && start + |events| <= |log|
    && forall i | 0 <= i < |events| :: events[i].time == Some(log[start + i])
  }

  /** What a reader goes by is true: no event earlier than its last event time, if it has one. */
  predicate Truthful(log: seq<Timestamp>, place: nat, last: Option<Timestamp>) {
    last.Some? ==> NothingEarlier(log, place, last.value)
  }

  lemma {:induction false} LastEventIsTruthful(log: seq<Timestamp>, start: nat, last: Option<Timestamp>, events: seq<StreamEvent>)
    requires InOrder(log) && Delivers(log, start, events) && Truthful(log, start, last)
    ensures Truthful(log, start + |events|, LastEventAfter(last, events))
  {
    if events != [] {
      LastEventIsTruthful(log, start, last, events[..|events| - 1]);
    }
  }

  lemma {:induction false} TruthfulAfter(log: seq<Timestamp>, start: nat, p: Position, rs: seq<Response>)
    requires InOrder(log) && Delivers(log, start, EventsOf(rs)) && Truthful(log, start, p.lastEvent)
    ensures Truthful(log, start + |EventsOf(rs)|, After(p, rs).lastEvent)
  {
    if rs != [] {
      var n := |rs| - 1;
      var before := EventsOf(rs[..n]);
      assert forall i | 0 <= i < |before| :: EventsOf(rs)[i] == before[i];
      assert forall i | 0 <= i < |rs[n].events| :: EventsOf(rs)[|before| + i] == rs[n].events[i];
      TruthfulAfter(log, start, p, rs[..n]);
      LastEventIsTruthful(log, start + |before|, After(p, rs[..n]).lastEvent, rs[n].events);
    }
  }

  /** A reader that finishes has read every event before the writes-off time, as the generation
      protocol requires of one that closes its channel: on MongoDB because resume tokens vouch for
      what precedes them, on DocumentDB because of an event read at that time or later. Only for an
      end by idleness does it take the assumption that nothing is missing. */
  lemma {:induction false} FinishedReaderHasReadAll(
    log: seq<Timestamp>, start: nat, p: Position, rs: seq<Response>, enough: nat, fence: Timestamp, isDocumentDb: bool)
    requires InOrder(log) && Delivers(log, start, EventsOf(rs)) && Truthful(log, start, p.lastEvent)
    requires enough <= |rs| && ReadFarEnough(p, rs, enough, fence, isDocumentDb)
    requires !isDocumentDb ==> NothingEarlier(log, start + |EventsOf(rs)|, After(p, rs).tokenTime)
    requires isDocumentDb && !Reached(After(p, rs).lastEvent, fence) ==> NothingEarlier(log, start + |EventsOf(rs)|, fence)
    ensures CountBefore(log, fence) <= start + |EventsOf(rs)|
  {
    var place := start + |EventsOf(rs)|;
    TruthfulAfter(log, start, p, rs);
    assert NothingEarlier(log, place, fence);
    PassedAllIff(log, place, fence);
  }

  /** And it has sent them. */
  lemma {:induction false} ReadIsSent(p: Position, rs: seq<Response>)
    ensures EventsSent(After(p, rs).sent) == EventsSent(p.sent) + EventsOf(rs)
  {
    if rs != [] {
      var n := |rs| - 1;
      ReadIsSent(p, rs[..n]);
      var sent := After(p, rs[..n]).sent;
      assert (sent + [Batch(rs[n].events, rs[n].tokenTime)])[..|sent|] == sent;
    }
  }

  function EventsSent(batches: seq<Batch>): seq<StreamEvent> {
    if batches == [] then [] else EventsSent(batches[..|batches| - 1]) + batches[|batches| - 1].events
  }

  /** The assumption is needed: idleness is no proof. Three empty polls of a server that is past
      the writes-off time end the drain, whether or not an earlier event is still to come. */
  lemma IdleReaderMayMissEvents()
    returns (log: seq<Timestamp>, p: Position, rs: seq<Response>, fence: Timestamp)
    ensures InOrder(log) && Delivers(log, 0, EventsOf(rs)) && Truthful(log, 0, p.lastEvent)
    ensures ReadFarEnough(p, rs, 0, fence, true)
    ensures CountBefore(log, fence) > |EventsOf(rs)|
  {
    var r := Response([], Some(5), 5);
    log, p, rs, fence := [4], Position(None, None, 0, []), [r, r, r], 5;
    assert rs[..2] == [r, r] && rs[..2][..1] == [r] && rs[0..] == rs;
    assert EventsOf([r]) == [] && EventsOf([r, r]) == [] by {
      assert [r][..0] == [] && [r, r][..1] == [r];
    }
    assert Reached(After(p, rs).serverTime, fence);
    assert CountBefore([4], 5) == 1;
  }

  // ---- What that is to the generation protocol -------------------------------------------

  /** A cluster's change handling as the generation protocol sees it: its events are those of the
      log, its writes-off time is given by the number of events before it, and its reader has come
      to `place`. */
  predicate Reflects(h: RecheckProtocol.ChangeHandling, log: seq<Timestamp>, fence: Timestamp, place: nat) {
    |h.log| == |log| && h.fence == Some(CountBefore(log, fence)) && h.read == place
  }

  /** A reader that has passed as many events as precede the writes-off time, and has been given
      that time, may close in the protocol; and no other may. */
  lemma {:induction false} PassedAllMayClose(h: RecheckProtocol.ChangeHandling, log: seq<Timestamp>, fence: Timestamp, place: nat, unlocked: bool)
    requires InOrder(log) && Reflects(h, log, fence, place) && h.signalled && place <= |log|
    ensures RecheckProtocol.LocalEnabled(h, RecheckProtocol.CloseReader, unlocked) <==> CountBefore(log, fence) <= place
    ensures RecheckProtocol.LocalEnabled(h, RecheckProtocol.CloseReader, unlocked) <==> NothingEarlier(log, place, fence)
  {
    PassedAllIff(log, place, fence);
  }

  /** So a change stream reader that finishes may close. */
  lemma {:induction false} FinishedReaderMayClose(h: RecheckProtocol.ChangeHandling, log: seq<Timestamp>, start: nat, p: Position,
                               rs: seq<Response>, enough: nat, fence: Timestamp, isDocumentDb: bool, unlocked: bool)
    requires InOrder(log) && Delivers(log, start, EventsOf(rs)) && Truthful(log, start, p.lastEvent)
    requires enough <= |rs| && ReadFarEnough(p, rs, enough, fence, isDocumentDb)
    requires !isDocumentDb ==> NothingEarlier(log, start + |EventsOf(rs)|, After(p, rs).tokenTime)
    requires isDocumentDb && !Reached(After(p, rs).lastEvent, fence) ==> NothingEarlier(log, start + |EventsOf(rs)|, fence)
    requires Reflects(h, log, fence, start + |EventsOf(rs)|) && h.signalled
    ensures RecheckProtocol.LocalEnabled(h, RecheckProtocol.CloseReader, unlocked)
  {
    FinishedReaderHasReadAll(log, start, p, rs, enough, fence, isDocumentDb);
    PassedAllMayClose(h, log, fence, start + |EventsOf(rs)|, unlocked);
  }

  // ---- The last event time ---------------------------------------------------------------

  /** It is the latest of the events' times and the one before: none is later, and it is one of them. */
  lemma {:induction false} LastEventIsLatest(last: Option<Timestamp>, events: seq<StreamEvent>)
    ensures OrZero(LastEventAfter(last, events)) >= OrZero(last)
    ensures forall e | e in events && e.time.Some? :: e.time.value <= OrZero(LastEventAfter(last, events))
    ensures LastEventAfter(last, events) == last || exists e :: e in events && e.time == LastEventAfter(last, events)
  {
    if events != [] {
      var n := |events| - 1;
      LastEventIsLatest(last, events[..n]);
      assert forall e :: e in events <==> e in events[..n] || e == events[n];
    }
  }
}
