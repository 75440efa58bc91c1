/** The oplog reader's run: read and parse batches of entries until the writes-off time is known,
    then until the last entry handled has reached it. */
module OplogDrain {
  import opened Bson
  import opened OplogEvents
  import opened WritesOffDrain
  import RecheckProtocol

  datatype ParsedBatch = ParsedBatch(events: seq<Event>, tokenTime: Timestamp)

  /** The time of the last entry handled, and what has been sent. */
  datatype OplogPosition = OplogPosition(last: Option<Timestamp>, sent: seq<ParsedBatch>)

  /** An empty batch changes nothing, since a resume token takes an entry to make. */
  function HandleBatch(cfg: Config, p: OplogPosition, entries: seq<Entry>): OplogPosition {
    var parsed := RawBatch(cfg, entries);
    if entries == [] || parsed.Failed? then p
    else OplogPosition(Some(parsed.latest), p.sent + [ParsedBatch(parsed.events, parsed.latest)])
  }

  function HandleAll(cfg: Config, p: OplogPosition, batches: seq<seq<Entry>>): OplogPosition {
    if batches == [] then p
    else HandleBatch(cfg, HandleAll(cfg, p, batches[..|batches| - 1]), batches[|batches| - 1])
  }

  predicate Readable(cfg: Config, batches: seq<seq<Entry>>) {
    forall i | 0 <= i < |batches| :: RawBatch(cfg, batches[i]).Parsed?
  }

  predicate AtFence(p: OplogPosition, fence: Timestamp) { OrZero(p.last) >= fence }

  /** The first `n` batches parse, and lead to `at`. */
  predicate ReadSoFar(cfg: Config, start: OplogPosition, batches: seq<seq<Entry>>, n: nat, at: OplogPosition)
    requires n <= |batches|
  {
    Readable(cfg, batches[..n]) && at == HandleAll(cfg, start, batches[..n])
  }

  /** From `enough` batches on, none short of the first `polls` lead as far as the writes-off time. */
  ghost predicate NotBefore(cfg: Config, start: OplogPosition, batches: seq<seq<Entry>>, enough: nat, polls: nat, fence: Timestamp)
    requires polls <= |batches|
  {
    forall n: nat | enough <= n < polls :: !AtFence(HandleAll(cfg, start, batches[..n]), fence)
  }

  lemma {:induction false} ReadOneMore(cfg: Config, start: OplogPosition, batches: seq<seq<Entry>>, n: nat, at: OplogPosition)
    requires n < |batches| && ReadSoFar(cfg, start, batches, n, at)
    ensures RawBatch(cfg, batches[n]).Parsed? ==> ReadSoFar(cfg, start, batches, n + 1, HandleBatch(cfg, at, batches[n]))
    ensures RawBatch(cfg, batches[n]).Failed? ==> HandleBatch(cfg, at, batches[n]) == at
  {
    assert batches[..n + 1][..n] == batches[..n];
  }

  class OplogReader {
    const cfg: Config
    var last: Option<Timestamp>
    var sent: seq<ParsedBatch>
    var running: bool
    var startAt: Timestamp

    function At(): OplogPosition
      reads this
    {
      OplogPosition(last, sent)
    }

    method ReadAndHandleOneBatch(entries: seq<Entry>) returns (ok: bool)
      modifies this`last, this`sent
      ensures ok == RawBatch(cfg, entries).Parsed?
      ensures At() == HandleBatch(cfg, old(At()), entries)
    {
      if entries == [] {
        return true;
      }
      var parsed := ParseRawOps(cfg, entries);
      if parsed.Failed? {
        return false;
      }
      sent := sent + [ParsedBatch(parsed.events, parsed.latest)];
      last := Some(parsed.latest);
      ok := true;
    }

    /** The whole run of a reader, which is given the writes-off time after `enough` batches. */
    method IterateCursor(batches: seq<seq<Entry>>, enough: nat, fence: Timestamp)
      returns (outcome: Outcome, polls: nat)
      modifies this
      ensures polls <= |batches| && ReadSoFar(cfg, old(At()), batches, polls, At())
      ensures outcome.Finished? <==> enough <= polls && AtFence(At(), fence)
      ensures NotBefore(cfg, old(At()), batches, enough, polls, fence)
      ensures outcome.Refused? ==> polls < |batches| && RawBatch(cfg, batches[polls]).Failed?
      ensures outcome.Cancelled? ==> polls == |batches|
      ensures running == (old(running) && !outcome.Finished?)
      ensures outcome.Finished? ==> outcome.at == OrZero(last) && startAt == if last.Some? then last.value else old(startAt)
    {
      polls := 0;
      assert batches[..0] == [];
      while polls < enough || OrZero(last) < fence
        invariant polls <= |batches| && ReadSoFar(cfg, old(At()), batches, polls, At())
        invariant NotBefore(cfg, old(At()), batches, enough, polls, fence)
        invariant running == old(running) && startAt == old(startAt)
        decreases |batches| - polls
      {
        if polls == |batches| {
          return Cancelled, polls;
        }
        ReadOneMore(cfg, old(At()), batches, polls, At());
        var ok := ReadAndHandleOneBatch(batches[polls]);
        if !ok {
          return Refused, polls;
        }
        polls := polls + 1;
      }
      running := false;
      if last.Some? {
        startAt := last.value;
      }
      outcome := Finished(OrZero(last));
    }
  }

  // ---- What a finished reader has read and sent ------------------------------------------

  predicate DeliversEntries(log: seq<Timestamp>, start: nat, entries: seq<Entry>) {
    && start + |entries| <= |log|
    && forall i | 0 <= i < |entries| :: entries[i].ts == log[start + i]
  }

  lemma {:induction false} LatestIsLast(cfg: Config, entries: seq<Entry>)
    requires entries != [] && RawBatch(cfg, entries).Parsed?
    ensures RawBatch(cfg, entries).latest == entries[|entries| - 1].ts
  {
    EntryTime(cfg, entries[|entries| - 1]);
  }

  lemma EntryTime(cfg: Config, e: Entry)
    requires RawEntry(cfg, e).Parsed?
    ensures RawEntry(cfg, e).latest == e.ts
  {
    if e.Transaction? {
      WritesTime(cfg, e.writes, e.ts);
    }
  }

  lemma {:induction false} WritesTime(cfg: Config, writes: seq<Write>, ts: nat)
    requires RawWrites(cfg, writes, ts).Parsed?
    ensures RawWrites(cfg, writes, ts).latest == ts
  {
    if writes != [] { WritesTime(cfg, writes[..|writes| - 1], ts); }
  }

  /** The time a reader goes by vouches for all that it has read. */
  lemma {:induction false} LastIsTruthful(
    cfg: Config, log: seq<Timestamp>, start: nat, p: OplogPosition, batches: seq<seq<Entry>>)
    requires InOrder(log) && DeliversEntries(log, start, Concat(batches)) && Truthful(log, start, p.last)
    requires Readable(cfg, batches)
    ensures Truthful(log, start + |Concat(batches)|, HandleAll(cfg, p, batches).last)
  {
    if batches != [] {
      var n := |batches| - 1;
      var before := Concat(batches[..n]);
      assert forall i | 0 <= i < |before| :: Concat(batches)[i] == before[i];
      LastIsTruthful(cfg, log, start, p, batches[..n]);
      if batches[n] != [] {
        LatestIsLast(cfg, batches[n]);
        assert Concat(batches)[|Concat(batches)| - 1] == batches[n][|batches[n]| - 1];
      }
    }
  }

  /** A reader that finishes has read every entry before the writes-off time. */
  lemma {:induction false} FinishedOplogReaderHasReadAll(
    cfg: Config, log: seq<Timestamp>, start: nat, p: OplogPosition, batches: seq<seq<Entry>>, fence: Timestamp)
    requires InOrder(log) && DeliversEntries(log, start, Concat(batches)) && Truthful(log, start, p.last)
    requires Readable(cfg, batches) && AtFence(HandleAll(cfg, p, batches), fence)
    ensures CountBefore(log, fence) <= start + |Concat(batches)|
  {
    LastIsTruthful(cfg, log, start, p, batches);
    PassedAllIff(log, start + |Concat(batches)|, fence);
  }

  function EventsInBatches(sent: seq<ParsedBatch>): seq<Event> {
    if sent == [] then [] else EventsInBatches(sent[..|sent| - 1]) + sent[|sent| - 1].events
  }

  /** However the entries are cut into batches, the events sent are those of one parse of them all. */
  lemma {:induction false} CutsDoNotMatter(cfg: Config, p: OplogPosition, batches: seq<seq<Entry>>)
    requires Readable(cfg, batches)
    ensures Sends(cfg, Concat(batches), EventsInBatches(p.sent), EventsInBatches(HandleAll(cfg, p, batches).sent))
  {
    if batches == [] {
      assert RawBatch(cfg, []) == Parsed([], 0);
    } else {
      var n := |batches| - 1;
      CutsDoNotMatter(cfg, p, batches[..n]);
      var q := HandleAll(cfg, p, batches[..n]);
      OneBatchSends(cfg, q, batches[n]);
      SendsMore(cfg, Concat(batches[..n]), batches[n], EventsInBatches(p.sent), EventsInBatches(q.sent),
        EventsInBatches(HandleAll(cfg, p, batches).sent));
    }
  }

  /** Sending what the entries parse to makes `after` of `before`. */
  predicate Sends(cfg: Config, entries: seq<Entry>, before: seq<Event>, after: seq<Event>) {
    var parsed := RawBatch(cfg, entries);
    parsed.Parsed? && after == before + parsed.events
  }

  lemma {:induction false} OneBatchSends(cfg: Config, q: OplogPosition, entries: seq<Entry>)
    requires RawBatch(cfg, entries).Parsed?
    ensures Sends(cfg, entries, EventsInBatches(q.sent), EventsInBatches(HandleBatch(cfg, q, entries).sent))
  {
    if entries != [] {
      assert HandleBatch(cfg, q, entries).sent[..|q.sent|] == q.sent;
    }
  }

  lemma SendsMore(cfg: Config, a: seq<Entry>, b: seq<Entry>, x: seq<Event>, y: seq<Event>, z: seq<Event>)
    requires Sends(cfg, a, x, y) && Sends(cfg, b, y, z)
    ensures Sends(cfg, a + b, x, z)
  {
    JoinBatches(cfg, a, b);
    assert z == x + (RawBatch(cfg, a).events + RawBatch(cfg, b).events);
  }

  lemma {:induction false} JoinBatches(cfg: Config, a: seq<Entry>, b: seq<Entry>)
    requires RawBatch(cfg, a).Parsed? && RawBatch(cfg, b).Parsed?
    ensures Joined(cfg, a, b)
  {
    if b == [] {
      assert a + b == a;
    } else {
      var n := |b| - 1;
      JoinBatches(cfg, a, b[..n]);
      JoinOneMore(cfg, a, b[..n], b[n]);
      assert b == b[..n] + [b[n]];
    }
  }

  predicate Joined(cfg: Config, a: seq<Entry>, b: seq<Entry>)
    requires RawBatch(cfg, a).Parsed? && RawBatch(cfg, b).Parsed?
  {
    IsJoin(RawBatch(cfg, a), RawBatch(cfg, b), RawBatch(cfg, a + b))
  }

  predicate IsJoin(x: Parsed, y: Parsed, whole: Parsed)
    requires x.Parsed? && y.Parsed?
  {
    whole.Parsed? && whole.events == x.events + y.events
  }

  lemma ThenJoins(x: Parsed, y: Parsed, whole: Parsed, last: Parsed)
    requires x.Parsed? && y.Parsed? && last.Parsed? && IsJoin(x, y, whole)
    ensures IsJoin(x, Then(y, last), Then(whole, last))
  {
  }

  lemma {:induction false} JoinOneMore(cfg: Config, a: seq<Entry>, b: seq<Entry>, e: Entry)
    requires RawBatch(cfg, a).Parsed? && RawBatch(cfg, b + [e]).Parsed?
    requires RawBatch(cfg, b).Parsed? && Joined(cfg, a, b)
    ensures Joined(cfg, a, b + [e])
  {
    OneMore(cfg, b, e);
    OneMore(cfg, a + b, e);
    ThenJoins(RawBatch(cfg, a), RawBatch(cfg, b), RawBatch(cfg, a + b), RawEntry(cfg, e));
    assert a + (b + [e]) == (a + b) + [e];
  }

  lemma {:induction false} OneMore(cfg: Config, entries: seq<Entry>, e: Entry)
    ensures RawBatch(cfg, entries + [e]) == Then(RawBatch(cfg, entries), RawEntry(cfg, e))
  {
    assert (entries + [e])[..|entries|] == entries;
  }

  /** So it may close in the generation protocol. */
  lemma {:induction false} FinishedOplogReaderMayClose(
    h: RecheckProtocol.ChangeHandling, cfg: Config, log: seq<Timestamp>, start: nat, p: OplogPosition,
    batches: seq<seq<Entry>>, fence: Timestamp, unlocked: bool)
    requires InOrder(log) && DeliversEntries(log, start, Concat(batches)) && Truthful(log, start, p.last)
    requires Readable(cfg, batches) && AtFence(HandleAll(cfg, p, batches), fence)
    requires Reflects(h, log, fence, start + |Concat(batches)|) && h.signalled
    ensures RecheckProtocol.LocalEnabled(h, RecheckProtocol.CloseReader, unlocked)
  {
    FinishedOplogReaderHasReadAll(cfg, log, start, p, batches, fence);
    PassedAllMayClose(h, log, fence, start + |Concat(batches)|, unlocked);
  }
}
