/** The server-side projection of oplog entries, its parser, and the rechecks both parsers make. */
module OplogProjection {
  import opened Bson
  import opened OplogEvents

  /** A write as projected: what is removed reads as no value and length zero. */
  datatype ProjectedWrite = ProjectedWrite(op: OpType, ns: Namespace, docId: RawValue, docLen: nat)

  datatype ProjectedEntry =
    | ProjectedNoOp(ts: nat)
    | ProjectedSingle(ts: nat, write: ProjectedWrite)
    | ProjectedTransaction(ts: nat, writes: seq<ProjectedWrite>)
    | ProjectedCommand(command: Entry)

  // ---- The projection --------------------------------------------------------------------

  function ValueOrNone(v: Option<RawValue>): RawValue { if v.Some? then v.value else NoValue }

  function DocLenExpr(w: Write): nat { if w.kind == Insert || IsReplacement(w) then w.o.len else 0 }

  function DocIdExpr(w: Write): RawValue {
    match w.kind
    case Insert => ValueOrNone(w.o.id)
    case Delete => ValueOrNone(w.o.id)
    case Update => ValueOrNone(w.o2Id)
    case Other => NoValue
  }

  function OpTypeOf(kind: Kind): OpType {
    match kind case Insert => InsertOp case Update => UpdateOp case Delete => DeleteOp case Other => Unnamed
  }

  function ProjectWrite(w: Write, op: OpType): ProjectedWrite {
    ProjectedWrite(op, w.ns, DocIdExpr(w), DocLenExpr(w))
  }

  /** A transaction's watched writes; unlike single writes they are never relabelled "replace". */
  function ProjectWrites(cfg: Config, writes: seq<Write>): seq<ProjectedWrite> {
    if writes == [] then []
    else
      var first, w := ProjectWrites(cfg, writes[..|writes| - 1]), writes[|writes| - 1];
      if Watched(cfg, w.ns) then first + [ProjectWrite(w, OpTypeOf(w.kind))] else first
  }

  function ProjectEntry(cfg: Config, e: Entry): ProjectedEntry {
    match e
    case NoOp(ts) => ProjectedNoOp(ts)
    case Single(ts, w) => ProjectedSingle(ts, ProjectWrite(w, if IsReplacement(w) then ReplaceOp else OpTypeOf(w.kind)))
    case Transaction(ts, writes) => ProjectedTransaction(ts, ProjectWrites(cfg, writes))
    case Command(_, _, _, _) => ProjectedCommand(e)
  }

  function Project(cfg: Config, entries: seq<Entry>): (r: seq<ProjectedEntry>)
    ensures |r| == |entries|
  {
    seq(|entries|, i requires 0 <= i < |entries| => ProjectEntry(cfg, entries[i]))
  }

  // ---- The parser ------------------------------------------------------------------------

  function EventOf(w: ProjectedWrite, ts: nat): Event { Event(w.op, w.ns, Some(w.docId), Some(w.docLen), ts) }

  function EventsOf(writes: seq<ProjectedWrite>, ts: nat): (r: seq<Event>)
    ensures |r| == |writes|
  {
    seq(|writes|, i requires 0 <= i < |writes| => EventOf(writes[i], ts))
  }

  function ProjectedEvents(cfg: Config, p: ProjectedEntry): Parsed
    requires p.ProjectedCommand? ==> p.command.Command?
  {
    match p
    case ProjectedNoOp(ts) => Parsed([], ts)
    case ProjectedSingle(ts, w) => Parsed([EventOf(w, ts)], ts)
    case ProjectedTransaction(ts, writes) => Parsed(EventsOf(writes, ts), ts)
    case ProjectedCommand(command) => CommandEvents(cfg, command)
  }

  predicate Sound(entries: seq<ProjectedEntry>) {
    forall i | 0 <= i < |entries| :: entries[i].ProjectedCommand? ==> entries[i].command.Command?
  }

  function ProjectedBatch(cfg: Config, entries: seq<ProjectedEntry>): Parsed
    requires Sound(entries)
  {
    if entries == [] then Parsed([], 0)
    else Then(ProjectedBatch(cfg, entries[..|entries| - 1]), ProjectedEvents(cfg, entries[|entries| - 1]))
  }

  method ParseExprProjectedOps(cfg: Config, entries: seq<ProjectedEntry>) returns (r: Parsed)
    requires Sound(entries)
    ensures r == ProjectedBatch(cfg, entries)
  {
    r := Parsed([], 0);
    for i := 0 to |entries|
      invariant r.Parsed? && r == ProjectedBatch(cfg, entries[..i])
    {
      assert entries[..i + 1][..i] == entries[..i];
      var next := r;
      match entries[i] {
        case ProjectedNoOp(ts) => next := Parsed(r.events, ts);
        case ProjectedSingle(ts, w) => next := Parsed(r.events + [EventOf(w, ts)], ts);
        case ProjectedTransaction(ts, writes) => next := Parsed(r.events + EventsOf(writes, ts), ts);
        case ProjectedCommand(command) => next := Then(r, CommandEvents(cfg, command));
      }
      if next.Failed? {
        ProjectedFailsAtOnce(cfg, entries, i + 1);
        return next;
      }
      r := next;
    }
    assert entries[..|entries|] == entries;
  }

  lemma {:induction false} ProjectedFailsAtOnce(cfg: Config, entries: seq<ProjectedEntry>, n: nat)
    requires Sound(entries) && n <= |entries| && ProjectedBatch(cfg, entries[..n]).Failed?
    ensures ProjectedBatch(cfg, entries) == ProjectedBatch(cfg, entries[..n])
    decreases |entries| - n
  {
    if n < |entries| {
      assert entries[..n + 1][..n] == entries[..n];
      ProjectedFailsAtOnce(cfg, entries, n + 1);
    } else {
      assert entries[..n] == entries;
    }
  }

  // ---- Rechecks --------------------------------------------------------------------------

  /** A document to recheck: where, which, how large, and because of what. */
  datatype Recheck = Recheck(ns: Namespace, docId: RawValue, dataSize: nat, ts: nat)

  function SizeOf(docLen: Option<nat>): nat {
    if docLen.Some? && docLen.value > 0 then docLen.value else DEFAULT_DOC_SIZE
  }

  /** The rechecks that events cause; events about no document cause none. */
  function RechecksOf(events: seq<Event>): seq<Recheck> {
    if events == [] then []
    else
      var e := events[|events| - 1];
      RechecksOf(events[..|events| - 1])
      + if e.docId.Some? then [Recheck(e.ns, e.docId.value, SizeOf(e.docLen), e.ts)] else []
  }

  /** The same rechecks, timestamp and outcome; the labels of the events may differ. */
  predicate SameRechecks(a: Parsed, b: Parsed) {
    match a
    case Failed(error) => b == Failed(error)
    case Parsed(events, latest) => b.Parsed? && b.latest == latest && RechecksOf(b.events) == RechecksOf(events)
  }

  /** What the oplog guarantees of a write: inserts and deletes name their document in `o`,
      updates in `o2`, and a replacement names the same one in both. */
  predicate Regular(w: Write) {
    match w.kind
    case Insert => w.o.id.Some?
    case Delete => w.o.id.Some?
    case Update => w.o2Id.Some? && (w.o.id.Some? ==> w.o.id == w.o2Id)
    case Other => false
  }

  /** The query for entries already filters single writes by namespace. */
  predicate RegularEntry(cfg: Config, e: Entry) {
    match e
    case NoOp(_) => true
    case Single(_, w) => Watched(cfg, w.ns) && Regular(w)
    case Transaction(_, writes) => forall w | w in writes :: Watched(cfg, w.ns) ==> Regular(w)
    case Command(_, _, _, _) => true
  }

  lemma {:induction false} RechecksAppend(a: seq<Event>, b: seq<Event>)
    ensures RechecksOf(a + b) == RechecksOf(a) + RechecksOf(b)
    decreases |b|
  {
    if b == [] {
      assert a + b == a;
    } else {
      RechecksAppend(a, b[..|b| - 1]);
      assert (a + b)[..|a + b| - 1] == a + b[..|b| - 1];
    }
  }

  lemma OneRecheck(e: Event)
    requires e.docId.Some?
    ensures RechecksOf([e]) == [Recheck(e.ns, e.docId.value, SizeOf(e.docLen), e.ts)]
  {
    assert [e][..0] == [];
  }

  lemma ThenSame(a: Parsed, b: Parsed, a': Parsed, b': Parsed)
    requires SameRechecks(a, a') && SameRechecks(b, b')
    ensures SameRechecks(Then(a, b), Then(a', b'))
  {
    if a.Parsed? && b.Parsed? {
      RechecksAppend(a.events, b.events);
      RechecksAppend(a'.events, b'.events);
    }
  }

  /** A watched, regular write: one recheck, the same from both forms, whatever its label. */
  lemma WriteAgrees(cfg: Config, w: Write, op: OpType, ts: nat)
    requires Watched(cfg, w.ns) && Regular(w)
    ensures SameRechecks(RawWrite(cfg, w, ts), Parsed([EventOf(ProjectWrite(w, op), ts)], ts))
  {
    OneRecheck(RawWrite(cfg, w, ts).events[0]);
    OneRecheck(EventOf(ProjectWrite(w, op), ts));
  }

  lemma {:induction false} WritesAgree(cfg: Config, writes: seq<Write>, ts: nat)
    requires forall w | w in writes :: Watched(cfg, w.ns) ==> Regular(w)
    ensures SameRechecks(RawWrites(cfg, writes, ts), Parsed(EventsOf(ProjectWrites(cfg, writes), ts), ts))
    decreases |writes|
  {
    if writes != [] {
      var first, w := writes[..|writes| - 1], writes[|writes| - 1];
      WritesAgree(cfg, first, ts);
      var before := EventsOf(ProjectWrites(cfg, first), ts);
      if Watched(cfg, w.ns) {
        var p := ProjectWrite(w, OpTypeOf(w.kind));
        WriteAgrees(cfg, w, OpTypeOf(w.kind), ts);
        ThenSame(RawWrites(cfg, first, ts), RawWrite(cfg, w, ts), Parsed(before, ts), Parsed([EventOf(p, ts)], ts));
        assert EventsOf(ProjectWrites(cfg, writes), ts) == before + [EventOf(p, ts)];
      } else {
        ThenSame(RawWrites(cfg, first, ts), Parsed([], ts), Parsed(before, ts), Parsed([], ts));
        assert before + [] == before;
      }
    }
  }

  /** For every batch of regular entries, the two parsers make the same rechecks in the same
      order, come to the same last timestamp, and fail for the same reason if they fail. */
  lemma {:induction false} ParsersAgree(cfg: Config, entries: seq<Entry>)
    requires forall e | e in entries :: RegularEntry(cfg, e)
    ensures Sound(Project(cfg, entries))
    ensures SameRechecks(RawBatch(cfg, entries), ProjectedBatch(cfg, Project(cfg, entries)))
    decreases |entries|
  {
    if entries != [] {
      var first, e := entries[..|entries| - 1], entries[|entries| - 1];
      var all := Project(cfg, entries);
      ParsersAgree(cfg, first);
      EntryAgrees(cfg, e);
      assert all[..|all| - 1] == Project(cfg, first) && all[|all| - 1] == ProjectEntry(cfg, e);
      ThenSame(RawBatch(cfg, first), RawEntry(cfg, e),
               ProjectedBatch(cfg, Project(cfg, first)), ProjectedEvents(cfg, ProjectEntry(cfg, e)));
    }
  }

  lemma EntryAgrees(cfg: Config, e: Entry)
    requires RegularEntry(cfg, e)
    ensures SameRechecks(RawEntry(cfg, e), ProjectedEvents(cfg, ProjectEntry(cfg, e)))
  {
    match e
    case Single(ts, w) =>
      WriteAgrees(cfg, w, if IsReplacement(w) then ReplaceOp else OpTypeOf(w.kind), ts);
    case Transaction(ts, writes) =>
      WritesAgree(cfg, writes, ts);
    case _ =>
  }

  /** For a replacement it takes equal ids: the parsers make the same recheck exactly then. */
  lemma ReplacementsNeedEqualIds(cfg: Config, w: Write, ts: nat)
    requires Watched(cfg, w.ns) && IsReplacement(w)
    ensures SameRechecks(RawEntry(cfg, Single(ts, w)), ProjectedEvents(cfg, ProjectEntry(cfg, Single(ts, w))))
      <==> w.o.id.value == ValueOrNone(w.o2Id)
  {
    OneRecheck(RawWrite(cfg, w, ts).events[0]);
    OneRecheck(EventOf(ProjectWrite(w, ReplaceOp), ts));
  }

  /** Only the label differs: a replacement inside a transaction counts as an update in the
      projected form. */
  lemma ReplacementInTransactionIsLabelledUpdate(cfg: Config, w: Write, ts: nat)
    requires Watched(cfg, w.ns) && IsReplacement(w) && Regular(w)
    ensures var raw := RawEntry(cfg, Transaction(ts, [w]));
      raw.Parsed? && raw.events != [] && raw.events[0].opType == ReplaceOp
    ensures var projected := ProjectedEvents(cfg, ProjectEntry(cfg, Transaction(ts, [w])));
      projected.Parsed? && projected.events != [] && projected.events[0].opType == UpdateOp
  {
    assert [w][..0] == [];
    assert RawWrites(cfg, [w], ts) == Then(RawWrites(cfg, [], ts), RawWrite(cfg, w, ts));
    assert ProjectWrites(cfg, [w]) == [ProjectWrite(w, UpdateOp)];
  }

  /** What a write makes the verifier recheck: its document, under the write's own namespace and
      time, with the length of the whole document where the write holds one and the default
      otherwise. */
  lemma WriteIsRechecked(cfg: Config, w: Write, ts: nat)
    requires Watched(cfg, w.ns) && Regular(w)
    ensures var raw := RawEntry(cfg, Single(ts, w)); var holdsDocument := w.kind == Insert || IsReplacement(w);
      && raw.Parsed? && raw.latest == ts
      && RechecksOf(raw.events) == [Recheck(
           w.ns,
           if w.kind == Update then w.o2Id.value else w.o.id.value,
           if holdsDocument && w.o.len > 0 then w.o.len else DEFAULT_DOC_SIZE,
           ts)]
  {
    OneRecheck(RawWrite(cfg, w, ts).events[0]);
  }

  // ---- When a projected batch parses -----------------------------------------------------

  /** A batch of projected entries parses if and only if every command in it is let through. */
  lemma {:induction false} ProjectedBatchParsesIff(cfg: Config, entries: seq<ProjectedEntry>)
    requires Sound(entries)
    ensures ProjectedBatch(cfg, entries).Parsed? <==>
      forall i | 0 <= i < |entries| :: entries[i].ProjectedCommand? ==> LetThrough(cfg, entries[i].command)
  {
    if entries != [] {
      var n := |entries| - 1;
      ProjectedBatchParsesIff(cfg, entries[..n]);
      if entries[n].ProjectedCommand? {
        EntryParsesIff(cfg, entries[n].command);
      }
    }
  }

  /** A projected command is read just as a whole one; so a DDL is the same event in both forms. */
  lemma CommandsAreReadAlike(cfg: Config, e: Entry)
    requires e.Command?
    ensures ProjectedEvents(cfg, ProjectEntry(cfg, e)) == RawEntry(cfg, e)
  {
  }

  /** A recheck of unknown or zero size is taken for 1024 bytes. */
  lemma UnknownSizeIs(n: nat)
    ensures SizeOf(None) == 1024 && SizeOf(Some(0)) == 1024
    ensures n > 0 ==> SizeOf(Some(n)) == n
  {
  }

  /** A namespace is watched unless it starts with an excluded prefix, or some are given and it is
      none of them. */
  lemma WatchedIff(cfg: Config, ns: Namespace)
    ensures Watched(cfg, ns) <==>
      && (forall i | 0 <= i < |cfg.excludedPrefixes| ::
            var p := cfg.excludedPrefixes[i]; |p| > |ns| || p != ns[..|p|])
      && (|cfg.namespaces| == 0 || exists i :: 0 <= i < |cfg.namespaces| && cfg.namespaces[i] == ns)
  {
    forall i | 0 <= i < |cfg.excludedPrefixes|
      ensures var p := cfg.excludedPrefixes[i]; p in cfg.excludedPrefixes && (p <= ns <==> |p| <= |ns| && p == ns[..|p|])
    {
    }
  }

  /** Apart from a replacement inside a transaction both forms label a write alike, as what it is. */
  lemma WriteIsLabelled(cfg: Config, w: Write, ts: nat)
    requires Watched(cfg, w.ns) && Regular(w)
    ensures var opType := if w.kind == Insert then InsertOp else if w.kind == Delete then DeleteOp
        else if w.o.id.Some? then ReplaceOp else UpdateOp;
      var raw, projected := RawEntry(cfg, Single(ts, w)), ProjectedEvents(cfg, ProjectEntry(cfg, Single(ts, w)));
      && raw.Parsed? && |raw.events| == 1 && raw.events[0].opType == opType
      && projected.Parsed? && |projected.events| == 1 && projected.events[0].opType == opType
      && raw.events[0].ts == projected.events[0].ts == ts
  {
  }
}
