/** Change events from the oplog: parsed from whole entries, or from entries that the server has
    projected to the parts that matter. */
module OplogEvents {
  import opened Bson

  type Namespace = string

  datatype Kind = Insert | Update | Delete | Other

  /** A document or update description in an entry: its `_id`, if it has one, and its length. */
  datatype Body = Body(id: Option<RawValue>, len: nat)

  /** One write: its kind, namespace, `o`, and the `_id` in its `o2`, if any. */
  datatype Write = Write(kind: Kind, ns: Namespace, o: Body, o2Id: Option<RawValue>)

  datatype Entry =
    | NoOp(ts: nat)
    | Single(ts: nat, write: Write)
    | Transaction(ts: nat, writes: seq<Write>)
    | Command(ts: nat, ns: Namespace, name: Option<string>, collection: Option<string>)

  datatype DdlType = Create | Modify | CreateIndexes | DropIndexes

  datatype OpType = InsertOp | ReplaceOp | UpdateOp | DeleteOp | Ddl(ddl: DdlType) | Unnamed

  datatype Event = Event(opType: OpType, ns: Namespace, docId: Option<RawValue>, docLen: Option<nat>, ts: nat)

  datatype Error = MissingId | UnexpectedOp | NoCommandName | NoCollectionName | UnknownCommand(name: string)

  datatype Parsed = Parsed(events: seq<Event>, latest: nat) | Failed(error: Error)

  /** What to do about DDL. */
  datatype OnDdl = Allow | WarnMost | Refuse

  datatype Config = Config(
    excludedPrefixes: seq<string>,
    namespaces: seq<Namespace>,
    onDdl: OnDdl,
    allowDdlBefore: nat)

  const DEFAULT_DOC_SIZE := 1024

  /** Whether a write's namespace is watched. */
  predicate Watched(cfg: Config, ns: Namespace) {
    && (forall p | p in cfg.excludedPrefixes :: !(p <= ns))
    && (cfg.namespaces != [] ==> ns in cfg.namespaces)
  }

  predicate IsReplacement(w: Write) { w.kind == Update && w.o.id.Some? }

  // ---- Commands: the same for both forms -------------------------------------------------

  /** Commands of index builds that are of no interest. */
  predicate IsDiscarded(command: string) { command == "startIndexBuild" || command == "abortIndexBuild" }

  /** The supported DDL: an index on a collection with documents is created by a commit. */
  function DdlTypeOf(command: string): Option<DdlType> {
    if command == "create" then Some(Create)
    else if command == "collMod" then Some(Modify)
    else if command == "createIndexes" || command == "commitIndexBuild" then Some(CreateIndexes)
    else if command == "dropIndexes" then Some(DropIndexes)
    else None
  }

  function CommandEvents(cfg: Config, e: Entry): Parsed
    requires e.Command?
  {
    if e.name.None? then Failed(NoCommandName)
    else if IsDiscarded(e.name.value) then Parsed([], e.ts)
    else if DdlTypeOf(e.name.value).Some? && !cfg.onDdl.Refuse? then
      if e.collection.None? then Failed(NoCollectionName)
      else Parsed([Event(Ddl(DdlTypeOf(e.name.value).value), Database(e.ns) + e.collection.value, None, None, e.ts)], e.ts)
    else if cfg.onDdl.Allow? || e.ts <= cfg.allowDdlBefore then Parsed([], e.ts)
    else Failed(UnknownCommand(e.name.value))
  }

  /** The database part of a namespace, with its dot. */
  function Database(ns: Namespace): string {
    if ns == "" then "." else if ns[0] == '.' then "." else [ns[0]] + Database(ns[1..])
  }

  // ---- Whole entries ---------------------------------------------------------------------

  function RawWrite(cfg: Config, w: Write, ts: nat): Parsed {
    if !Watched(cfg, w.ns) then Parsed([], ts)
    else
      match w.kind
      case Other => Failed(UnexpectedOp)
      case Insert =>
        if w.o.id.None? then Failed(MissingId)
        else Parsed([Event(InsertOp, w.ns, w.o.id, Some(w.o.len), ts)], ts)
      case Delete =>
        if w.o.id.None? then Failed(MissingId)
        else Parsed([Event(DeleteOp, w.ns, w.o.id, None, ts)], ts)
      case Update =>
        if IsReplacement(w) then Parsed([Event(ReplaceOp, w.ns, w.o.id, Some(w.o.len), ts)], ts)
        else if w.o2Id.None? then Failed(MissingId)
        else Parsed([Event(UpdateOp, w.ns, w.o2Id, None, ts)], ts)
  }

  /** Results one after the other, up to the first failure. */
  function Then(first: Parsed, second: Parsed): Parsed {
    match first
    case Failed(error) => first
    case Parsed(events, _) =>
      match second
      case Failed(error) => second
      case Parsed(more, latest) => Parsed(events + more, latest)
  }

  function RawWrites(cfg: Config, writes: seq<Write>, ts: nat): Parsed {
    if writes == [] then Parsed([], ts)
    else Then(RawWrites(cfg, writes[..|writes| - 1], ts), RawWrite(cfg, writes[|writes| - 1], ts))
  }

  function RawEntry(cfg: Config, e: Entry): Parsed {
    match e
    case NoOp(ts) => Parsed([], ts)
    case Single(ts, write) => RawWrite(cfg, write, ts)
    case Transaction(ts, writes) => RawWrites(cfg, writes, ts)
    case Command(_, _, _, _) => CommandEvents(cfg, e)
  }

  function RawBatch(cfg: Config, entries: seq<Entry>): Parsed {
    if entries == [] then Parsed([], 0)
    else Then(RawBatch(cfg, entries[..|entries| - 1]), RawEntry(cfg, entries[|entries| - 1]))
  }

  method ParseOneDocumentOp(cfg: Config, events: seq<Event>, w: Write, ts: nat) returns (r: Parsed)
    ensures r == Then(Parsed(events, ts), RawWrite(cfg, w, ts))
  {
    if !Watched(cfg, w.ns) {
      return Parsed(events, ts);
    }
    var docId: Option<RawValue>, docLen: Option<nat>, opType := None, None, Unnamed;
    var hasDocument := false;
    match w.kind {
      case Insert => hasDocument, opType := true, InsertOp;
      case Delete =>
        if w.o.id.None? { return Failed(MissingId); }
        docId, opType := w.o.id, DeleteOp;
      case Update =>
        if w.o.id.Some? {
          hasDocument, opType := true, ReplaceOp;
        } else {
          if w.o2Id.None? { return Failed(MissingId); }
          docId, opType := w.o2Id, UpdateOp;
        }
      case Other => return Failed(UnexpectedOp);
    }
    if hasDocument {
      if w.o.id.None? { return Failed(MissingId); }
      docId, docLen := w.o.id, Some(w.o.len);
    }
    return Parsed(events + [Event(opType, w.ns, docId, docLen, ts)], ts);
  }

  method ParseApplyOps(cfg: Config, before: seq<Event>, writes: seq<Write>, ts: nat) returns (r: Parsed)
    ensures r == Then(Parsed(before, ts), RawWrites(cfg, writes, ts))
  {
    r := Parsed(before, ts);
    for i := 0 to |writes|
      invariant r.Parsed? && r == Then(Parsed(before, ts), RawWrites(cfg, writes[..i], ts))
    {
      assert writes[..i + 1][..i] == writes[..i];
      var next := ParseOneDocumentOp(cfg, r.events, writes[i], ts);
      ThenTwice(Parsed(before, ts), RawWrites(cfg, writes[..i], ts), RawWrite(cfg, writes[i], ts));
      if next.Failed? {
        FailsAtOnce(cfg, writes, i + 1, ts);
        return next;
      }
      r := next;
    }
    assert writes[..|writes|] == writes;
  }

  method ParseRawOps(cfg: Config, entries: seq<Entry>) returns (r: Parsed)
    ensures r == RawBatch(cfg, entries)
  {
    r := Parsed([], 0);
    for i := 0 to |entries|
      invariant r.Parsed? && r == RawBatch(cfg, entries[..i])
    {
      assert entries[..i + 1][..i] == entries[..i];
      var e, next := entries[i], r;
      match e {
        case NoOp(ts) => next := Parsed(r.events, ts);
        case Single(ts, write) => next := ParseOneDocumentOp(cfg, r.events, write, ts);
        case Transaction(ts, writes) => next := ParseApplyOps(cfg, r.events, writes, ts);
        case Command(_, _, _, _) => next := Then(r, CommandEvents(cfg, e));
      }
      if next.Failed? {
        BatchFailsAtOnce(cfg, entries, i + 1);
        return next;
      }
      r := next;
    }
    assert entries[..|entries|] == entries;
  }

  lemma ThenTwice(a: Parsed, b: Parsed, c: Parsed)
    ensures Then(Then(a, b), c) == Then(a, Then(b, c))
  {
    if a.Parsed? && b.Parsed? && c.Parsed? {
      assert a.events + b.events + c.events == a.events + (b.events + c.events);
    }
  }

  lemma {:induction false} FailsAtOnce(cfg: Config, writes: seq<Write>, n: nat, ts: nat)
    requires n <= |writes| && RawWrites(cfg, writes[..n], ts).Failed?
    ensures RawWrites(cfg, writes, ts) == RawWrites(cfg, writes[..n], ts)
    decreases |writes| - n
  {
    if n < |writes| {
      assert writes[..n + 1][..n] == writes[..n];
      FailsAtOnce(cfg, writes, n + 1, ts);
    } else {
      assert writes[..n] == writes;
    }
  }

  lemma {:induction false} BatchFailsAtOnce(cfg: Config, entries: seq<Entry>, n: nat)
    requires n <= |entries| && RawBatch(cfg, entries[..n]).Failed?
    ensures RawBatch(cfg, entries) == RawBatch(cfg, entries[..n])
    decreases |entries| - n
  {
    if n < |entries| {
      assert entries[..n + 1][..n] == entries[..n];
      BatchFailsAtOnce(cfg, entries, n + 1);
    } else {
      assert entries[..n] == entries;
    }
  }

  // ---- When a batch parses ---------------------------------------------------------------

  /** A write that is not watched, or names its document: an insert and a delete in `o`, an update
      in `o`, as a replacement, or in `o2`. */
  predicate Nameable(cfg: Config, w: Write) {
    Watched(cfg, w.ns) ==>
      && (w.kind == Insert || w.kind == Delete ==> w.o.id.Some?)
      && (w.kind == Update ==> w.o.id.Some? || w.o2Id.Some?)
      && w.kind != Other
  }

  predicate IsIndexBuildStep(command: string) { command in {"startIndexBuild", "abortIndexBuild"} }

  predicate IsDdl(command: string) {
    command in {"create", "collMod", "createIndexes", "commitIndexBuild", "dropIndexes"}
  }

  /** A command of an index build to be ignored; or a DDL that is allowed or only warned of, and
      names its collection; or any other, if all are allowed or it is an old one. */
  predicate LetThrough(cfg: Config, e: Entry)
    requires e.Command?
  {
    e.name.Some? && (
      || IsIndexBuildStep(e.name.value)
      || (IsDdl(e.name.value) && (cfg.onDdl == Allow || cfg.onDdl == WarnMost) && e.collection.Some?)
      || ((!IsDdl(e.name.value) || cfg.onDdl == Refuse) && (cfg.onDdl == Allow || e.ts <= cfg.allowDdlBefore)))
  }

  predicate Parses(cfg: Config, e: Entry) {
    match e
    case NoOp(_) => true
    case Single(_, w) => Nameable(cfg, w)
    case Transaction(_, writes) => forall w | w in writes :: Nameable(cfg, w)
    case Command(_, _, _, _) => LetThrough(cfg, e)
  }

  lemma {:induction false} WritesParseIff(cfg: Config, writes: seq<Write>, ts: nat)
    ensures RawWrites(cfg, writes, ts).Parsed? <==> forall w | w in writes :: Nameable(cfg, w)
  {
    if writes != [] {
      var n := |writes| - 1;
      WritesParseIff(cfg, writes[..n], ts);
      WriteParsesIff(cfg, writes[n], ts);
      assert forall w :: w in writes <==> w in writes[..n] || w == writes[n];
    }
  }

  lemma WriteParsesIff(cfg: Config, w: Write, ts: nat)
    ensures RawWrite(cfg, w, ts).Parsed? <==> Nameable(cfg, w)
  {
  }

  /** A batch of whole entries parses if and only if every watched write names its document and
      every command is let through. */
  lemma {:induction false} BatchParsesIff(cfg: Config, entries: seq<Entry>)
    ensures RawBatch(cfg, entries).Parsed? <==> forall e | e in entries :: Parses(cfg, e)
  {
    if entries != [] {
      var n := |entries| - 1;
      BatchParsesIff(cfg, entries[..n]);
      EntryParsesIff(cfg, entries[n]);
      assert forall e :: e in entries <==> e in entries[..n] || e == entries[n];
    }
  }

  lemma {:induction false} EntryParsesIff(cfg: Config, e: Entry)
    ensures RawEntry(cfg, e).Parsed? <==> Parses(cfg, e)
  {
    if e.Transaction? {
      WritesParseIff(cfg, e.writes, e.ts);
    } else if e.Command? && e.name.Some? {
      CommandNames(e.name.value);
    }
  }

  lemma CommandNames(command: string)
    ensures IsDiscarded(command) <==> IsIndexBuildStep(command)
    ensures DdlTypeOf(command).Some? <==> IsDdl(command)
    ensures DdlTypeOf("create") == Some(Create) && DdlTypeOf("collMod") == Some(Modify)
    ensures DdlTypeOf("createIndexes") == DdlTypeOf("commitIndexBuild") == Some(CreateIndexes)
    ensures DdlTypeOf("dropIndexes") == Some(DropIndexes)
    ensures IsDdl(command) ==> !IsIndexBuildStep(command)
  {
  }

  /** A supported DDL that is let through is one event, of the collection it names in the database
      that its entry is for; any other command is none. */
  lemma DdlIsOneEvent(cfg: Config, e: Entry, db: string, rest: string)
    requires e.Command? && LetThrough(cfg, e) && '.' !in db && e.ns == db + "." + rest
    ensures RawEntry(cfg, e) ==
      if IsDdl(e.name.value) && cfg.onDdl != Refuse
      then Parsed([Event(Ddl(DdlTypeOf(e.name.value).value), db + "." + e.collection.value, None, None, e.ts)], e.ts)
      else Parsed([], e.ts)
  {
    CommandNames(e.name.value);
    DatabaseIs(db, rest);
  }

  lemma {:induction false} DatabaseIs(db: string, rest: string)
    requires '.' !in db
    ensures Database(db + "." + rest) == db + "."
  {
    if db == "" {
      assert (db + "." + rest)[0] == '.';
    } else {
      DatabaseIs(db[1..], rest);
      assert (db + "." + rest)[0] == db[0] && (db + "." + rest)[1..] == db[1..] + "." + rest;
      assert [db[0]] + (db[1..] + ".") == db + ".";
    }
  }
}
