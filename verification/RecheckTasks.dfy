/**
 Turning a recheck queue into document tasks: one pass over the queue, sorted by namespace
 and id, that drops adjacent duplicates, cuts on four limits, carries per-document metadata,
 and buffers the tasks into insert requests.
 */
module RecheckTasks {
  import opened Bson
  import opened BsonSizes

  datatype Namespace = Namespace(db: string, coll: string) {
    function FullName(): string { db + "." + coll }
  }

  /** An optime, ordered by `t`, then `i`. */
  datatype Timestamp = Timestamp(t: nat, i: nat) {
    predicate After(other: Timestamp) { t > other.t || (t == other.t && i > other.i) }
  }

  const ZeroTimestamp := Timestamp(0, 0)

  function NewerTimestamp(a: Timestamp, b: Timestamp): Timestamp { if a.After(b) then a else b }

  function IfNotZero(ts: Timestamp): Option<Timestamp> { if ts == ZeroTimestamp then None else Some(ts) }

  type DateTime = int

  /** One entry of a recheck queue. */
  datatype RecheckDoc = RecheckDoc(
    ns: Namespace,
    id: RawValue,
    dataSize: nat,
    changeOpTime: Option<Timestamp>,
    fromDst: bool,
    firstMismatchTime: Option<DateTime>)

  /** What the source demands of a queue: each id is a BSON value, and no entry is both a
      change and a mismatch (the builder panics on one). */
  predicate ReadableEntry(d: RecheckDoc) {
    d.id.bsonType != 0 && (d.changeOpTime.None? || d.firstMismatchTime.None?)
  }

  predicate Readable(queue: seq<RecheckDoc>) { forall d | d in queue :: ReadableEntry(d) }

  datatype Task = Task(
    ids: seq<RawValue>,
    firstMismatchTime: map<int, DateTime>,
    srcTimestamp: Option<Timestamp>,
    dstTimestamp: Option<Timestamp>,
    namespace: string,
    to: string)

  const MAX_TASKS_PER_REQUEST := 500
  const MAX_INSERT_SIZE := 256 * 1024
  const MAX_RECHECK_IDS_BYTES := 1024 * 1024
  const MAX_RECHECK_IDS := 10_000

  /** The task's destination namespace; None: the namespace map lacks the source's. */
  function DestinationOf(nsMap: map<string, string>, namespace: string): Option<string> {
    if |nsMap| == 0 then Some(namespace)
    else if namespace in nsMap then Some(nsMap[namespace])
    else None
  }

  /** The builder's variables for the task being accumulated. */
  datatype Buffer = Buffer(
    ns: Namespace,
    idAccum: seq<RawValue>,
    idsLen: nat,                         // the array sizer's length
    dataSizeAccum: nat,
    firstMismatchTime: map<int, DateTime>,
    latestSrc: Timestamp,
    latestDst: Timestamp,
    lastID: RawValue)

  function EmptyBuffer(ns: Namespace): Buffer {
    Buffer(ns, [], 5, 0, map[], ZeroTimestamp, ZeroTimestamp, NoValue)
  }

  /** The builder's variables for the requests. */
  datatype Requests = Requests(curTasks: seq<Task>, curTasksBytes: nat, sent: seq<seq<Task>>)

  // ------------------------------------------------------------------
  // One step of the pass
  // ------------------------------------------------------------------

  predicate IsSameDoc(buf: Buffer, doc: RecheckDoc) { doc.ns == buf.ns && doc.id == buf.lastID }

  predicate Full(buf: Buffer, partitionSize: nat) {
    |buf.idAccum| >= MAX_RECHECK_IDS || buf.idsLen >= MAX_RECHECK_IDS_BYTES || buf.dataSizeAccum >= partitionSize
  }

  predicate NeedsFlush(buf: Buffer, doc: RecheckDoc, partitionSize: nat) {
    !IsSameDoc(buf, doc) && (doc.ns != buf.ns || Full(buf, partitionSize))
  }

  /** Records `doc` in the buffer; `same`: its document is the buffer's last one. */
  function Accumulate(buf: Buffer, doc: RecheckDoc, same: bool): Buffer {
    var index := |buf.idAccum| - if same then 1 else 0;
    var noted :=
      if doc.changeOpTime.Some? then
        var b := if doc.fromDst then buf.(latestDst := NewerTimestamp(buf.latestDst, doc.changeOpTime.value))
                 else buf.(latestSrc := NewerTimestamp(buf.latestSrc, doc.changeOpTime.value));
        b.(firstMismatchTime := b.firstMismatchTime - {index})
      else if doc.firstMismatchTime.Some? && !same then
        buf.(firstMismatchTime := buf.firstMismatchTime[index := doc.firstMismatchTime.value])
      else buf;
    if same then noted
    else noted.(
      lastID := doc.id,
      idsLen := noted.idsLen + 1 + Digits(|noted.idAccum|) + 1 + |doc.id.value|,
      dataSizeAccum := noted.dataSizeAccum + doc.dataSize,
      idAccum := noted.idAccum + [doc.id])
  }

  function BufferedTask(buf: Buffer, to: string): Task {
    Task(buf.idAccum, buf.firstMismatchTime, IfNotZero(buf.latestSrc), IfNotZero(buf.latestDst),
         buf.ns.FullName(), to)
  }

  /** Buffers a task, and sends the buffered tasks if there are enough. The byte count is
      never reset. */
  function AddTask(r: Requests, task: Task, taskLen: nat): Requests {
    var tasks, bytes := r.curTasks + [task], r.curTasksBytes + taskLen;
    if |tasks| == MAX_TASKS_PER_REQUEST || bytes >= MAX_INSERT_SIZE
    then Requests([], bytes, r.sent + [tasks])
    else Requests(tasks, bytes, r.sent)
  }

  /** The whole state of the pass; `failed`: a namespace has no destination. */
  datatype State = State(buf: Buffer, requests: Requests, failed: bool)

  function PersistBuffered(st: State, nsMap: map<string, string>, taskLen: Task -> nat): State {
    if st.buf.idAccum == [] then st
    else
      var to := DestinationOf(nsMap, st.buf.ns.FullName());
      if to.None? then st.(failed := true)
      else
        var task := BufferedTask(st.buf, to.value);
        st.(requests := AddTask(st.requests, task, taskLen(task)))
  }

  function Step(st: State, doc: RecheckDoc, partitionSize: nat, nsMap: map<string, string>, taskLen: Task -> nat): State {
    if st.failed then st
    else if NeedsFlush(st.buf, doc, partitionSize) then
      var flushed := PersistBuffered(st, nsMap, taskLen);
      if flushed.failed then flushed else flushed.(buf := Accumulate(EmptyBuffer(doc.ns), doc, false))
    else st.(buf := Accumulate(st.buf, doc, IsSameDoc(st.buf, doc)))
  }

  const Start := State(EmptyBuffer(Namespace("", "")), Requests([], 0, []), false)

  function Pass(queue: seq<RecheckDoc>, partitionSize: nat, nsMap: map<string, string>, taskLen: Task -> nat): State {
    if queue == [] then Start
    else Step(Pass(queue[..|queue| - 1], partitionSize, nsMap, taskLen), queue[|queue| - 1], partitionSize, nsMap, taskLen)
  }

  // ------------------------------------------------------------------
  // What the pass should produce
  // ------------------------------------------------------------------

  predicate SameDoc(a: RecheckDoc, b: RecheckDoc) { a.ns == b.ns && a.id == b.id }

  /** The entry is the first of its run of entries for one document. */
  predicate StartsDoc(seg: seq<RecheckDoc>, p: nat)
    requires p < |seg|
  {
    p == 0 || !SameDoc(seg[p - 1], seg[p])
  }

  /** The ids, adjacent duplicates dropped. */
  function Dedup(seg: seq<RecheckDoc>): seq<RawValue> {
    if seg == [] then []
    else
      var n := |seg| - 1;
      Dedup(seg[..n]) + if StartsDoc(seg, n) then [seg[n].id] else []
  }

  /** The sizes of the documents, as their first entries give them. */
  function DataSize(seg: seq<RecheckDoc>): nat {
    if seg == [] then 0
    else
      var n := |seg| - 1;
      DataSize(seg[..n]) + if StartsDoc(seg, n) then seg[n].dataSize else 0
  }

  /** Which id of `Dedup(seg)` the entry belongs to. */
  function DocIndex(seg: seq<RecheckDoc>, p: nat): nat
    requires p < |seg|
  {
    if p == 0 then 0 else DocIndex(seg, p - 1) + if StartsDoc(seg, p) then 1 else 0
  }

  predicate AtLimit(seg: seq<RecheckDoc>, partitionSize: nat) {
    || |Dedup(seg)| >= 10_000
    || ArrayLen(Dedup(seg)) >= 1_048_576
    || DataSize(seg) >= partitionSize
  }

  /** A document has a first-mismatch time exactly when none of its entries is a change, and
      then it is its first entry's. */
  ghost predicate MismatchTimesOk(seg: seq<RecheckDoc>, times: map<int, DateTime>) {
    && (forall i | i in times :: 0 <= i < |Dedup(seg)|)
    && (forall p: nat | p < |seg| && StartsDoc(seg, p) :: TimeOk(seg, times, p))
  }

  /** … for the document that starts at `p`. */
  ghost predicate TimeOk(seg: seq<RecheckDoc>, times: map<int, DateTime>, p: nat)
    requires p < |seg|
  {
    && (DocIndex(seg, p) in times <==>
          && seg[p].firstMismatchTime.Some?
          && forall q: nat | q < |seg| && DocIndex(seg, q) == DocIndex(seg, p) :: seg[q].changeOpTime.None?)
    && (DocIndex(seg, p) in times ==> Some(times[DocIndex(seg, p)]) == seg[p].firstMismatchTime)
  }

  predicate IsChange(d: RecheckDoc, fromDst: bool) { d.changeOpTime.Some? && d.fromDst == fromDst }

  /** `latest` is the newest optime of one cluster's changes; zero if there are none. */
  ghost predicate LatestOk(seg: seq<RecheckDoc>, fromDst: bool, latest: Timestamp) {
    && (forall p: nat | p < |seg| && IsChange(seg[p], fromDst) :: !seg[p].changeOpTime.value.After(latest))
    && (latest == ZeroTimestamp
        || exists p: nat :: p < |seg| && IsChange(seg[p], fromDst) && seg[p].changeOpTime.value == latest)
  }

  ghost predicate OneNamespace(seg: seq<RecheckDoc>, ns: Namespace) { forall d | d in seg :: d.ns == ns }

  /** The task that a stretch of the queue should become. */
  ghost predicate IsTaskFor(task: Task, seg: seq<RecheckDoc>, nsMap: map<string, string>) {
    && seg != [] && OneNamespace(seg, seg[0].ns)
    && task.ids == Dedup(seg)
    && MismatchTimesOk(seg, task.firstMismatchTime)
    && (exists latest :: LatestOk(seg, false, latest) && task.srcTimestamp == IfNotZero(latest))
    && (exists latest :: LatestOk(seg, true, latest) && task.dstTimestamp == IfNotZero(latest))
    && task.namespace == seg[0].ns.FullName()
    && Some(task.to) == DestinationOf(nsMap, task.namespace)
  }

  /** No limit is reached before the stretch's last document. */
  ghost predicate WithinLimits(seg: seq<RecheckDoc>, partitionSize: nat) {
    forall p: nat | 0 < p < |seg| && StartsDoc(seg, p) :: !AtLimit(seg[..p], partitionSize)
  }

  /** A cut between two stretches: not inside a document's entries, and only where the
      namespace changes or a limit is reached. */
  ghost predicate CutOk(a: seq<RecheckDoc>, b: seq<RecheckDoc>, partitionSize: nat) {
    && a != [] && b != []
    && !SameDoc(a[|a| - 1], b[0])
    && (a[|a| - 1].ns != b[0].ns || AtLimit(a, partitionSize))
  }

  /** The queue, cut into the stretches that its tasks come from. */
  ghost predicate Cuts(queue: seq<RecheckDoc>, segs: seq<seq<RecheckDoc>>, partitionSize: nat) {
    && Concat(segs) == queue
    && (forall i | 0 <= i < |segs| :: segs[i] != [] && WithinLimits(segs[i], partitionSize))
    && (forall i | 0 < i < |segs| :: CutOk(segs[i - 1], segs[i], partitionSize))
  }

  ghost predicate TasksFor(tasks: seq<Task>, segs: seq<seq<RecheckDoc>>, nsMap: map<string, string>) {
    |tasks| == |segs| && forall i | 0 <= i < |segs| :: IsTaskFor(tasks[i], segs[i], nsMap)
  }

  // ------------------------------------------------------------------
  // The buffer
  // ------------------------------------------------------------------

  /** The buffer describes the stretch `cur` of the queue, the one being accumulated. */
  ghost predicate Describes(buf: Buffer, cur: seq<RecheckDoc>) {
    && DescribesIds(buf, cur)
    && MismatchTimesOk(cur, buf.firstMismatchTime)
    && LatestOk(cur, false, buf.latestSrc) && LatestOk(cur, true, buf.latestDst)
  }

  ghost predicate DescribesIds(buf: Buffer, cur: seq<RecheckDoc>) {
    && OneNamespace(cur, buf.ns)
    && buf.idAccum == Dedup(cur)
    && buf.idsLen == ArrayLen(Dedup(cur))
    && buf.dataSizeAccum == DataSize(cur)
    && buf.lastID == if cur == [] then NoValue else cur[|cur| - 1].id
  }

  // Facts about one more entry.

  lemma {:induction false} DocIndexBound(seg: seq<RecheckDoc>, p: nat)
    requires p < |seg|
    ensures DocIndex(seg, p) == |Dedup(seg[..p + 1])| - 1
  {
    assert seg[..p + 1][..p] == seg[..p];
    assert StartsDoc(seg[..p + 1], p) == StartsDoc(seg, p);
    if p > 0 {
      DocIndexBound(seg, p - 1);
    } else {
      assert seg[..p] == [];
    }
  }

  lemma {:induction false} DocIndexMonotone(seg: seq<RecheckDoc>, p: nat, q: nat)
    requires p <= q < |seg|
    ensures DocIndex(seg, p) <= DocIndex(seg, q)
    ensures p < q && StartsDoc(seg, q) ==> DocIndex(seg, p) < DocIndex(seg, q)
    decreases q
  {
    if p < q {
      DocIndexMonotone(seg, p, q - 1);
    }
  }

  lemma {:induction false} DocIndexInSeg(seg: seq<RecheckDoc>, p: nat)
    requires p < |seg|
    ensures DocIndex(seg, p) < |Dedup(seg)|
  {
    DocIndexMonotone(seg, p, |seg| - 1);
    DocIndexBound(seg, |seg| - 1);
    assert seg[..|seg|] == seg;
  }

  lemma {:induction false} DocIndexAppend(cur: seq<RecheckDoc>, d: RecheckDoc, p: nat)
    requires p < |cur|
    ensures DocIndex(cur + [d], p) == DocIndex(cur, p) && StartsDoc(cur + [d], p) == StartsDoc(cur, p)
  {
    if p > 0 {
      DocIndexAppend(cur, d, p - 1);
    }
  }

  /** `d` is another entry of the last document of `cur`. */
  predicate Repeats(cur: seq<RecheckDoc>, d: RecheckDoc) { cur != [] && SameDoc(cur[|cur| - 1], d) }

  lemma {:induction false} Appended(cur: seq<RecheckDoc>, d: RecheckDoc)
    ensures Dedup(cur + [d]) == Dedup(cur) + if Repeats(cur, d) then [] else [d.id]
    ensures DataSize(cur + [d]) == DataSize(cur) + if Repeats(cur, d) then 0 else d.dataSize
    ensures StartsDoc(cur + [d], |cur|) == !Repeats(cur, d)
    ensures DocIndex(cur + [d], |cur|) == |Dedup(cur)| - if Repeats(cur, d) then 1 else 0
    ensures forall p: nat | p < |cur| ::
      DocIndex(cur + [d], p) == DocIndex(cur, p) && StartsDoc(cur + [d], p) == StartsDoc(cur, p)
      && DocIndex(cur, p) < |Dedup(cur)|
  {
    assert (cur + [d])[..|cur|] == cur;
    EarlierIndexes(cur, d);
    LastIndex(cur, d);
  }

  lemma {:induction false} EarlierIndexes(cur: seq<RecheckDoc>, d: RecheckDoc)
    ensures forall p: nat | p < |cur| ::
      DocIndex(cur + [d], p) == DocIndex(cur, p) && StartsDoc(cur + [d], p) == StartsDoc(cur, p)
      && DocIndex(cur, p) < |Dedup(cur)|
  {
    forall p: nat | p < |cur|
      ensures DocIndex(cur + [d], p) == DocIndex(cur, p) && StartsDoc(cur + [d], p) == StartsDoc(cur, p)
              && DocIndex(cur, p) < |Dedup(cur)|
    {
      DocIndexAppend(cur, d, p);
      DocIndexInSeg(cur, p);
    }
  }

  lemma {:induction false} LastIndex(cur: seq<RecheckDoc>, d: RecheckDoc)
    ensures StartsDoc(cur + [d], |cur|) == !Repeats(cur, d)
    ensures DocIndex(cur + [d], |cur|) == |Dedup(cur)| - if Repeats(cur, d) then 1 else 0
  {
    if cur != [] {
      DocIndexAppend(cur, d, |cur| - 1);
      DocIndexBound(cur, |cur| - 1);
      assert cur[..|cur|] == cur;
    }
  }

  lemma {:induction false} IdsLenAppend(ids: seq<RawValue>, id: RawValue)
    ensures ArrayLen(ids + [id]) == ArrayLen(ids) + 1 + Digits(|ids|) + 1 + |id.value|
  {
    ArrayElementsAppend(ids, 0, id);
  }

  lemma LatestAppend(cur: seq<RecheckDoc>, d: RecheckDoc, fromDst: bool, latest: Timestamp)
    requires LatestOk(cur, fromDst, latest)
    ensures LatestOk(cur + [d], fromDst,
                     if IsChange(d, fromDst) then NewerTimestamp(latest, d.changeOpTime.value) else latest)
  {
    var next := cur + [d];
    var latest' := if IsChange(d, fromDst) then NewerTimestamp(latest, d.changeOpTime.value) else latest;
    if latest' == latest {
      if latest != ZeroTimestamp {
        var p: nat :| p < |cur| && IsChange(cur[p], fromDst) && cur[p].changeOpTime.value == latest;
        assert IsChange(next[p], fromDst);
      }
    } else {
      assert IsChange(next[|cur|], fromDst);
    }
    forall p: nat | p < |next| && IsChange(next[p], fromDst)
      ensures !next[p].changeOpTime.value.After(latest')
    {
      if p < |cur| {
        assert IsChange(cur[p], fromDst);
      }
    }
  }

  lemma MismatchTimesAppend(cur: seq<RecheckDoc>, d: RecheckDoc, times: map<int, DateTime>)
    requires MismatchTimesOk(cur, times) && ReadableEntry(d)
    ensures MismatchTimesOk(cur + [d], TimesWith(cur, d, times))
  {
    var next, times' := cur + [d], TimesWith(cur, d, times);
    Appended(cur, d);
    assert next[|cur|] == d;
    forall p: nat | p < |next| && StartsDoc(next, p)
      ensures TimeOk(next, times', p)
    {
      if p < |cur| {
        assert next[p] == cur[p] && TimeOk(cur, times, p);
        if DocIndex(next, p) == DocIndex(next, |cur|) {
          assert Repeats(cur, d);
        }
      }
    }
  }

  /** The mismatch times after one more entry. */
  function TimesWith(cur: seq<RecheckDoc>, d: RecheckDoc, times: map<int, DateTime>): map<int, DateTime> {
    var index := |Dedup(cur)| - if Repeats(cur, d) then 1 else 0;
    if d.changeOpTime.Some? then times - {index}
    else if d.firstMismatchTime.Some? && !Repeats(cur, d) then times[index := d.firstMismatchTime.value]
    else times
  }

  lemma AccumulateIds(buf: Buffer, cur: seq<RecheckDoc>, d: RecheckDoc)
    requires DescribesIds(buf, cur) && ReadableEntry(d) && d.ns == buf.ns
    ensures IsSameDoc(buf, d) == Repeats(cur, d)
    ensures DescribesIds(Accumulate(buf, d, IsSameDoc(buf, d)), cur + [d])
  {
    Appended(cur, d);
    IdsLenAppend(Dedup(cur), d.id);
  }

  lemma AccumulateMetadata(buf: Buffer, d: RecheckDoc, same: bool)
    ensures Accumulate(buf, d, same).latestSrc
         == if IsChange(d, false) then NewerTimestamp(buf.latestSrc, d.changeOpTime.value) else buf.latestSrc
    ensures Accumulate(buf, d, same).latestDst
         == if IsChange(d, true) then NewerTimestamp(buf.latestDst, d.changeOpTime.value) else buf.latestDst
  {
  }

  lemma AccumulateDescribes(buf: Buffer, cur: seq<RecheckDoc>, d: RecheckDoc)
    requires Describes(buf, cur) && ReadableEntry(d) && d.ns == buf.ns
    ensures IsSameDoc(buf, d) == Repeats(cur, d)
    ensures Describes(Accumulate(buf, d, IsSameDoc(buf, d)), cur + [d])
  {
    AccumulateIds(buf, cur, d);
    AccumulateMetadata(buf, d, Repeats(cur, d));
    LatestAppend(cur, d, false, buf.latestSrc);
    LatestAppend(cur, d, true, buf.latestDst);
    MismatchTimesAppend(cur, d, buf.firstMismatchTime);
    assert Accumulate(buf, d, Repeats(cur, d)).firstMismatchTime == TimesWith(cur, d, buf.firstMismatchTime);
  }

  // ------------------------------------------------------------------
  // The requests
  // ------------------------------------------------------------------

  function TotalLen(tasks: seq<Task>, taskLen: Task -> nat): nat {
    if tasks == [] then 0 else TotalLen(tasks[..|tasks| - 1], taskLen) + taskLen(tasks[|tasks| - 1])
  }

  /** The first `n` requests: how many tasks they have, and that each was sent because it was
      full. The byte count runs over all tasks built so far, so once it has reached the
      limit every request holds a single task. */
  ghost predicate SentOk(sent: seq<seq<Task>>, n: nat, taskLen: Task -> nat)
    requires n <= |sent|
  {
    && (forall i: nat | i < |sent| :: SizeOk(|sent[i]|, LenBefore(sent, i, taskLen)))
    && (forall i: nat | i < n :: Earned(|sent[i]|, LenBefore(sent, i + 1, taskLen)))
  }

  /** The length of all tasks in the first `i` requests. */
  function LenBefore(sent: seq<seq<Task>>, i: nat, taskLen: Task -> nat): nat
    requires i <= |sent|
  {
    TotalLen(Concat(sent[..i]), taskLen)
  }

  /** A request of `count` tasks, sent after tasks of `before` bytes. */
  predicate SizeOk(count: nat, before: nat) {
    1 <= count <= 500 && (before >= 262_144 ==> count == 1)
  }

  /** A request of `count` tasks, which brings all tasks so far to `after` bytes, was full. */
  predicate Earned(count: nat, after: nat) { count == 500 || after >= 262_144 }

  ghost predicate RequestsOk(r: Requests, taskLen: Task -> nat) {
    && SentOk(r.sent, |r.sent|, taskLen)
    && r.curTasksBytes == TotalLen(Concat(r.sent) + r.curTasks, taskLen)
    && |r.curTasks| < MAX_TASKS_PER_REQUEST
    && (r.curTasks != [] ==> r.curTasksBytes < MAX_INSERT_SIZE)
  }

  lemma {:induction false} TotalLenGrows(a: seq<Task>, b: seq<Task>, taskLen: Task -> nat)
    ensures TotalLen(a, taskLen) <= TotalLen(a + b, taskLen)
    decreases |b|
  {
    if b == [] {
      assert a + b == a;
    } else {
      TotalLenGrows(a, b[..|b| - 1], taskLen);
      assert (a + b)[..|a + b| - 1] == a + b[..|b| - 1];
    }
  }

  lemma LenBeforeAppend(sent: seq<seq<Task>>, tasks: seq<Task>, i: nat, taskLen: Task -> nat)
    requires i <= |sent|
    ensures LenBefore(sent + [tasks], i, taskLen) == LenBefore(sent, i, taskLen)
  {
    assert (sent + [tasks])[..i] == sent[..i];
  }

  lemma SendRequest(sent: seq<seq<Task>>, tasks: seq<Task>, taskLen: Task -> nat, full: bool)
    requires SentOk(sent, |sent|, taskLen)
    requires SizeOk(|tasks|, LenBefore(sent, |sent|, taskLen))
    requires full ==> Earned(|tasks|, LenBefore(sent + [tasks], |sent| + 1, taskLen))
    ensures SentOk(sent + [tasks], if full then |sent| + 1 else |sent|, taskLen)
  {
    var sent' := sent + [tasks];
    forall i: nat | i <= |sent|
      ensures LenBefore(sent', i, taskLen) == LenBefore(sent, i, taskLen)
    {
      LenBeforeAppend(sent, tasks, i, taskLen);
    }
    forall i: nat | i < |sent'|
      ensures SizeOk(|sent'[i]|, LenBefore(sent', i, taskLen))
    {
      assert i < |sent| ==> sent'[i] == sent[i];
    }
    forall i: nat | i < if full then |sent'| else |sent|
      ensures Earned(|sent'[i]|, LenBefore(sent', i + 1, taskLen))
    {
      assert i < |sent| ==> sent'[i] == sent[i] && LenBefore(sent', i + 1, taskLen) == LenBefore(sent, i + 1, taskLen);
    }
  }

  lemma {:induction false} LastLens(sent: seq<seq<Task>>, tasks: seq<Task>, taskLen: Task -> nat)
    ensures LenBefore(sent, |sent|, taskLen) == TotalLen(Concat(sent), taskLen)
    ensures LenBefore(sent + [tasks], |sent| + 1, taskLen) == TotalLen(Concat(sent) + tasks, taskLen)
    ensures Concat(sent + [tasks]) == Concat(sent) + tasks
  {
    var sent' := sent + [tasks];
    assert sent'[..|sent|] == sent && sent'[..|sent'|] == sent' && sent[..|sent|] == sent;
  }

  lemma {:induction false} TotalLenNext(tasks: seq<Task>, task: Task, taskLen: Task -> nat)
    ensures TotalLen(tasks + [task], taskLen) == TotalLen(tasks, taskLen) + taskLen(task)
  {
    assert (tasks + [task])[..|tasks|] == tasks;
  }

  lemma AddTaskOk(r: Requests, task: Task, taskLen: Task -> nat)
    requires RequestsOk(r, taskLen)
    ensures RequestsOk(AddTask(r, task, taskLen(task)), taskLen)
    ensures var r' := AddTask(r, task, taskLen(task));
            Concat(r'.sent) + r'.curTasks == Concat(r.sent) + r.curTasks + [task]
  {
    var tasks, before := r.curTasks + [task], Concat(r.sent) + r.curTasks;
    TotalLenNext(before, task, taskLen);
    assert Concat(r.sent) + tasks == before + [task];
    if |tasks| == MAX_TASKS_PER_REQUEST || r.curTasksBytes + taskLen(task) >= MAX_INSERT_SIZE {
      SendTasksOk(r, tasks, r.curTasksBytes + taskLen(task), taskLen);
    }
  }

  lemma {:induction false} SendTasksOk(r: Requests, tasks: seq<Task>, bytes: nat, taskLen: Task -> nat)
    requires RequestsOk(r, taskLen) && |tasks| == |r.curTasks| + 1 && tasks[..|r.curTasks|] == r.curTasks
    requires bytes == TotalLen(Concat(r.sent) + tasks, taskLen)
    requires |tasks| == MAX_TASKS_PER_REQUEST || bytes >= MAX_INSERT_SIZE
    ensures RequestsOk(Requests([], bytes, r.sent + [tasks]), taskLen)
    ensures Concat(r.sent + [tasks]) + [] == Concat(r.sent) + tasks
  {
    TotalLenGrows(Concat(r.sent), r.curTasks, taskLen);
    LastLens(r.sent, tasks, taskLen);
    SendRequest(r.sent, tasks, taskLen, true);
    NothingBuffered(r.sent, tasks);
  }

  lemma {:induction false} NothingBuffered(sent: seq<seq<Task>>, tasks: seq<Task>)
    ensures Concat(sent + [tasks]) + [] == Concat(sent) + tasks
  {
    assert (sent + [tasks])[..|sent|] == sent;
  }

  // ------------------------------------------------------------------
  // The pass
  // ------------------------------------------------------------------

  ghost predicate Unmapped(queue: seq<RecheckDoc>, nsMap: map<string, string>) {
    exists d :: d in queue && DestinationOf(nsMap, d.ns.FullName()).None?
  }

  /** The stretches finished, and the one being accumulated. */
  ghost predicate CutSoFar(queue: seq<RecheckDoc>, segs: seq<seq<RecheckDoc>>, cur: seq<RecheckDoc>, partitionSize: nat) {
    && Cuts(Concat(segs), segs, partitionSize)
    && Concat(segs) + cur == queue
    && WithinLimits(cur, partitionSize)
    && (segs != [] ==> CutOk(segs[|segs| - 1], cur, partitionSize))
  }

  ghost predicate PassOk(st: State, queue: seq<RecheckDoc>, segs: seq<seq<RecheckDoc>>, cur: seq<RecheckDoc>,
                         partitionSize: nat, nsMap: map<string, string>, taskLen: Task -> nat)
  {
    && Describes(st.buf, cur)
    && CutSoFar(queue, segs, cur, partitionSize)
    && TasksFor(Concat(st.requests.sent) + st.requests.curTasks, segs, nsMap)
    && RequestsOk(st.requests, taskLen)
  }

  lemma {:induction false} DedupNonempty(seg: seq<RecheckDoc>)
    requires seg != []
    ensures Dedup(seg) != []
  {
    DocIndexInSeg(seg, 0);
  }

  lemma CutsAppend(queue: seq<RecheckDoc>, segs: seq<seq<RecheckDoc>>, cur: seq<RecheckDoc>, partitionSize: nat)
    requires CutSoFar(queue, segs, cur, partitionSize) && cur != []
    ensures Cuts(queue, segs + [cur], partitionSize)
  {
    assert (segs + [cur])[..|segs|] == segs;
  }

  lemma BufferedTaskOk(buf: Buffer, cur: seq<RecheckDoc>, nsMap: map<string, string>, to: string)
    requires Describes(buf, cur) && cur != [] && Some(to) == DestinationOf(nsMap, buf.ns.FullName())
    ensures IsTaskFor(BufferedTask(buf, to), cur, nsMap)
  {
    assert buf.ns == cur[0].ns;
  }

  lemma PersistOk(st: State, queue: seq<RecheckDoc>, segs: seq<seq<RecheckDoc>>, cur: seq<RecheckDoc>,
                  nsMap: map<string, string>, taskLen: Task -> nat)
    requires !st.failed && Describes(st.buf, cur) && cur != [] && forall d | d in cur :: d in queue
    requires TasksFor(Concat(st.requests.sent) + st.requests.curTasks, segs, nsMap)
    requires RequestsOk(st.requests, taskLen)
    ensures var st' := PersistBuffered(st, nsMap, taskLen);
            if st'.failed then Unmapped(queue, nsMap)
            else RequestsOk(st'.requests, taskLen)
                 && TasksFor(Concat(st'.requests.sent) + st'.requests.curTasks, segs + [cur], nsMap)
  {
    DedupNonempty(cur);
    var to := DestinationOf(nsMap, st.buf.ns.FullName());
    if to.None? {
      assert cur[0] in queue && cur[0].ns == st.buf.ns;
    } else {
      var task := BufferedTask(st.buf, to.value);
      BufferedTaskOk(st.buf, cur, nsMap, to.value);
      AddTaskOk(st.requests, task, taskLen);
    }
  }

  lemma OneEntryWithinLimits(d: RecheckDoc, partitionSize: nat)
    ensures WithinLimits([d], partitionSize)
  {
  }

  lemma WithinLimitsAppend(cur: seq<RecheckDoc>, d: RecheckDoc, partitionSize: nat)
    requires WithinLimits(cur, partitionSize)
    requires Repeats(cur, d) || cur == [] || !AtLimit(cur, partitionSize)
    ensures WithinLimits(cur + [d], partitionSize)
  {
    var next := cur + [d];
    Appended(cur, d);
    forall p: nat | 0 < p < |next| && StartsDoc(next, p)
      ensures !AtLimit(next[..p], partitionSize)
    {
      assert next[..p] == cur[..p];
      if p == |cur| {
        assert cur[..p] == cur;
      }
    }
  }

  /** One step that finishes a task, when the pass has already seen an entry. */
  lemma FlushStepOk(st: State, queue: seq<RecheckDoc>, segs: seq<seq<RecheckDoc>>, cur: seq<RecheckDoc>, d: RecheckDoc,
                    partitionSize: nat, nsMap: map<string, string>, taskLen: Task -> nat)
    requires !st.failed && PassOk(st, queue, segs, cur, partitionSize, nsMap, taskLen) && cur != [] && ReadableEntry(d)
    requires NeedsFlush(st.buf, d, partitionSize)
    ensures var st' := Step(st, d, partitionSize, nsMap, taskLen);
            if st'.failed then Unmapped(queue, nsMap)
            else PassOk(st', queue + [d], segs + [cur], [d], partitionSize, nsMap, taskLen)
  {
    SameOrNot(st.buf, cur, d);
    assert Concat(segs) + cur == queue;
    PersistOk(st, queue, segs, cur, nsMap, taskLen);
    CutsAppend(queue, segs, cur, partitionSize);
    EmptyDescribes(d.ns);
    AccumulateDescribes(EmptyBuffer(d.ns), [], d);
    assert [] + [d] == [d];
    OneEntryWithinLimits(d, partitionSize);
    CutHere(segs, cur, d, st.buf, partitionSize);
  }

  lemma CutHere(segs: seq<seq<RecheckDoc>>, cur: seq<RecheckDoc>, d: RecheckDoc, buf: Buffer, partitionSize: nat)
    requires DescribesIds(buf, cur) && cur != [] && ReadableEntry(d) && NeedsFlush(buf, d, partitionSize)
    ensures CutOk(cur, [d], partitionSize) && (segs + [cur])[|segs|] == cur
  {
  }

  /** One step, when the pass has already seen an entry. */
  lemma StepOk(st: State, queue: seq<RecheckDoc>, segs: seq<seq<RecheckDoc>>, cur: seq<RecheckDoc>, d: RecheckDoc,
               partitionSize: nat, nsMap: map<string, string>, taskLen: Task -> nat)
    returns (segs': seq<seq<RecheckDoc>>, cur': seq<RecheckDoc>)
    requires !st.failed && PassOk(st, queue, segs, cur, partitionSize, nsMap, taskLen) && cur != [] && ReadableEntry(d)
    ensures var st' := Step(st, d, partitionSize, nsMap, taskLen);
            if st'.failed then Unmapped(queue, nsMap)
            else PassOk(st', queue + [d], segs', cur', partitionSize, nsMap, taskLen) && cur' != []
  {
    if NeedsFlush(st.buf, d, partitionSize) {
      segs', cur' := segs + [cur], [d];
      FlushStepOk(st, queue, segs, cur, d, partitionSize, nsMap, taskLen);
    } else {
      segs', cur' := segs, cur + [d];
      SameOrNot(st.buf, cur, d);
      AccumulateDescribes(st.buf, cur, d);
      WithinLimitsAppend(cur, d, partitionSize);
      assert Concat(segs) + (cur + [d]) == queue + [d];
      assert CutSoFar(queue + [d], segs, cur', partitionSize);
    }
  }

  lemma SameOrNot(buf: Buffer, cur: seq<RecheckDoc>, d: RecheckDoc)
    requires DescribesIds(buf, cur) && cur != [] && ReadableEntry(d)
    ensures IsSameDoc(buf, d) == Repeats(cur, d)
    ensures d.ns == buf.ns <==> d.ns == cur[|cur| - 1].ns
  {
  }

  lemma EmptyDescribes(ns: Namespace)
    ensures Describes(EmptyBuffer(ns), [])
  {
  }

  lemma FirstStepOk(d: RecheckDoc, partitionSize: nat, nsMap: map<string, string>, taskLen: Task -> nat)
    requires ReadableEntry(d)
    ensures !Step(Start, d, partitionSize, nsMap, taskLen).failed
    ensures PassOk(Step(Start, d, partitionSize, nsMap, taskLen), [d], [], [d], partitionSize, nsMap, taskLen)
  {
    EmptyDescribes(d.ns);
    EmptyDescribes(Start.buf.ns);
    AccumulateDescribes(EmptyBuffer(d.ns), [], d);
    OneEntryWithinLimits(d, partitionSize);
    assert [] + [d] == [d];
  }

  lemma {:induction false} PassIsOk(queue: seq<RecheckDoc>, partitionSize: nat, nsMap: map<string, string>, taskLen: Task -> nat)
    returns (segs: seq<seq<RecheckDoc>>, cur: seq<RecheckDoc>)
    requires Readable(queue) && queue != []
    ensures var st := Pass(queue, partitionSize, nsMap, taskLen);
            if st.failed then Unmapped(queue, nsMap)
            else PassOk(st, queue, segs, cur, partitionSize, nsMap, taskLen) && cur != []
  {
    var init, d := queue[..|queue| - 1], queue[|queue| - 1];
    assert queue == init + [d];
    if init == [] {
      segs, cur := [], [d];
      FirstStepOk(d, partitionSize, nsMap, taskLen);
    } else {
      assert forall x | x in init :: x in queue;
      segs, cur := PassIsOk(init, partitionSize, nsMap, taskLen);
      var st := Pass(init, partitionSize, nsMap, taskLen);
      if !st.failed {
        segs, cur := StepOk(st, init, segs, cur, d, partitionSize, nsMap, taskLen);
      }
    }
  }

  // ------------------------------------------------------------------
  // GenerateRecheckTasks
  // ------------------------------------------------------------------

  /** The requests insert, each exactly once and in order, the tasks of a cut of the queue. */
  ghost predicate Generated(queue: seq<RecheckDoc>, requests: seq<seq<Task>>, partitionSize: nat,
                            nsMap: map<string, string>, taskLen: Task -> nat)
  {
    && (exists segs :: Cuts(queue, segs, partitionSize) && TasksFor(Concat(requests), segs, nsMap))
    && SentOk(requests, if requests == [] then 0 else |requests| - 1, taskLen)
  }

  /** Turns the buffered ids, if any, into a task, and sends the buffered tasks if there are enough. */
  method PersistBufferedRechecks(buf: Buffer, curTasks: seq<Task>, curTasksBytes: nat, sent: seq<seq<Task>>,
                                 nsMap: map<string, string>, taskLen: Task -> nat)
    returns (ok: bool, curTasks': seq<Task>, curTasksBytes': nat, sent': seq<seq<Task>>)
    ensures PersistBuffered(State(buf, Requests(curTasks, curTasksBytes, sent), false), nsMap, taskLen)
         == State(buf, Requests(curTasks', curTasksBytes', sent'), !ok)
  {
    ok, curTasks', curTasksBytes', sent' := true, curTasks, curTasksBytes, sent;
    if |buf.idAccum| == 0 {
      return;
    }
    var namespace := buf.ns.FullName();
    var to := DestinationOf(nsMap, namespace);
    if to.None? {
      ok := false;
      return;
    }
    var task := Task(buf.idAccum, buf.firstMismatchTime, IfNotZero(buf.latestSrc), IfNotZero(buf.latestDst),
                     namespace, to.value);
    curTasks' := curTasks' + [task];
    curTasksBytes' := curTasksBytes' + taskLen(task);
    if |curTasks'| == MAX_TASKS_PER_REQUEST || curTasksBytes' >= MAX_INSERT_SIZE {
      sent' := sent' + [curTasks'];
      curTasks' := [];
    }
  }

  /** Records an entry in the task being accumulated. */
  method RecordEntry(buf: Buffer, doc: RecheckDoc, isSameDoc: bool) returns (buf': Buffer)
    ensures buf' == Accumulate(buf, doc, isSameDoc)
  {
    buf' := buf;
    var metadataIndex := |buf.idAccum|;
    if isSameDoc {
      metadataIndex := metadataIndex - 1;
    }
    if doc.changeOpTime.Some? {
      var optime := doc.changeOpTime.value;
      if doc.fromDst {
        buf' := buf'.(latestDst := NewerTimestamp(buf.latestDst, optime));
      } else {
        buf' := buf'.(latestSrc := NewerTimestamp(buf.latestSrc, optime));
      }
      buf' := buf'.(firstMismatchTime := buf.firstMismatchTime - {metadataIndex});
    } else if doc.firstMismatchTime.Some? {
      if !isSameDoc {
        buf' := buf'.(firstMismatchTime := buf.firstMismatchTime[metadataIndex := doc.firstMismatchTime.value]);
      }
    }
    if isSameDoc {
      return;
    }
    buf' := buf'.(lastID := doc.id);
    buf' := buf'.(idsLen := buf.idsLen + 1 + Digits(|buf.idAccum|) + 1 + |doc.id.value|);
    buf' := buf'.(dataSizeAccum := buf.dataSizeAccum + doc.dataSize);
    buf' := buf'.(idAccum := buf.idAccum + [doc.id]);
  }

  /** The whole pass over the queue. `taskLen` gives the length of a task's encoding; `ok` is
      false when a namespace of the queue has no destination. */
  method GenerateRecheckTasks(queue: seq<RecheckDoc>, partitionSize: nat, nsMap: map<string, string>, taskLen: Task -> nat)
    returns (ok: bool, requests: seq<seq<Task>>)
    requires Readable(queue)
    ensures ok <==> !Unmapped(queue, nsMap)
    ensures ok ==> Generated(queue, requests, partitionSize, nsMap, taskLen)
  {
    var buf := EmptyBuffer(Namespace("", ""));
    var curTasks: seq<Task>, curTasksBytes: nat := [], 0;
    requests := [];
    ghost var st := Start;
    for i := 0 to |queue|
      invariant st == Pass(queue[..i], partitionSize, nsMap, taskLen)
      invariant st == State(buf, Requests(curTasks, curTasksBytes, requests), false)
    {
      PassNext(queue, i, partitionSize, nsMap, taskLen);
      var doc := queue[i];
      var isSameNamespace := doc.ns == buf.ns;
      var isSameDoc := isSameNamespace && doc.id == buf.lastID;
      st := Step(st, doc, partitionSize, nsMap, taskLen);
      if !isSameDoc && (!isSameNamespace || |buf.idAccum| >= MAX_RECHECK_IDS
                        || buf.idsLen >= MAX_RECHECK_IDS_BYTES || buf.dataSizeAccum >= partitionSize)
      {
        ok, curTasks, curTasksBytes, requests :=
          PersistBufferedRechecks(buf, curTasks, curTasksBytes, requests, nsMap, taskLen);
        if !ok {
          PassFailed(queue, i, partitionSize, nsMap, taskLen);
          return;
        }
        buf := EmptyBuffer(doc.ns);
      }
      buf := RecordEntry(buf, doc, isSameDoc);
    }
    ok, curTasks, curTasksBytes, requests :=
      PersistBufferedRechecks(buf, curTasks, curTasksBytes, requests, nsMap, taskLen);
    if ok && |curTasks| > 0 {
      requests := requests + [curTasks];
    }
    PassFinishes(queue, st, partitionSize, nsMap, taskLen);
  }

  lemma {:induction false} PassNext(queue: seq<RecheckDoc>, i: nat, partitionSize: nat, nsMap: map<string, string>, taskLen: Task -> nat)
    requires i < |queue|
    ensures Pass(queue[..i + 1], partitionSize, nsMap, taskLen)
         == Step(Pass(queue[..i], partitionSize, nsMap, taskLen), queue[i], partitionSize, nsMap, taskLen)
  {
    assert queue[..i + 1][..i] == queue[..i];
  }

  lemma PassFailed(queue: seq<RecheckDoc>, i: nat, partitionSize: nat, nsMap: map<string, string>, taskLen: Task -> nat)
    requires Readable(queue) && i < |queue| && Pass(queue[..i + 1], partitionSize, nsMap, taskLen).failed
    ensures Unmapped(queue, nsMap)
  {
    var seen := queue[..i + 1];
    assert forall x | x in seen :: x in queue;
    var _, _ := PassIsOk(seen, partitionSize, nsMap, taskLen);
  }

  /** What remains after the last entry: flush the buffer, then send the buffered tasks. */
  function Finished(st: State, nsMap: map<string, string>, taskLen: Task -> nat): seq<seq<Task>> {
    var r := PersistBuffered(st, nsMap, taskLen).requests;
    if r.curTasks == [] then r.sent else r.sent + [r.curTasks]
  }

  lemma {:induction false} PassFinishes(queue: seq<RecheckDoc>, st: State, partitionSize: nat, nsMap: map<string, string>, taskLen: Task -> nat)
    requires Readable(queue)
    requires st == Pass(queue[..|queue|], partitionSize, nsMap, taskLen) && !st.failed
    ensures PersistBuffered(st, nsMap, taskLen).failed <==> Unmapped(queue, nsMap)
    ensures !Unmapped(queue, nsMap) ==> Generated(queue, Finished(st, nsMap, taskLen), partitionSize, nsMap, taskLen)
  {
    assert queue[..|queue|] == queue;
    if queue == [] {
      assert Cuts(queue, [], partitionSize) && TasksFor([], [], nsMap);
      assert Concat(Finished(st, nsMap, taskLen)) == [];
    } else {
      var segs, cur := PassIsOk(queue, partitionSize, nsMap, taskLen);
      FullPassFinishes(queue, st, segs, cur, partitionSize, nsMap, taskLen);
    }
  }

  lemma FullPassFinishes(queue: seq<RecheckDoc>, st: State, segs: seq<seq<RecheckDoc>>, cur: seq<RecheckDoc>,
                         partitionSize: nat, nsMap: map<string, string>, taskLen: Task -> nat)
    requires !st.failed && PassOk(st, queue, segs, cur, partitionSize, nsMap, taskLen) && cur != []
    ensures PersistBuffered(st, nsMap, taskLen).failed <==> Unmapped(queue, nsMap)
    ensures !Unmapped(queue, nsMap) ==> Generated(queue, Finished(st, nsMap, taskLen), partitionSize, nsMap, taskLen)
  {
    assert Concat(segs) + cur == queue;
    assert forall d | d in cur :: d in queue;
    PersistOk(st, queue, segs, cur, nsMap, taskLen);
    CutsAppend(queue, segs, cur, partitionSize);
    var st' := PersistBuffered(st, nsMap, taskLen);
    if !st'.failed {
      var tasks := Concat(st'.requests.sent) + st'.requests.curTasks;
      SendRest(st'.requests, taskLen);
      AllMapped(queue, segs + [cur], tasks, partitionSize, nsMap);
      assert Concat(Finished(st, nsMap, taskLen)) == tasks;
    }
  }

  lemma SendRest(r: Requests, taskLen: Task -> nat)
    requires RequestsOk(r, taskLen)
    ensures var all := if r.curTasks == [] then r.sent else r.sent + [r.curTasks];
            Concat(all) == Concat(r.sent) + r.curTasks && SentOk(all, if all == [] then 0 else |all| - 1, taskLen)
  {
    if r.curTasks == [] {
      assert Concat(r.sent) + [] == Concat(r.sent);
    } else {
      TotalLenGrows(Concat(r.sent), r.curTasks, taskLen);
      LastLens(r.sent, r.curTasks, taskLen);
      SendRequest(r.sent, r.curTasks, taskLen, false);
    }
  }

  lemma AllMapped(queue: seq<RecheckDoc>, segs: seq<seq<RecheckDoc>>, tasks: seq<Task>, partitionSize: nat, nsMap: map<string, string>)
    requires Cuts(queue, segs, partitionSize) && TasksFor(tasks, segs, nsMap)
    ensures !Unmapped(queue, nsMap)
  {
    forall d | d in queue
      ensures DestinationOf(nsMap, d.ns.FullName()).Some?
    {
      var i := SegmentOf(segs, d);
      assert IsTaskFor(tasks[i], segs[i], nsMap);
    }
  }

  lemma {:induction false} SegmentOf<T>(segs: seq<seq<T>>, d: T) returns (i: nat)
    requires d in Concat(segs)
    ensures i < |segs| && d in segs[i]
  {
    i := |segs| - 1;
    if d !in segs[i] {
      i := SegmentOf(segs[..i], d);
    }
  }

  // ------------------------------------------------------------------
  // What the tasks amount to
  // ------------------------------------------------------------------

  function AllIds(tasks: seq<Task>): seq<RawValue> {
    if tasks == [] then [] else AllIds(tasks[..|tasks| - 1]) + tasks[|tasks| - 1].ids
  }

  lemma {:induction false} DedupOneMore(seg: seq<RecheckDoc>, d: RecheckDoc)
    ensures Dedup(seg + [d]) == Dedup(seg) + if Repeats(seg, d) then [] else [d.id]
  {
    assert (seg + [d])[..|seg|] == seg;
    assert StartsDoc(seg + [d], |seg|) == !Repeats(seg, d);
  }

  lemma {:induction false} DedupConcat(a: seq<RecheckDoc>, b: seq<RecheckDoc>)
    requires a != [] && b != [] ==> !SameDoc(a[|a| - 1], b[0])
    ensures Dedup(a + b) == Dedup(a) + Dedup(b)
    decreases |b|
  {
    if b == [] {
      assert a + b == a;
    } else {
      var n := |b| - 1;
      DedupConcat(a, b[..n]);
      DedupBoth(a, b[..n], b[n]);
      LastLast(a, b);
    }
  }

  lemma LastLast<T>(a: seq<T>, b: seq<T>)
    requires b != []
    ensures var n := |b| - 1; b == b[..n] + [b[n]] && a + b == (a + b[..n]) + [b[n]]
  {
  }

  lemma {:induction false} DedupBoth(a: seq<RecheckDoc>, b: seq<RecheckDoc>, d: RecheckDoc)
    requires Dedup(a + b) == Dedup(a) + Dedup(b)
    requires a != [] ==> !SameDoc(a[|a| - 1], if b == [] then d else b[0])
    ensures Dedup((a + b) + [d]) == Dedup(a) + Dedup(b + [d])
  {
    DedupOneMore(b, d);
    DedupOneMore(a + b, d);
    RepeatsAlike(a, b, d);
  }

  lemma {:induction false} RepeatsAlike(a: seq<RecheckDoc>, b: seq<RecheckDoc>, d: RecheckDoc)
    requires a != [] && b == [] ==> !SameDoc(a[|a| - 1], d)
    ensures Repeats(a + b, d) == Repeats(b, d)
  {
    if b == [] {
      assert a + b == a;
    } else {
      assert (a + b)[|a| + |b| - 1] == b[|b| - 1];
    }
  }

  /** The ids of the tasks, end to end, are the queue's ids with adjacent duplicates dropped. */
  lemma {:induction false} TaskIdsAreQueueDeduplicated(queue: seq<RecheckDoc>, segs: seq<seq<RecheckDoc>>, tasks: seq<Task>,
                                                       partitionSize: nat, nsMap: map<string, string>)
    requires Cuts(queue, segs, partitionSize) && TasksFor(tasks, segs, nsMap)
    ensures AllIds(tasks) == Dedup(queue)
    decreases |segs|
  {
    if segs != [] {
      var n := |segs| - 1;
      TaskIdsAreQueueDeduplicated(Concat(segs[..n]), segs[..n], tasks[..n], partitionSize, nsMap);
      if n > 0 {
        LastOfConcat(segs[..n]);
        assert CutOk(segs[n - 1], segs[n], partitionSize);
      }
      DedupConcat(Concat(segs[..n]), segs[n]);
    }
  }

  lemma LastOfConcat<T>(segs: seq<seq<T>>)
    requires segs != [] && segs[|segs| - 1] != []
    ensures Concat(segs) != []
    ensures var last := segs[|segs| - 1]; Concat(segs)[|Concat(segs)| - 1] == last[|last| - 1]
  {
  }

  /** The position where a stretch's last document starts. */
  lemma {:induction false} LastStart(seg: seq<RecheckDoc>) returns (p: nat)
    requires seg != []
    ensures p < |seg| && StartsDoc(seg, p)
    ensures Dedup(seg) == Dedup(seg[..p]) + [seg[p].id]
    ensures DataSize(seg) == DataSize(seg[..p]) + seg[p].dataSize
  {
    var n := |seg| - 1;
    if StartsDoc(seg, n) {
      p := n;
    } else {
      p := LastStart(seg[..n]);
      assert seg[..n][..p] == seg[..p];
    }
  }

  /** A task has at least one id and at most the maximum; without its last id it is under
      both size limits. */
  lemma TaskIsWithinLimits(task: Task, seg: seq<RecheckDoc>, partitionSize: nat, nsMap: map<string, string>)
    returns (p: nat)
    requires IsTaskFor(task, seg, nsMap) && WithinLimits(seg, partitionSize)
    ensures 1 <= |task.ids| <= 10_000
    ensures |task.ids| > 1 ==> ArrayLen(task.ids[..|task.ids| - 1]) < 1_048_576
    ensures |task.ids| > 1 ==>
              p < |seg| && Dedup(seg[..p]) == task.ids[..|task.ids| - 1] && DataSize(seg[..p]) < partitionSize
  {
    p := LastStart(seg);
    assert task.ids[..|task.ids| - 1] == Dedup(seg[..p]);
    if p > 0 {
      assert !AtLimit(seg[..p], partitionSize);
    } else {
      assert seg[..p] == [];
    }
  }

  /** In a queue whose entries are each a change or a mismatch, a task's document has a
      first-mismatch time exactly when none of its entries is a change. */
  lemma {:induction false} MismatchTimeMeansNoChange(task: Task, seg: seq<RecheckDoc>, nsMap: map<string, string>, p: nat)
    requires IsTaskFor(task, seg, nsMap) && p < |seg|
    requires forall d | d in seg :: d.changeOpTime.Some? != d.firstMismatchTime.Some?
    ensures DocIndex(seg, p) < |task.ids| && task.ids[DocIndex(seg, p)] == seg[p].id
    ensures DocIndex(seg, p) in task.firstMismatchTime <==>
              forall q: nat | q < |seg| && DocIndex(seg, q) == DocIndex(seg, p) :: seg[q].changeOpTime.None?
  {
    DocIndexInSeg(seg, p);
    IdAtIndex(seg, p);
    var s := FirstEntry(seg, p);
    assert seg[s] in seg && TimeOk(seg, task.firstMismatchTime, s);
  }

  lemma {:induction false} IdAtIndex(seg: seq<RecheckDoc>, p: nat)
    requires p < |seg|
    ensures DocIndex(seg, p) < |Dedup(seg)| && Dedup(seg)[DocIndex(seg, p)] == seg[p].id
    decreases |seg|
  {
    var n := |seg| - 1;
    assert seg == seg[..n] + [seg[n]];
    if p < n {
      IdAtIndex(seg[..n], p);
    } else if Repeats(seg[..n], seg[n]) {
      IdAtIndex(seg[..n], n - 1);
    }
    IdAfterOneMore(seg[..n], seg[n], p);
  }

  lemma {:induction false} IdAfterOneMore(init: seq<RecheckDoc>, d: RecheckDoc, p: nat)
    requires p <= |init|
    requires p < |init| ==> DocIndex(init, p) < |Dedup(init)| && Dedup(init)[DocIndex(init, p)] == init[p].id
    requires p == |init| && Repeats(init, d) ==>
      DocIndex(init, p - 1) < |Dedup(init)| && Dedup(init)[DocIndex(init, p - 1)] == init[p - 1].id
    ensures var seg := init + [d]; DocIndex(seg, p) < |Dedup(seg)| && Dedup(seg)[DocIndex(seg, p)] == seg[p].id
  {
    Appended(init, d);
    if p == |init| && Repeats(init, d) {
      DocIndexBound(init, p - 1);
      assert init[..p] == init;
    }
  }

  /** The first entry of an entry's document. */
  lemma {:induction false} FirstEntry(seg: seq<RecheckDoc>, p: nat) returns (s: nat)
    requires p < |seg|
    ensures s <= p && StartsDoc(seg, s) && DocIndex(seg, s) == DocIndex(seg, p)
  {
    s := p;
    if !StartsDoc(seg, p) {
      s := FirstEntry(seg, p - 1);
    }
  }

  // ------------------------------------------------------------------
  // The byte count that is never reset
  // ------------------------------------------------------------------

  /** A request is sent with a single task exactly if the bytes of all tasks so far, sent ones
      included, have reached the limit. */
  lemma TaskGoesAloneIff(r: Requests, task: Task, taskLen: nat)
    requires r.curTasks == []
    ensures AddTask(r, task, taskLen).sent == r.sent + [[task]] <==> r.curTasksBytes + taskLen >= 262_144
    ensures AddTask(r, task, taskLen).curTasksBytes == r.curTasksBytes + taskLen
  {
    assert r.curTasks + [task] == [task];
    assert |r.sent| != |r.sent + [[task]]|;
  }

  /** For instance: after one task as large as a request, two small ones go in a request each. */
  lemma SmallTasksGoAlone(a: Task, b: Task, c: Task)
    ensures AddTask(AddTask(AddTask(Requests([], 0, []), a, MAX_INSERT_SIZE), b, 1), c, 1).sent == [[a], [b], [c]]
  {
    var r1 := AddTask(Requests([], 0, []), a, MAX_INSERT_SIZE);
    var r2 := AddTask(r1, b, 1);
    TaskGoesAloneIff(Requests([], 0, []), a, MAX_INSERT_SIZE);
    TaskGoesAloneIff(r1, b, 1);
    TaskGoesAloneIff(r2, c, 1);
    assert [] + [[a]] == [[a]] && [[a]] + [[b]] == [[a], [b]] && [[a], [b]] + [[c]] == [[a], [b], [c]];
  }

  // ------------------------------------------------------------------
  // Namespaces
  // ------------------------------------------------------------------

  /** A task's source namespace is that of its first entry, database and collection with a dot
      between; its destination is the same without a namespace map, and else what the map has. */
  lemma TaskNamespaces(task: Task, seg: seq<RecheckDoc>, nsMap: map<string, string>)
    requires IsTaskFor(task, seg, nsMap)
    ensures task.namespace == seg[0].ns.db + "." + seg[0].ns.coll
    ensures nsMap == map[] ==> task.to == task.namespace
    ensures nsMap != map[] ==> task.namespace in nsMap && task.to == nsMap[task.namespace]
  {
    NoMapping(nsMap);
  }

  lemma NoMapping(nsMap: map<string, string>)
    ensures |nsMap| == 0 <==> nsMap == map[]
  {
  }

  /** The pass fails exactly if there is a map that lacks the namespace of some entry. */
  lemma UnmappedIff(queue: seq<RecheckDoc>, nsMap: map<string, string>)
    ensures Unmapped(queue, nsMap) <==>
      nsMap != map[] && exists d :: d in queue && d.ns.db + "." + d.ns.coll !in nsMap
  {
    NoMapping(nsMap);
    assert forall d: RecheckDoc :: d.ns.FullName() == d.ns.db + "." + d.ns.coll;
  }

  // ------------------------------------------------------------------
  // Optimes
  // ------------------------------------------------------------------

  /** An optime as one number: seconds in the upper 32 bits, the increment in the lower. */
  function Clock(ts: Timestamp): nat { ts.t * 0x1_0000_0000 + ts.i }

  /** Optimes are ordered as those numbers. */
  lemma AfterIsLater(a: Timestamp, b: Timestamp)
    requires a.i < 0x1_0000_0000 && b.i < 0x1_0000_0000
    ensures a.After(b) <==> Clock(a) > Clock(b)
  {
  }

  /** A task's optime of a cluster is the latest of that cluster's changes in the task's stretch of
      the queue: none is later, and it is one of theirs; without it there is none but zeros. */
  lemma TaskHasLatestOptime(task: Task, seg: seq<RecheckDoc>, nsMap: map<string, string>, fromDst: bool, p: nat)
    requires IsTaskFor(task, seg, nsMap) && p < |seg| && seg[p].fromDst == fromDst && seg[p].changeOpTime.Some?
    ensures var latest, own := if fromDst then task.dstTimestamp else task.srcTimestamp, seg[p].changeOpTime.value;
      if latest.None? then own.t == 0 && own.i == 0
      else
        && (own.t < latest.value.t || (own.t == latest.value.t && own.i <= latest.value.i))
        && exists q: nat :: q < |seg| && seg[q].fromDst == fromDst && seg[q].changeOpTime == latest
  {
    var latest :| LatestOk(seg, fromDst, latest)
      && (if fromDst then task.dstTimestamp else task.srcTimestamp) == IfNotZero(latest);
    assert IsChange(seg[p], fromDst) && !seg[p].changeOpTime.value.After(latest);
  }
  /** A task has an optime of a cluster only if one of that cluster's changes in its stretch has it,
      and never the zero one. */
  lemma NoChangeNoOptime(task: Task, seg: seq<RecheckDoc>, nsMap: map<string, string>, fromDst: bool)
    requires IsTaskFor(task, seg, nsMap)
    ensures var latest := if fromDst then task.dstTimestamp else task.srcTimestamp;
      latest.Some? ==>
        && (latest.value.t > 0 || latest.value.i > 0)
        && exists q: nat :: q < |seg| && seg[q].fromDst == fromDst && seg[q].changeOpTime == latest
  {
    var latest :| LatestOk(seg, fromDst, latest)
      && (if fromDst then task.dstTimestamp else task.srcTimestamp) == IfNotZero(latest);
    if latest != ZeroTimestamp {
      assert latest.t > 0 || latest.i > 0;
    }
  }
}
