/** Building the entries of a recheck queue and the batches that insert them. */
module RecheckInsert {
  import opened Bson
  import opened RecheckTasks

  const RECHECK_BATCH_BYTE_LIMIT := 1024 * 1024
  const RECHECK_BATCH_COUNT_LIMIT := 1000

  /** The parallel arrays that describe the documents to recheck. */
  datatype Rechecks = Rechecks(
    namespaces: seq<Namespace>,
    ids: seq<RawValue>,
    dataSizes: seq<nat>,
    firstMismatchTimes: seq<DateTime>,
    changeOrigin: Option<Cluster>,
    changeOpTimes: seq<Timestamp>)
  {
    /** What the source demands: parallel arrays, and either mismatch times or optimes with
        their origin; it panics on both, on neither, and on a destination without optimes. */
    predicate Valid() {
      && |ids| == |dataSizes| == |namespaces|
      && (firstMismatchTimes == []) != (changeOpTimes == [])
      && (changeOpTimes != [] ==> changeOrigin.Some?)
      && (changeOrigin == Some(Dst) ==> changeOpTimes != [])
      && (firstMismatchTimes != [] ==> |firstMismatchTimes| == |namespaces|)
      && (changeOpTimes != [] ==> |changeOpTimes| == |namespaces|)
    }
  }

  /** The batches hold the entries, in order; each is within the limits once its last entry is
      dropped, and of the first `full` each is at a limit. */
  ghost predicate Inserts(batches: seq<seq<RecheckDoc>>, entries: seq<RecheckDoc>, docLen: RecheckDoc -> nat, full: int) {
    && Concat(batches) == entries
    && (forall i | 0 <= i < |batches| :: BatchOk(batches[i], docLen))
    && (forall i | 0 <= i < |batches| && i < full :: AtLimit(batches[i], docLen))
  }

  /** At most a thousand entries, and without the last one at most a mebibyte. */
  predicate BatchOk(batch: seq<RecheckDoc>, docLen: RecheckDoc -> nat) {
    1 <= |batch| <= 1000 && BatchLen(batch[..|batch| - 1], docLen) <= 1_048_576
  }

  predicate AtLimit(batch: seq<RecheckDoc>, docLen: RecheckDoc -> nat) {
    |batch| == 1000 || BatchLen(batch, docLen) > 1_048_576
  }

  function BatchLen(batch: seq<RecheckDoc>, docLen: RecheckDoc -> nat): nat {
    if batch == [] then 0 else BatchLen(batch[..|batch| - 1], docLen) + docLen(batch[|batch| - 1])
  }

  /** The queue entry for document `i`. */
  function EntryFor(r: Rechecks, i: nat): RecheckDoc
    requires r.Valid() && i < |r.ids|
  {
    RecheckDoc(
      r.namespaces[i], r.ids[i], r.dataSizes[i],
      if r.changeOpTimes != [] then Some(r.changeOpTimes[i]) else None,
      r.changeOrigin == Some(Dst),
      if r.firstMismatchTimes != [] then Some(r.firstMismatchTimes[i]) else None)
  }

  function Entries(r: Rechecks, n: nat): (docs: seq<RecheckDoc>)
    requires r.Valid() && n <= |r.ids|
    ensures |docs| == n
  {
    if n == 0 then [] else Entries(r, n - 1) + [EntryFor(r, n - 1)]
  }

  predicate Open(batch: seq<RecheckDoc>, docLen: RecheckDoc -> nat) {
    |batch| < 1000 && !AtLimit(batch, docLen)
  }

  /** Batches sent and the one being filled hold the entries so far. */
  ghost predicate Filling(
    batches: seq<seq<RecheckDoc>>, batch: seq<RecheckDoc>, entries: seq<RecheckDoc>, docLen: RecheckDoc -> nat)
  {
    && Concat(batches) + batch == entries && (batch != [] ==> BatchOk(batch, docLen))
    && forall i | 0 <= i < |batches| :: BatchOk(batches[i], docLen) && AtLimit(batches[i], docLen)
  }

  /** A batch that is not at a limit takes one more entry. */
  lemma {:induction false} BatchNext(batch: seq<RecheckDoc>, doc: RecheckDoc, docLen: RecheckDoc -> nat)
    requires Open(batch, docLen)
    ensures BatchLen(batch + [doc], docLen) == BatchLen(batch, docLen) + docLen(doc)
    ensures BatchOk(batch + [doc], docLen) && (AtLimit(batch + [doc], docLen) || Open(batch + [doc], docLen))
  {
    assert (batch + [doc])[..|batch|] == batch;
  }

  lemma {:induction false} FillNext(batches: seq<seq<RecheckDoc>>, batch: seq<RecheckDoc>, entries: seq<RecheckDoc>,
                                    doc: RecheckDoc, docLen: RecheckDoc -> nat)
    requires Filling(batches, batch, entries, docLen) && Open(batch, docLen)
    ensures Filling(batches, batch + [doc], entries + [doc], docLen)
    ensures BatchLen(batch + [doc], docLen) == BatchLen(batch, docLen) + docLen(doc)
    ensures AtLimit(batch + [doc], docLen) <==> BatchLen(batch, docLen) + docLen(doc) > 1_048_576 || |batch| + 1 >= 1000
    ensures AtLimit(batch + [doc], docLen) || Open(batch + [doc], docLen)
  {
    BatchNext(batch, doc, docLen);
    assert Concat(batches) + (batch + [doc]) == entries + [doc];
  }

  lemma {:induction false} SendFull(batches: seq<seq<RecheckDoc>>, batch: seq<RecheckDoc>, entries: seq<RecheckDoc>,
                                    docLen: RecheckDoc -> nat)
    requires Filling(batches, batch, entries, docLen) && AtLimit(batch, docLen) && batch != []
    ensures Filling(batches + [batch], [], entries, docLen)
  {
    assert (batches + [batch])[..|batches|] == batches;
  }

  lemma {:induction false} SendLast(batches: seq<seq<RecheckDoc>>, batch: seq<RecheckDoc>, entries: seq<RecheckDoc>,
                                    docLen: RecheckDoc -> nat)
    requires Filling(batches, batch, entries, docLen)
    ensures var all := if batch == [] then batches else batches + [batch];
      Inserts(all, entries, docLen, |all| - 1)
  {
    assert (batches + [batch])[..|batches|] == batches;
  }

  method MakeEntry(r: Rechecks, i: nat) returns (doc: RecheckDoc)
    requires r.Valid() && i < |r.ids|
    ensures doc == EntryFor(r, i)
  {
    var changeOpTime, firstMismatchTime := None, None;
    if |r.firstMismatchTimes| > 0 {
      firstMismatchTime := Some(r.firstMismatchTimes[i]);
    }
    if |r.changeOpTimes| > 0 {
      changeOpTime := Some(r.changeOpTimes[i]);
    }
    doc := RecheckDoc(r.namespaces[i], r.ids[i], r.dataSizes[i], changeOpTime, r.changeOrigin == Some(Dst), firstMismatchTime);
  }

  lemma NothingOpen(docLen: RecheckDoc -> nat)
    ensures Filling([], [], [], docLen) && Open([], docLen) && BatchLen([], docLen) == 0
  {
  }

  method InsertRecheckDocs(r: Rechecks, docLen: RecheckDoc -> nat) returns (batches: seq<seq<RecheckDoc>>)
    requires r.Valid()
    ensures Inserts(batches, Entries(r, |r.ids|), docLen, |batches| - 1)
  {
    batches := [];
    var curRechecks: seq<RecheckDoc> := [];
    var curBatchBytes := 0;
    NothingOpen(docLen);
    for i := 0 to |r.namespaces|
      invariant Filling(batches, curRechecks, Entries(r, i), docLen)
      invariant curBatchBytes == BatchLen(curRechecks, docLen) && Open(curRechecks, docLen)
    {
      var doc := MakeEntry(r, i);
      FillNext(batches, curRechecks, Entries(r, i), doc, docLen);
      curRechecks := curRechecks + [doc];
      curBatchBytes := curBatchBytes + docLen(doc);
      assert Filling(batches, curRechecks, Entries(r, i + 1), docLen);
      if curBatchBytes > RECHECK_BATCH_BYTE_LIMIT || |curRechecks| >= RECHECK_BATCH_COUNT_LIMIT {
        SendFull(batches, curRechecks, Entries(r, i + 1), docLen);
        batches := batches + [curRechecks];
        curRechecks, curBatchBytes := [], 0;
        NothingOpen(docLen);
      }
    }
    SendLast(batches, curRechecks, Entries(r, |r.ids|), docLen);
    if |curRechecks| > 0 {
      batches := batches + [curRechecks];
    }
  }

  lemma {:induction false} EntriesAt(r: Rechecks, n: nat, i: nat)
    requires r.Valid() && i < n <= |r.ids|
    ensures Entries(r, n)[i] == EntryFor(r, i)
  {
    if i < n - 1 {
      EntriesAt(r, n - 1, i);
    }
  }

  /** Entry `i` in the document's own terms. */
  lemma {:induction false} EntryOf(r: Rechecks, i: nat)
    requires r.Valid() && i < |r.ids|
    ensures var d := Entries(r, |r.ids|)[i];
      && d.ns == r.namespaces[i] && d.id == r.ids[i] && d.dataSize == r.dataSizes[i]
      && (d.changeOpTime.Some? <==> r.firstMismatchTimes == [])
      && (d.changeOpTime.Some? ==> d.changeOpTime.value == r.changeOpTimes[i] && d.firstMismatchTime.None?)
      && (d.changeOpTime.None? ==> d.firstMismatchTime == Some(r.firstMismatchTimes[i]))
      && (d.fromDst <==> r.changeOrigin == Some(Dst))
  {
    EntriesAt(r, |r.ids|, i);
  }

  /** A queue of such entries is one the task builder can read, and each entry is either a
      change or a mismatch. */
  lemma {:induction false} EntriesAreReadable(r: Rechecks)
    requires r.Valid() && forall id | id in r.ids :: id.bsonType != 0
    ensures Readable(Entries(r, |r.ids|))
    ensures forall d | d in Entries(r, |r.ids|) :: d.changeOpTime.Some? != d.firstMismatchTime.Some?
  {
    var docs := Entries(r, |r.ids|);
    forall d | d in docs
      ensures ReadableEntry(d) && d.changeOpTime.Some? != d.firstMismatchTime.Some?
    {
      var i :| 0 <= i < |docs| && docs[i] == d;
      EntriesAt(r, |r.ids|, i);
    }
  }
}
