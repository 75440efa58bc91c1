/** A document task on real documents: the comparator's keys and its comparison are those of the
    documents' fields. */
module DocumentTask {
  import opened Bson
  import opened ComparatorModel
  import opened ComparatorResults
  import MapKey
  import BsonEquivalence
  import BsonCompare
  import DocumentCompare
  import opened VerifyTask
  import opened NaturalPartition

  /** How a task reads documents: the parsed form of their bytes, the values of their key fields,
      and the difference that a finding is reported as. */
  datatype Reading = Reading(
    how: DocumentCompare.How,
    parse: seq<Byte> -> BsonCompare.Value,
    keyValues: BsonCompare.Value -> seq<RawValue>,
    render: DocumentCompare.Finding -> Difference)

  /** A document as readers send it: it has an `_id`, no field twice, and the key of its fields. */
  predicate Proper(r: Reading, d: Doc) {
    var v := r.parse(d.body);
    && v.Doc? && BsonEquivalence.WellFormed(v) && DocumentCompare.IdOf(r.how, v).Some?
    && (forall k | k in r.keyValues(v) :: MapKey.WellFormed(k))
    && d.key == MapKey.KeyOf(r.keyValues(v))
  }

  /** The comparator reports of two documents what their comparison finds. */
  ghost predicate Compares(r: Reading, m: Method, s: Doc, d: Doc)
    requires Proper(r, s) && Proper(r, d)
  {
    exists outcome, found ::
      && DocumentCompare.Answers(r.how, r.parse(s.body), r.parse(d.body), outcome, found)
      && outcome.Found? && m.compare(s.body, d.body) == Rendered(r, outcome.findings)
  }

  function Rendered(r: Reading, findings: seq<DocumentCompare.Finding>): (ds: seq<Difference>)
    ensures |ds| == |findings|
  {
    seq(|findings|, i requires 0 <= i < |findings| => r.render(findings[i]))
  }

  /** The same document on both clusters: the same values in the key fields, and the same fields,
      in any order where order is ignored. */
  ghost predicate Same(r: Reading, s: Doc, d: Doc) {
    && r.keyValues(r.parse(s.body)) == r.keyValues(r.parse(d.body))
    && DocumentCompare.SameDocument(r.how, r.parse(s.body), r.parse(d.body))
  }

  ghost predicate Faithful(r: Reading, m: Method, src: seq<Doc>, dst: seq<Doc>) {
    && (forall s | s in src :: Proper(r, s))
    && (forall d | d in dst :: Proper(r, d))
    && (forall s, d | s in src && d in dst :: Compares(r, m, s, d))
  }

  lemma SameKeyIff(r: Reading, s: Doc, d: Doc)
    requires Proper(r, s) && Proper(r, d)
    ensures s.key == d.key <==> r.keyValues(r.parse(s.body)) == r.keyValues(r.parse(d.body))
  {
    if s.key == d.key {
      MapKey.KeysAreInjective(r.keyValues(r.parse(s.body)), r.keyValues(r.parse(d.body)));
    }
  }

  lemma NoDifferenceIff(r: Reading, m: Method, s: Doc, d: Doc)
    requires Proper(r, s) && Proper(r, d) && Compares(r, m, s, d)
    ensures m.compare(s.body, d.body) == [] <==>
      DocumentCompare.SameDocument(r.how, r.parse(s.body), r.parse(d.body))
  {
  }

  /** Every document of the source has its like on the destination. */
  ghost predicate AllHaveLikes(r: Reading, src: seq<Doc>, dst: seq<Doc>) {
    forall s | s in src :: exists d :: d in dst && Same(r, s, d)
  }

  /** And every one of the destination its like on the source. */
  ghost predicate AllAreLikes(r: Reading, src: seq<Doc>, dst: seq<Doc>) {
    forall d | d in dst :: exists s :: s in src && Same(r, s, d)
  }

  /** An exact verdict, in the documents' own terms: the task completes if and only if both
      clusters have the same documents. */
  lemma CompletedIffSameDocuments(r: Reading, m: Method, src: seq<Doc>, dst: seq<Doc>, v: Verdict)
    requires NoKeyTwice(src) && NoKeyTwice(dst) && Faithful(r, m, src, dst)
    requires IsVerdictOn(v, m, src, dst)
    ensures v.status == Completed <==> AllHaveLikes(r, src, dst) && AllAreLikes(r, src, dst)
  {
    IndexIsKeyed(src);
    IndexIsKeyed(dst);
    AgreementMeans(m, Index(src), Index(dst));
    if v.status == Completed {
      AgreeingHaveLikes(r, m, src, dst);
      AgreeingAreLikes(r, m, src, dst);
    } else if AllHaveLikes(r, src, dst) && AllAreLikes(r, src, dst) {
      LikesAgree(r, m, src, dst);
      LikesHaveKeys(r, m, src, dst);
    }
  }

  /** The maps' keys are those of the documents; documents under one key show no difference. */
  ghost predicate Agreeing(m: Method, src: seq<Doc>, dst: seq<Doc>) {
    && Index(src).Keys == Index(dst).Keys
    && forall k | k in Index(src) && k in Index(dst) :: m.compare(Index(src)[k].body, Index(dst)[k].body) == []
  }

  lemma PeerOf(docs: seq<Doc>, k: Key) returns (d: Doc)
    requires NoKeyTwice(docs) && k in Index(docs)
    ensures d in docs && d.key == k && Index(docs)[k] == d
  {
    IndexKeys(docs, k);
    var i :| 0 <= i < |docs| && docs[i].key == k;
    d := docs[i];
    IndexHolds(docs, d);
  }

  lemma AgreeingHaveLikes(r: Reading, m: Method, src: seq<Doc>, dst: seq<Doc>)
    requires NoKeyTwice(src) && NoKeyTwice(dst) && Faithful(r, m, src, dst) && Agreeing(m, src, dst)
    ensures AllHaveLikes(r, src, dst)
  {
    forall s | s in src ensures exists d :: d in dst && Same(r, s, d) {
      IndexHolds(src, s);
      var d := PeerOf(dst, s.key);
      SameKeyIff(r, s, d);
      NoDifferenceIff(r, m, s, d);
    }
  }

  lemma AgreeingAreLikes(r: Reading, m: Method, src: seq<Doc>, dst: seq<Doc>)
    requires NoKeyTwice(src) && NoKeyTwice(dst) && Faithful(r, m, src, dst) && Agreeing(m, src, dst)
    ensures AllAreLikes(r, src, dst)
  {
    forall d | d in dst ensures exists s :: s in src && Same(r, s, d) {
      IndexHolds(dst, d);
      var s := PeerOf(src, d.key);
      SameKeyIff(r, s, d);
      NoDifferenceIff(r, m, s, d);
    }
  }

  lemma {:induction false} LikesAgree(r: Reading, m: Method, src: seq<Doc>, dst: seq<Doc>)
    requires NoKeyTwice(src) && NoKeyTwice(dst) && Faithful(r, m, src, dst) && AllHaveLikes(r, src, dst)
    ensures forall k | k in Index(src) ::
      k in Index(dst) && m.compare(Index(src)[k].body, Index(dst)[k].body) == []
  {
    forall k | k in Index(src)
      ensures k in Index(dst) && m.compare(Index(src)[k].body, Index(dst)[k].body) == []
    {
      var s := PeerOf(src, k);
      var d :| d in dst && Same(r, s, d);
      SamePair(r, m, src, dst, s, d);
    }
  }

  lemma {:induction false} LikesHaveKeys(r: Reading, m: Method, src: seq<Doc>, dst: seq<Doc>)
    requires NoKeyTwice(src) && NoKeyTwice(dst) && Faithful(r, m, src, dst) && AllAreLikes(r, src, dst)
    ensures forall k | k in Index(dst) :: k in Index(src)
  {
    forall k | k in Index(dst) ensures k in Index(src) {
      var d := PeerOf(dst, k);
      var s :| s in src && Same(r, s, d);
      SamePair(r, m, src, dst, s, d);
    }
  }

  lemma {:induction false} SamePair(r: Reading, m: Method, src: seq<Doc>, dst: seq<Doc>, s: Doc, d: Doc)
    requires NoKeyTwice(src) && NoKeyTwice(dst) && s in src && d in dst
    requires Proper(r, s) && Proper(r, d) && Compares(r, m, s, d) && Same(r, s, d)
    ensures s.key == d.key && s.key in Index(src) && s.key in Index(dst)
    ensures Index(src)[s.key] == s && Index(dst)[s.key] == d && m.compare(s.body, d.body) == []
  {
    SameKeyIff(r, s, d);
    IndexHolds(src, s);
    IndexHolds(dst, d);
    NoDifferenceIff(r, m, s, d);
  }

  // ---- From messages to documents --------------------------------------------------------

  /** A whole document task on real documents: it completes if and only if every document of either
      cluster has its like on the other, provided that no flush comes between two documents with
      the same key. */
  method CompareRealDocuments(r: Reading, m: Method, src: seq<Msg>, dst: seq<Msg>, lastGeneration: bool)
    returns (v: Verdict)
    requires forall i | 0 <= i < |src| :: src[i].Docs?
    requires Faithful(r, m, DocsIn(src), DocsIn(dst))
    requires NoKeyTwice(DocsIn(src)) && NoKeyTwice(DocsIn(dst))
    ensures NeverCutsAKey(m, src, dst) ==>
      (v.status == Completed <==> AllHaveLikes(r, DocsIn(src), DocsIn(dst)) && AllAreLikes(r, DocsIn(src), DocsIn(dst)))
  {
    v := CompareDocuments(m, src, dst, lastGeneration);
    if NeverCutsAKey(m, src, dst) {
      CompletedIffSameDocuments(r, m, DocsIn(src), DocsIn(dst), v);
    }
  }

  /** In an `_id` partition no flush comes between any documents, as there is no cursor-done message. */
  lemma IdPartitionsAreNeverCut(m: Method, src: seq<Msg>, dst: seq<Msg>)
    requires NoCursorDone(dst)
    ensures NeverCutsAKey(m, src, dst)
  {
    NoFlagInRounds(src, true, dst, true);
    NoFlagSeparates({}, Rounds(src, true, dst, true));
    CursorsAreEnough(m, Empty, {}, {}, Rounds(src, true, dst, true));
  }

  /** Nor in a natural partition none of whose answers the byte limit splits. */
  lemma {:induction false} UnsplitPartitionsAreNeverCut(m: Method, batches: seq<IdBatch>)
    requires forall b | b in batches :: Ordinary(b) && Unsplit(b)
    requires BatchesDisjoint(batches)
    requires NoKeyTwice(AllSrc(batches)) && NoKeyTwice(AllFound(batches))
    ensures NeverCutsAKey(m, SrcMsgs(batches), DstMsgs(batches))
    ensures DocsIn(SrcMsgs(batches)) == AllSrc(batches) && DocsIn(DstMsgs(batches)) == AllFound(batches)
  {
    NaturalPartitionIsComparedExactly(m, batches);
    RoundsCarryAllDocs(SrcMsgs(batches), true, DstMsgs(batches), true);
    CursorsAreEnough(m, Empty, {}, {}, Rounds(SrcMsgs(batches), true, DstMsgs(batches), true));
  }

  /** From the readers to the verdict, for a natural partition: the task completes if and only if
      every document that the source sent has its like among those found, and the other way round. */
  method CompareNaturalPartition(r: Reading, m: Method, batches: seq<IdBatch>, lastGeneration: bool) returns (v: Verdict)
    requires forall b | b in batches :: Ordinary(b) && Unsplit(b)
    requires BatchesDisjoint(batches)
    requires NoKeyTwice(AllSrc(batches)) && NoKeyTwice(AllFound(batches))
    requires Faithful(r, m, AllSrc(batches), AllFound(batches))
    ensures v.status == Completed <==>
      AllHaveLikes(r, AllSrc(batches), AllFound(batches)) && AllAreLikes(r, AllSrc(batches), AllFound(batches))
  {
    UnsplitPartitionsAreNeverCut(m, batches);
    var src, dst := SendAll(batches);
    v := CompareRealDocuments(r, m, src, dst, lastGeneration);
  }
}
