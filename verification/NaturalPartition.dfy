/** Natural partitions: the source sends a batch of ids to the destination reader, which queries
    them with a cursor of their own. Both must hand the comparator equally many messages, or a
    cursor-done message no longer separates the documents before it from those after. */
module NaturalPartition {
  import opened Bson
  import opened ComparatorModel
  import opened ComparatorResults

  const BATCH_SIZE := 100
  const BYTE_LIMIT := 32 * 1024 * 1024

  /** One batch of the source cursor and what the destination's query for its ids found. */
  datatype IdBatch = IdBatch(src: seq<Doc>, found: seq<Doc>)

  /** How many messages a number of documents makes. */
  function BatchCount(docs: nat): nat { (docs + BATCH_SIZE - 1) / BATCH_SIZE }

  function Min(a: nat, b: nat): nat { if a <= b then a else b }

  /** Messages of a fixed number of documents, the last one shorter. */
  function Chunks(docs: seq<Doc>): seq<Msg>
    decreases |docs|
  {
    if docs == [] then []
    else
      var n := Min(BATCH_SIZE, |docs|);
      [Docs(docs[..n])] + Chunks(docs[n..])
  }

  function BodyBytes(docs: seq<Doc>): nat {
    if docs == [] then 0 else BodyBytes(docs[..|docs| - 1]) + |docs[|docs| - 1].body|
  }

  /** Messages as a cursor iteration sends them: `pending` is what the next one holds so far. */
  function Split(pending: seq<Doc>, docs: seq<Doc>): seq<Msg>
    decreases |docs|
  {
    if docs == [] then
      if pending == [] then [] else [Docs(pending)]
    else if |pending| == BATCH_SIZE || BodyBytes(pending) + |docs[0].body| > BYTE_LIMIT then
      [Docs(pending)] + Split([docs[0]], docs[1..])
    else
      Split(pending + [docs[0]], docs[1..])
  }

  function Paddings(n: nat): (r: seq<Msg>)
    ensures |r| == n
    ensures forall i | 0 <= i < n :: r[i] == Padding
  {
    if n == 0 then [] else [Padding] + Paddings(n - 1)
  }

  /** The destination's documents, then as many paddings as its count of messages lacks. */
  function DstAnswer(b: IdBatch): seq<Msg> {
    var srcSent, dstSent := BatchCount(|b.src|), BatchCount(|b.found|);
    Split([], b.found) + Paddings(if srcSent > dstSent then srcSent - dstSent else 0)
  }

  function SrcMsgs(batches: seq<IdBatch>): seq<Msg> {
    if batches == [] then [] else Chunks(batches[0].src) + SrcMsgs(batches[1..])
  }

  function DstMsgs(batches: seq<IdBatch>): seq<Msg> {
    if batches == [] then [] else DstAnswer(batches[0]) + [CursorDone] + DstMsgs(batches[1..])
  }

  // ---- The readers -----------------------------------------------------------------------

  /** Sends one batch of source documents, in chunks. */
  method FlushSourceBatch(batch: seq<Doc>) returns (sent: seq<Msg>)
    ensures sent == Chunks(batch)
  {
    sent := [];
    var rest := batch;
    while rest != []
      invariant sent + Chunks(rest) == Chunks(batch)
      decreases |rest|
    {
      var n := Min(BATCH_SIZE, |rest|);
      sent, rest := sent + [Docs(rest[..n])], rest[n..];
    }
  }

  /** Sends a cursor's documents, flushing at the document and byte limits. */
  method IterateCursorToChannel(docs: seq<Doc>) returns (sent: seq<Msg>, docsCount: nat)
    ensures sent == Split([], docs) && docsCount == |docs|
  {
    sent, docsCount := [], 0;
    var cache, bytesEnqueued := [], 0;
    for i := 0 to |docs|
      invariant sent + Split(cache, docs[i..]) == Split([], docs)
      invariant bytesEnqueued == BodyBytes(cache) && docsCount == i
    {
      docsCount := docsCount + 1;
      assert docs[i..][0] == docs[i] && docs[i..][1..] == docs[i + 1..];
      if |cache| == BATCH_SIZE || bytesEnqueued + |docs[i].body| > BYTE_LIMIT {
        sent := sent + [Docs(cache)];
        cache, bytesEnqueued := [], 0;
      }
      assert (cache + [docs[i]])[..|cache|] == cache;
      cache, bytesEnqueued := cache + [docs[i]], bytesEnqueued + |docs[i].body|;
    }
    if |cache| > 0 {
      sent := sent + [Docs(cache)];
    }
  }

  /** Answers one batch of ids: documents, padding, and the end of the cursor. A query finds no
      more documents than ids; otherwise the reader panics. */
  method AnswerIds(b: IdBatch) returns (sent: seq<Msg>)
    requires |b.found| <= |b.src|
    ensures sent == DstAnswer(b) + [CursorDone]
  {
    var docsFound;
    sent, docsFound := IterateCursorToChannel(b.found);
    var srcBatchesSent, dstBatchesSent := BatchCount(|b.src|), BatchCount(docsFound);
    var padding: seq<Msg> := [];
    var i := 0;
    while i < srcBatchesSent - dstBatchesSent
      invariant padding + Paddings(if i <= srcBatchesSent - dstBatchesSent then srcBatchesSent - dstBatchesSent - i else 0)
             == Paddings(if srcBatchesSent > dstBatchesSent then srcBatchesSent - dstBatchesSent else 0)
    {
      padding := padding + [Padding];
      i := i + 1;
    }
    sent := sent + padding + [CursorDone];
  }

  /** Both readers, batch by batch. */
  method SendAll(batches: seq<IdBatch>) returns (src: seq<Msg>, dst: seq<Msg>)
    requires forall b | b in batches :: |b.found| <= |b.src|
    ensures src == SrcMsgs(batches) && dst == DstMsgs(batches)
    ensures forall i | 0 <= i < |src| :: src[i].Docs?
  {
    src, dst := [], [];
    for i := 0 to |batches|
      invariant src == SrcMsgs(batches[..i]) && dst == DstMsgs(batches[..i])
    {
      var sent := FlushSourceBatch(batches[i].src);
      var answer := AnswerIds(batches[i]);
      MessagesAppend(batches[..i], batches[i]);
      assert batches[..i + 1] == batches[..i] + [batches[i]];
      src, dst := src + sent, dst + answer;
    }
    assert batches[..|batches|] == batches;
    SrcMsgsAreDocs(batches);
  }

  lemma {:induction false} MessagesAppend(batches: seq<IdBatch>, b: IdBatch)
    ensures SrcMsgs(batches + [b]) == SrcMsgs(batches) + Chunks(b.src)
    ensures DstMsgs(batches + [b]) == DstMsgs(batches) + (DstAnswer(b) + [CursorDone])
  {
    if batches == [] {
      assert ([b])[1..] == [] && [] + [b] == [b];
    } else {
      MessagesAppend(batches[1..], b);
      assert (batches + [b])[0] == batches[0] && (batches + [b])[1..] == batches[1..] + [b];
      Assoc(Chunks(batches[0].src), SrcMsgs(batches[1..]), Chunks(b.src));
      Assoc(DstAnswer(batches[0]) + [CursorDone], DstMsgs(batches[1..]), DstAnswer(b) + [CursorDone]);
    }
  }

  lemma {:induction false} SrcMsgsAreDocs(batches: seq<IdBatch>)
    ensures forall i | 0 <= i < |SrcMsgs(batches)| :: SrcMsgs(batches)[i].Docs?
  {
    if batches != [] {
      ChunksCount(batches[0].src);
      SrcMsgsAreDocs(batches[1..]);
    }
  }

  // ---- Counting messages -----------------------------------------------------------------

  lemma {:induction false} ChunksCount(docs: seq<Doc>)
    ensures |Chunks(docs)| == BatchCount(|docs|) && DocsIn(Chunks(docs)) == docs
    ensures forall i | 0 <= i < |Chunks(docs)| :: Chunks(docs)[i].Docs? && |Chunks(docs)[i].docs| <= BATCH_SIZE
    decreases |docs|
  {
    if docs != [] {
      var n := Min(BATCH_SIZE, |docs|);
      ChunksCount(docs[n..]);
      assert docs == docs[..n] + docs[n..];
    }
  }

  lemma {:induction false} OneChunk(docs: seq<Doc>)
    requires 0 < |docs| <= BATCH_SIZE
    ensures Chunks(docs) == [Docs(docs)]
  {
    assert docs[..|docs|] == docs && docs[|docs|..] == [];
  }

  /** The splitter sends all documents in order, at most a full batch a message, at most the
      byte limit unless the document is alone, and never fewer messages than full batches take. */
  lemma {:induction false} SplitCount(pending: seq<Doc>, docs: seq<Doc>)
    requires |pending| <= BATCH_SIZE && (pending == [] ==> docs == [] || |docs[0].body| <= BYTE_LIMIT)
    requires forall d | d in docs :: |d.body| <= BYTE_LIMIT
    requires BodyBytes(pending) <= BYTE_LIMIT
    ensures var s := Split(pending, docs);
      && DocsIn(s) == pending + docs
      && |s| * BATCH_SIZE >= |pending| + |docs|
      && forall i | 0 <= i < |s| :: WithinLimits(s[i])
    decreases |docs|
  {
    if docs == [] {
      assert pending + docs == pending;
      assert DocsIn([]) == [];
    } else if |pending| == BATCH_SIZE || BodyBytes(pending) + |docs[0].body| > BYTE_LIMIT {
      BytesOfOne(docs[0]);
      SplitCount([docs[0]], docs[1..]);
      FirstMessage(pending, docs);
    } else {
      BytesOfOneMore(pending, docs[0]);
      SplitCount(pending + [docs[0]], docs[1..]);
      TakenIntoMessage(pending, docs);
    }
  }

  predicate WithinLimits(m: Msg) { m.Docs? && |m.docs| <= BATCH_SIZE && BodyBytes(m.docs) <= BYTE_LIMIT }

  lemma {:induction false} TakenIntoMessage(pending: seq<Doc>, docs: seq<Doc>)
    requires docs != [] && |pending| != BATCH_SIZE && BodyBytes(pending) + |docs[0].body| <= BYTE_LIMIT
    ensures Split(pending, docs) == Split(pending + [docs[0]], docs[1..])
    ensures pending + docs == pending + [docs[0]] + docs[1..]
  {
  }

  lemma BytesOfOne(d: Doc)
    ensures BodyBytes([d]) == |d.body|
  {
    assert [d][..0] == [];
  }

  lemma {:induction false} BytesOfOneMore(docs: seq<Doc>, d: Doc)
    ensures BodyBytes(docs + [d]) == BodyBytes(docs) + |d.body|
  {
    assert (docs + [d])[..|docs|] == docs;
  }

  /** A message is full, and the rest is split on its own. */
  lemma {:induction false} FirstMessage(pending: seq<Doc>, docs: seq<Doc>)
    requires docs != [] && |pending| <= BATCH_SIZE && BodyBytes(pending) <= BYTE_LIMIT
    requires |pending| == BATCH_SIZE || BodyBytes(pending) + |docs[0].body| > BYTE_LIMIT
    ensures var s, later := Split(pending, docs), Split([docs[0]], docs[1..]);
      && s == [Docs(pending)] + later
      && (DocsIn(later) == [docs[0]] + docs[1..] ==> DocsIn(s) == pending + docs)
      && ((forall i | 0 <= i < |later| :: WithinLimits(later[i])) ==> forall i | 0 <= i < |s| :: WithinLimits(s[i]))
  {
    var later := Split([docs[0]], docs[1..]);
    assert ([Docs(pending)] + later)[1..] == later;
    assert [docs[0]] + docs[1..] == docs;
  }

  /** Within the server's document size, no document exceeds the byte limit of a message. */
  predicate Ordinary(b: IdBatch) {
    && b.src != [] && |b.found| <= |b.src|
    && (forall d | d in b.found :: |d.body| <= BYTE_LIMIT)
  }

  /** What can be received: documents as large as a server stores them, and a source batch that is
      one reply of the server, which holds no more bytes than the largest document unless it holds
      a single document. */
  predicate Receivable(b: IdBatch) {
    && b.src != [] && |b.found| <= |b.src|
    && (forall d | d in b.src + b.found :: |d.body| <= MAX_DOCUMENT_BYTES)
    && (|b.src| == 1 || BodyBytes(b.src) <= MAX_DOCUMENT_BYTES)
  }

  /** The destination reader split its documents by count alone. */
  predicate Unsplit(b: IdBatch) { |Split([], b.found)| == BatchCount(|b.found|) }

  /** Padding evens the messages out exactly if the byte limit added none. */
  lemma EquallyManyIffUnsplit(b: IdBatch)
    requires Ordinary(b)
    ensures |DstAnswer(b)| == |Chunks(b.src)| <==> Unsplit(b)
    ensures |DstAnswer(b)| >= |Chunks(b.src)|
  {
    ChunksCount(b.src);
    SplitCount([], b.found);
  }

  /** A check before the fact: if no hundred documents that start at a multiple of a hundred
      exceed the byte limit, the splitter cuts where the chunker does. */
  lemma {:induction false} SmallChunksAreUnsplit(docs: seq<Doc>)
    requires forall m | m in Chunks(docs) :: m.Docs? && BodyBytes(m.docs) <= BYTE_LIMIT
    ensures Split([], docs) == Chunks(docs)
    decreases |docs|
  {
    if docs != [] {
      var n := Min(BATCH_SIZE, |docs|);
      var chunk, rest := docs[..n], docs[n..];
      assert Docs(chunk) in Chunks(docs);
      SmallChunksAreUnsplit(rest);
      assert [] + chunk == chunk && docs == chunk + rest;
      FillsChunk([], chunk, rest);
      if rest == [] {
        assert Split(chunk, rest) == [Docs(chunk)];
      } else {
        StartsAfresh(chunk, rest);
      }
    }
  }

  /** Documents that fit are taken into the pending message one by one. */
  lemma {:induction false} FillsChunk(pending: seq<Doc>, chunk: seq<Doc>, rest: seq<Doc>)
    requires |pending| + |chunk| <= BATCH_SIZE && BodyBytes(pending + chunk) <= BYTE_LIMIT
    ensures Split(pending, chunk + rest) == Split(pending + chunk, rest)
    decreases |chunk|
  {
    if chunk == [] {
      assert pending + chunk == pending && chunk + rest == rest;
    } else {
      var more := pending + [chunk[0]];
      assert pending + chunk == more + chunk[1..];
      PrefixIsSmaller(more, chunk[1..]);
      assert more[..|pending|] == pending;
      assert (chunk + rest)[1..] == chunk[1..] + rest;
      FillsChunk(more, chunk[1..], rest);
    }
  }

  lemma {:induction false} PrefixIsSmaller(docs: seq<Doc>, more: seq<Doc>)
    ensures BodyBytes(docs) <= BodyBytes(docs + more)
    decreases |more|
  {
    if more == [] {
      assert docs + more == docs;
    } else {
      var n := |more| - 1;
      PrefixIsSmaller(docs, more[..n]);
      assert (docs + more)[..|docs + more| - 1] == docs + more[..n];
    }
  }

  lemma {:induction false} ChunksFit(docs: seq<Doc>, limit: nat)
    requires BodyBytes(docs) <= limit
    ensures forall m | m in Chunks(docs) :: m.Docs? && BodyBytes(m.docs) <= limit
    decreases |docs|
  {
    if docs != [] {
      var n := Min(BATCH_SIZE, |docs|);
      assert docs == docs[..n] + docs[n..];
      PrefixIsSmaller(docs[..n], docs[n..]);
      SuffixIsSmaller(docs[..n], docs[n..]);
      ChunksFit(docs[n..], limit);
    }
  }

  lemma {:induction false} SuffixIsSmaller(docs: seq<Doc>, more: seq<Doc>)
    ensures BodyBytes(more) <= BodyBytes(docs + more)
    decreases |more|
  {
    if more != [] {
      var n := |more| - 1;
      SuffixIsSmaller(docs, more[..n]);
      assert (docs + more)[..|docs + more| - 1] == docs + more[..n];
    }
  }

  lemma ReplyFits(b: IdBatch)
    requires Receivable(b)
    ensures BodyBytes(b.src) <= MAX_DOCUMENT_BYTES
  {
    if |b.src| == 1 {
      assert b.src[..0] == [] && b.src[0] in b.src + b.found;
      assert BodyBytes(b.src) == BodyBytes(b.src[..0]) + |b.src[0].body|;
    }
  }

  /** An answer that fits the byte limit as a whole is never split by it; so a query that finds
      what the source sent, which came in one reply, is not. */
  lemma FittingAnswersAreUnsplit(b: IdBatch)
    ensures BodyBytes(b.found) <= BYTE_LIMIT ==> Unsplit(b)
    ensures Receivable(b) && b.found == b.src ==> Unsplit(b)
  {
    if Receivable(b) {
      ReplyFits(b);
    }
    if BodyBytes(b.found) <= BYTE_LIMIT {
      ChunksFit(b.found, BYTE_LIMIT);
      SmallChunksAreUnsplit(b.found);
      ChunksCount(b.found);
    }
  }

  lemma {:induction false} StartsAfresh(full: seq<Doc>, rest: seq<Doc>)
    requires |full| == BATCH_SIZE && rest != [] && |rest[0].body| <= BYTE_LIMIT
    ensures Split(full, rest) == [Docs(full)] + Split([], rest)
  {
    assert [] + [rest[0]] == [rest[0]];
  }

  // ---- Lock step -------------------------------------------------------------------------

  function DocsOf(msg: Msg): seq<Doc> { if msg.Docs? then msg.docs else [] }

  /** Messages compared in pairs; a cursor that ended before is noticed with the first. */
  function PairUp(src: seq<Msg>, dst: seq<Msg>, cursorDone: bool): (r: seq<Round>)
    requires |src| == |dst|
    ensures |r| == |src|
  {
    if src == [] then []
    else [Round(DocsOf(src[0]), DocsOf(dst[0]), cursorDone)] + PairUp(src[1..], dst[1..], false)
  }

  /** The rounds of batches compared one after the other, each whole. */
  function BatchRounds(batches: seq<IdBatch>, cursorDone: bool): seq<Round>
    requires forall b | b in batches :: |DstAnswer(b)| == |Chunks(b.src)|
  {
    if batches == [] then [Round([], [], cursorDone)]
    else PairUp(Chunks(batches[0].src), DstAnswer(batches[0]), cursorDone) + BatchRounds(batches[1..], true)
  }

  function Flag(cursorDone: bool): seq<Msg> { if cursorDone then [CursorDone] else [] }


  lemma {:induction false} PairedRounds(src: seq<Msg>, dst: seq<Msg>, srcLater: seq<Msg>, dstLater: seq<Msg>)
    requires |src| == |dst| && NoCursorDone(dst)
    ensures Rounds(src + srcLater, true, dst + dstLater, true)
         == PairUp(src, dst, false) + Rounds(srcLater, true, dstLater, true)
    decreases |src|, 1
  {
    if src == [] {
      assert src + srcLater == srcLater && dst + dstLater == dstLater;
    } else {
      FlaggedRounds(src, dst, srcLater, dstLater, false);
      assert Flag(false) + (dst + dstLater) == dst + dstLater;
    }
  }

  lemma {:induction false} FlaggedRounds(src: seq<Msg>, dst: seq<Msg>, srcLater: seq<Msg>, dstLater: seq<Msg>, flag: bool)
    requires |src| == |dst| > 0 && NoCursorDone(dst)
    ensures Rounds(src + srcLater, true, Flag(flag) + (dst + dstLater), true)
         == PairUp(src, dst, flag) + Rounds(srcLater, true, dstLater, true)
    decreases |src|, 0
  {
    FirstFlagged(src, dst, srcLater, dstLater, flag);
    PairedRounds(src[1..], dst[1..], srcLater, dstLater);
    PairFirst(src, dst, flag, Rounds(srcLater, true, dstLater, true));
  }

  lemma {:induction false} FirstFlagged(src: seq<Msg>, dst: seq<Msg>, srcLater: seq<Msg>, dstLater: seq<Msg>, flag: bool)
    requires |src| == |dst| > 0 && NoCursorDone(dst)
    ensures Rounds(src + srcLater, true, Flag(flag) + (dst + dstLater), true)
         == [Round(DocsOf(src[0]), DocsOf(dst[0]), flag)] + Rounds(src[1..] + srcLater, true, dst[1..] + dstLater, true)
  {
    var srcAll, dstAll := src + srcLater, dst + dstLater;
    TakeAfterFlag(dstAll, flag);
    RoundsFirst(srcAll, Flag(flag) + dstAll);
    assert srcAll[1..] == src[1..] + srcLater && dstAll[1..] == dst[1..] + dstLater;
  }

  lemma {:induction false} PairFirst(src: seq<Msg>, dst: seq<Msg>, flag: bool, later: seq<Round>)
    requires |src| == |dst| > 0
    ensures PairUp(src, dst, flag) + later
         == [Round(DocsOf(src[0]), DocsOf(dst[0]), flag)] + (PairUp(src[1..], dst[1..], false) + later)
  {
  }

  lemma {:induction false} TakeAfterFlag(msgs: seq<Msg>, flag: bool)
    requires msgs != [] && !msgs[0].CursorDone?
    ensures TakeDst(Flag(flag) + msgs, true) == Taken(DocsOf(msgs[0]), flag, msgs[1..], true)
  {
    if flag {
      assert ([CursorDone] + msgs)[1..] == msgs;
    } else {
      assert [] + msgs == msgs;
    }
  }

  lemma {:induction false} RoundsFirst(src: seq<Msg>, dst: seq<Msg>)
    ensures var s, d := TakeSrc(src, true), TakeDst(dst, true);
      Rounds(src, true, dst, true)
      == [Round(s.batch, d.batch, d.cursorDone)] + Rounds(s.rest, s.open, d.rest, d.open)
  {
  }

  /** When no batch is split by bytes, the comparator takes the batches one by one: source and
      destination are never in different batches, and a cursor-done message is always noticed
      between two batches. */
  lemma {:induction false} BatchesInLockStep(batches: seq<IdBatch>, flag: bool)
    requires forall b | b in batches :: Ordinary(b) && |DstAnswer(b)| == |Chunks(b.src)|
    ensures Rounds(SrcMsgs(batches), true, Flag(flag) + DstMsgs(batches), true) == BatchRounds(batches, flag)
    decreases |batches|
  {
    if batches == [] {
      LastRound(flag);
    } else {
      var b, later := batches[0], batches[1..];
      AnswerHasNoCursorDone(b);
      ChunksCount(b.src);
      FlaggedRounds(Chunks(b.src), DstAnswer(b), SrcMsgs(later), Flag(true) + DstMsgs(later), flag);
      Assoc(DstAnswer(b), [CursorDone], DstMsgs(later));
      BatchesInLockStep(later, true);
    }
  }

  lemma LastRound(flag: bool)
    ensures Rounds([], true, Flag(flag) + [], true) == [Round([], [], flag)]
  {
    RoundsFirst([], Flag(flag) + []);
    if flag {
      assert (Flag(flag) + [])[1..] == [];
    }
  }

  lemma AnswerHasNoCursorDone(b: IdBatch)
    requires Ordinary(b)
    ensures NoCursorDone(DstAnswer(b)) && DocsIn(DstAnswer(b)) == b.found
  {
    SplitCount([], b.found);
    var n := if BatchCount(|b.src|) > BatchCount(|b.found|) then BatchCount(|b.src|) - BatchCount(|b.found|) else 0;
    PaddingsHoldNothing(Split([], b.found), n);
  }

  lemma {:induction false} PaddingsHoldNothing(msgs: seq<Msg>, n: nat)
    ensures DocsIn(msgs + Paddings(n)) == DocsIn(msgs)
    decreases |msgs| + n
  {
    if msgs != [] {
      PaddingsHoldNothing(msgs[1..], n);
      assert (msgs + Paddings(n))[1..] == msgs[1..] + Paddings(n);
    } else if n > 0 {
      PaddingsHoldNothing([], n - 1);
      assert [] + Paddings(n) == [Padding] + Paddings(n - 1);
      assert [] + Paddings(n - 1) == Paddings(n - 1);
    }
  }

  // ---- What is reported ------------------------------------------------------------------

  function AllSrc(batches: seq<IdBatch>): seq<Doc> {
    if batches == [] then [] else batches[0].src + AllSrc(batches[1..])
  }

  function AllFound(batches: seq<IdBatch>): seq<Doc> {
    if batches == [] then [] else batches[0].found + AllFound(batches[1..])
  }

  function BatchKeys(b: IdBatch): set<Key> { Index(b.src).Keys + Index(b.found).Keys }

  function AllKeys(batches: seq<IdBatch>): set<Key> {
    if batches == [] then {} else BatchKeys(batches[0]) + AllKeys(batches[1..])
  }

  /** Different batches have different keys, on either side. */
  predicate BatchesDisjoint(batches: seq<IdBatch>) {
    batches == [] || (BatchKeys(batches[0]) !! AllKeys(batches[1..]) && BatchesDisjoint(batches[1..]))
  }

  lemma {:induction false} PairUpDocs(src: seq<Msg>, dst: seq<Msg>, flag: bool)
    requires |src| == |dst|
    ensures SrcDocs(PairUp(src, dst, flag)) == DocsIn(src)
    ensures DstDocs(PairUp(src, dst, flag)) == DocsIn(dst)
  {
    if src != [] {
      PairUpDocs(src[1..], dst[1..], false);
    }
  }

  lemma {:induction false} BatchRoundsDocs(batches: seq<IdBatch>, flag: bool)
    requires forall b | b in batches :: Ordinary(b) && |DstAnswer(b)| == |Chunks(b.src)|
    ensures SrcDocs(BatchRounds(batches, flag)) == AllSrc(batches)
    ensures DstDocs(BatchRounds(batches, flag)) == AllFound(batches)
    ensures KeysOf(BatchRounds(batches, flag)) == AllKeys(batches)
    decreases |batches|
  {
    if batches != [] {
      var b, later := batches[0], batches[1..];
      BatchRoundsDocs(later, true);
      PairUpDocs(Chunks(b.src), DstAnswer(b), flag);
      DocsAppend(PairUp(Chunks(b.src), DstAnswer(b), flag), BatchRounds(later, true));
      ChunksCount(b.src);
      AnswerHasNoCursorDone(b);
      IndexAppend(b.src, AllSrc(later));
      IndexAppend(b.found, AllFound(later));
    }
  }

  lemma {:induction false} FewerKeysSeen(seen: set<Key>, more: set<Key>, rounds: seq<Round>)
    requires seen <= more && CursorsSeparateKeys(more, rounds)
    ensures CursorsSeparateKeys(seen, rounds)
    decreases |rounds|
  {
    if rounds != [] {
      FewerKeysSeen(seen + KeysOf(rounds[..1]), more + KeysOf(rounds[..1]), rounds[1..]);
    }
  }

  lemma {:induction false} FirstPairKeys(src: seq<Msg>, dst: seq<Msg>, flag: bool, later: seq<Round>)
    requires |src| == |dst| > 0
    ensures KeysOf((PairUp(src, dst, flag) + later)[..1])
          + Index(DocsIn(src[1..])).Keys + Index(DocsIn(dst[1..])).Keys
         == Index(DocsIn(src)).Keys + Index(DocsIn(dst)).Keys
  {
    KeysOfFirst(PairUp(src, dst, flag) + later);
    IndexAppend(DocsOf(src[0]), DocsIn(src[1..]));
    IndexAppend(DocsOf(dst[0]), DocsIn(dst[1..]));
  }

  lemma {:induction false} FirstPairRest(src: seq<Msg>, dst: seq<Msg>, flag: bool, later: seq<Round>)
    requires |src| == |dst| > 0
    ensures (PairUp(src, dst, flag) + later)[1..] == PairUp(src[1..], dst[1..], false) + later
    ensures (PairUp(src, dst, flag) + later)[0].cursorDone == flag
  {
  }

  lemma StillWithin(seen: set<Key>, first: set<Key>, a: set<Key>, b: set<Key>, c: set<Key>, d: set<Key>, all: set<Key>)
    requires first + a + b == c + d && seen + c + d <= all
    ensures seen + first + a + b <= all
  {
  }

  /** Within a batch only the first round can carry a flag. */
  lemma {:induction false} BatchSeparates(seen: set<Key>, src: seq<Msg>, dst: seq<Msg>, flag: bool,
                                          all: set<Key>, later: seq<Round>)
    requires |src| == |dst|
    requires flag ==> seen !! KeysOf(PairUp(src, dst, flag) + later)
    requires seen + Index(DocsIn(src)).Keys + Index(DocsIn(dst)).Keys <= all
    requires CursorsSeparateKeys(all, later)
    ensures CursorsSeparateKeys(seen, PairUp(src, dst, flag) + later)
    decreases |src|
  {
    var rounds := PairUp(src, dst, flag) + later;
    if src == [] {
      assert rounds == later;
      FewerKeysSeen(seen, all, later);
    } else {
      FirstPairRest(src, dst, flag, later);
      FirstPairKeys(src, dst, flag, later);
      StillWithin(seen, KeysOf(rounds[..1]), Index(DocsIn(src[1..])).Keys, Index(DocsIn(dst[1..])).Keys,
                  Index(DocsIn(src)).Keys, Index(DocsIn(dst)).Keys, all);
      BatchSeparates(seen + KeysOf(rounds[..1]), src[1..], dst[1..], false, all, later);
    }
  }

  lemma {:induction false} BatchesSeparate(seen: set<Key>, batches: seq<IdBatch>, flag: bool)
    requires forall b | b in batches :: Ordinary(b) && |DstAnswer(b)| == |Chunks(b.src)|
    requires BatchesDisjoint(batches) && seen !! AllKeys(batches)
    ensures CursorsSeparateKeys(seen, BatchRounds(batches, flag))
    decreases |batches|
  {
    BatchRoundsDocs(batches, flag);
    if batches == [] {
      assert BatchRounds(batches, flag)[1..] == [];
    } else {
      var b, later := batches[0], batches[1..];
      BatchesSeparate(seen + BatchKeys(b), later, true);
      ChunksCount(b.src);
      AnswerHasNoCursorDone(b);
      BatchSeparates(seen, Chunks(b.src), DstAnswer(b), flag, seen + BatchKeys(b), BatchRounds(later, true));
    }
  }

  /** A natural partition is compared exactly: however the source batches its documents, with
      whatever early flushes, the reports carry exactly the problems due of all documents read
      and found, as long as no query's documents were split by the byte limit. */
  lemma {:induction false} NaturalPartitionIsComparedExactly(m: Method, batches: seq<IdBatch>)
    requires forall b | b in batches :: Ordinary(b) && Unsplit(b)
    requires BatchesDisjoint(batches)
    requires NoKeyTwice(AllSrc(batches)) && NoKeyTwice(AllFound(batches))
    ensures var rounds := Rounds(SrcMsgs(batches), true, DstMsgs(batches), true);
      && SrcDocs(rounds) == AllSrc(batches) && DstDocs(rounds) == AllFound(batches)
      && CursorsSeparateKeys({}, rounds)
      && ExactlyDue(AllProblems(Reports(m, Empty, rounds)), m, Index(AllSrc(batches)), Index(AllFound(batches)))
  {
    forall b | b in batches ensures |DstAnswer(b)| == |Chunks(b.src)| {
      EquallyManyIffUnsplit(b);
    }
    BatchesInLockStep(batches, false);
    assert Flag(false) + DstMsgs(batches) == DstMsgs(batches);
    BatchesSeparate({}, batches, false);
    BatchRoundsDocs(batches, false);
    RunReportsExactly(m, BatchRounds(batches, false));
  }

  /** So natural partitions are compared exactly if each query's documents take no more bytes than
      one message may hold, whatever the source sent. */
  lemma {:induction false} FittingPartitionIsComparedExactly(m: Method, batches: seq<IdBatch>)
    requires forall b | b in batches :: Receivable(b) && (BodyBytes(b.found) <= BYTE_LIMIT || b.found == b.src)
    requires BatchesDisjoint(batches)
    requires NoKeyTwice(AllSrc(batches)) && NoKeyTwice(AllFound(batches))
    ensures var rounds := Rounds(SrcMsgs(batches), true, DstMsgs(batches), true);
      ExactlyDue(AllProblems(Reports(m, Empty, rounds)), m, Index(AllSrc(batches)), Index(AllFound(batches)))
  {
    forall b | b in batches ensures Ordinary(b) && Unsplit(b) {
      FittingAnswersAreUnsplit(b);
    }
    NaturalPartitionIsComparedExactly(m, batches);
  }

  // ---- Documents for examples ------------------------------------------------------------

  function Numbered(i: Byte, bytes: nat): Doc { Doc([i], RawValue(0x10, [i, 0, 0, 0]), bytes, seq(bytes, _ => 0), 0) }

  const NoDifference := Method((s, d) => [], d => None)

  // ---- The limits ------------------------------------------------------------------------

  /** A source batch goes out in one message for every hundred documents begun. */
  lemma {:induction false} HundredAMessage(docs: seq<Doc>)
    ensures |Chunks(docs)| == (|docs| + 99) / 100
    ensures |docs| >= 100 ==> |Chunks(docs)| >= 1 && Chunks(docs)[0] == Docs(docs[..100])
  {
    ChunksCount(docs);
  }

  /** A cursor's documents share a message up to 32 mebibytes, and not beyond. */
  lemma {:induction false} TwoInAMessageIff(a: Doc, b: Doc)
    ensures |Split([a], [b])| == 1 <==> |a.body| + |b.body| <= 33_554_432
    ensures |a.body| + |b.body| <= 33_554_432 ==> Split([a], [b]) == [Docs([a, b])]
    ensures |a.body| + |b.body| > 33_554_432 ==> Split([a], [b]) == [Docs([a]), Docs([b])]
  {
    BytesOfOne(a);
    assert [b][1..] == [] && [a] + [b] == [a, b];
    assert Split([b], []) == [Docs([b])] && Split([a, b], []) == [Docs([a, b])];
  }
}
