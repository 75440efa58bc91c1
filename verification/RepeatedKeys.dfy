/** Natural partitions in which the source cursor yields some documents twice. Every document that
    replaces its own copy in the cache leaves its bytes in the count, until a flush is due that has
    nothing to report and the worker takes the empty report for the last. */
module RepeatedKeys {
  import opened Bson
  import opened ComparatorModel
  import opened ComparatorResults
  import opened ComparatorBytes
  import opened NaturalPartition
  import opened StreamingComparator
  import opened VerifyTask

  /** A document that the cursor yields twice in a row, and another that the query for their ids
      finds first. */
  datatype Pair = Pair(a: Doc, b: Doc)

  function Twice(p: Pair): IdBatch { IdBatch([p.a, p.a, p.b], [p.b, p.a]) }

  /** Such batches, and then a document that the destination does not have. */
  function Partition(pairs: seq<Pair>, x: Doc): seq<IdBatch> {
    if pairs == [] then [IdBatch([x], [])] else [Twice(pairs[0])] + Partition(pairs[1..], x)
  }

  function Leavings(pairs: seq<Pair>): nat {
    if pairs == [] then 0 else Weight(pairs[0].a.key, pairs[0].a) + Leavings(pairs[1..])
  }

  /** Equal documents on both clusters, in batches that a server can send. */
  predicate Plain(m: Method, p: Pair, x: Doc) {
    && p.a.key != p.b.key && x.key != p.a.key && x.key != p.b.key
    && m.compare(p.a.body, p.a.body) == [] && m.compare(p.b.body, p.b.body) == []
    && Receivable(Twice(p))
  }

  predicate AllPlain(m: Method, pairs: seq<Pair>, x: Doc) {
    forall i | 0 <= i < |pairs| :: Plain(m, pairs[i], x)
  }

  /** Enough of them to make a flush due. */
  predicate Hides(m: Method, pairs: seq<Pair>, x: Doc) {
    && AllPlain(m, pairs, x)
    && |x.body| <= MAX_DOCUMENT_BYTES
    && MAX_VARIABLE_BYTES <= Leavings(pairs) < TWO_TO_THE_64
  }

  /** Source and destination send equally many messages for each batch. */
  predicate InLockStep(batches: seq<IdBatch>) {
    forall b | b in batches :: Ordinary(b) && |DstAnswer(b)| == |Chunks(b.src)|
  }

  // ---- One batch -------------------------------------------------------------------------

  lemma {:induction false} OneMessageEach(m: Method, p: Pair, x: Doc, flag: bool)
    requires Plain(m, p, x)
    ensures Ordinary(Twice(p)) && |DstAnswer(Twice(p))| == |Chunks(Twice(p).src)|
    ensures PairUp(Chunks(Twice(p).src), DstAnswer(Twice(p)), flag) == [Round([p.a, p.a, p.b], [p.b, p.a], flag)]
  {
    var b := Twice(p);
    AnswerFits(p);
    ChunksFit(b.found, BYTE_LIMIT);
    SmallChunksAreUnsplit(b.found);
    OneChunk(b.src);
    OneChunk(b.found);
    assert Paddings(0) == [] && [Docs(b.found)] + [] == [Docs(b.found)];
    OnePair(Docs(b.src), Docs(b.found), flag);
  }

  lemma AnswerFits(p: Pair)
    requires Receivable(Twice(p))
    ensures Ordinary(Twice(p)) && BodyBytes(Twice(p).found) <= BYTE_LIMIT
  {
    var found := [p.b, p.a];
    assert found[..1] == [p.b] && [p.b][..0] == [];
    assert BodyBytes(found) == BodyBytes(found[..1]) + |p.a.body|;
    assert p.a in Twice(p).src + found && p.b in Twice(p).src + found;
  }

  lemma {:induction false} OnePair(s: Msg, d: Msg, flag: bool)
    ensures PairUp([s], [d], flag) == [Round(DocsOf(s), DocsOf(d), flag)]
  {
    assert [s][1..] == [] && [d][1..] == [];
  }

  lemma {:induction false} LastBatch(x: Doc, flag: bool)
    requires |x.body| <= MAX_DOCUMENT_BYTES
    ensures var b := IdBatch([x], []);
      && Ordinary(b) && |DstAnswer(b)| == |Chunks(b.src)|
      && PairUp(Chunks(b.src), DstAnswer(b), flag) == [Round([x], [], flag)]
  {
    OneChunk([x]);
    assert Paddings(1) == [Padding] + Paddings(0) == [Padding];
    assert DstAnswer(IdBatch([x], [])) == [] + [Padding] == [Padding];
    OnePair(Docs([x]), Padding, flag);
  }

  lemma {:induction false} InStep(m: Method, pairs: seq<Pair>, x: Doc)
    requires AllPlain(m, pairs, x) && |x.body| <= MAX_DOCUMENT_BYTES
    ensures InLockStep(Partition(pairs, x))
  {
    if pairs == [] {
      LastBatch(x, true);
    } else {
      OneMessageEach(m, pairs[0], x, true);
      InStep(m, pairs[1..], x);
    }
  }

  // ---- What a batch leaves ---------------------------------------------------------------

  lemma Unfold(m: Method, st: State, src: seq<Doc>, dst: seq<Doc>)
    requires src != [] || dst != []
    ensures var st1 := if src == [] then st else ProcessSrc(m, st, src[0]);
      var st2 := if dst == [] then st1 else ProcessDst(m, st1, dst[0]);
      && Interleave(m, st, src, dst) == Interleave(m, st2, Rest(src), Rest(dst))
      && Leaked(m, st, src, dst) == (if src == [] then 0 else SrcLeak(st, src[0]))
           + (if dst == [] then 0 else DstLeak(st1, dst[0])) + Leaked(m, st2, Rest(src), Rest(dst))
  {
  }

  lemma EqualsLeaveNoProblem(m: Method, st: State, s: Doc, d: Doc)
    requires m.compare(s.body, d.body) == [] && st.problems == []
    ensures Recorded(m, st, s, d).problems == []
    ensures Recorded(m, st, s, d).src == st.src && Recorded(m, st, s, d).dst == st.dst
  {
    assert Paired(m, s, d) == [];
  }

  lemma FirstOfThree(m: Method, st: State, p: Pair)
    requires NothingToSay(st) && p.a.key != p.b.key
    ensures var st1 := ProcessSrc(m, st, p.a);
      var st2 := ProcessDst(m, st1, p.b);
      && SrcLeak(st, p.a) == 0 && DstLeak(st1, p.b) == 0
      && st2.src == map[p.a.key := p.a] && st2.dst == map[p.b.key := p.b] && st2.problems == []
  {
  }

  lemma SecondOfThree(m: Method, st: State, p: Pair)
    requires p.a.key != p.b.key && m.compare(p.a.body, p.a.body) == []
    requires st.src == map[p.a.key := p.a] && st.dst == map[p.b.key := p.b] && st.problems == []
    ensures var st1 := ProcessSrc(m, st, p.a);
      var st2 := ProcessDst(m, st1, p.a);
      && SrcLeak(st, p.a) == Weight(p.a.key, p.a) && DstLeak(st1, p.a) == 0
      && st2.src == map[] && st2.dst == map[p.b.key := p.b] && st2.problems == []
  {
    var st1 := ProcessSrc(m, st, p.a);
    assert st1.src == map[p.a.key := p.a] && st1.src - {p.a.key} == map[];
    assert Paired(m, p.a, p.a) == [];
  }

  lemma ThirdOfThree(m: Method, st: State, p: Pair)
    requires m.compare(p.b.body, p.b.body) == []
    requires st.src == map[] && st.dst == map[p.b.key := p.b] && st.problems == []
    ensures SrcLeak(st, p.b) == 0 && NothingToSay(ProcessSrc(m, st, p.b))
  {
    assert st.dst - {p.b.key} == map[];
    assert Paired(m, p.b, p.b) == [];
  }

  /** After such a batch nothing is cached and nothing to be reported, but the bytes of the
      document that came twice have been left in the count. */
  lemma {:induction false} BatchLeaves(m: Method, st: State, p: Pair, x: Doc)
    requires NothingToSay(st) && Plain(m, p, x)
    ensures NothingToSay(Interleave(m, st, [p.a, p.a, p.b], [p.b, p.a]))
    ensures Leaked(m, st, [p.a, p.a, p.b], [p.b, p.a]) == Weight(p.a.key, p.a)
  {
    var st1 := ProcessDst(m, ProcessSrc(m, st, p.a), p.b);
    FirstOfThree(m, st, p);
    Unfold(m, st, [p.a, p.a, p.b], [p.b, p.a]);
    assert [p.a, p.a, p.b][1..] == [p.a, p.b] && [p.b, p.a][1..] == [p.a];
    LastTwo(m, st1, p);
  }

  lemma {:induction false} LastTwo(m: Method, st: State, p: Pair)
    requires p.a.key != p.b.key && m.compare(p.a.body, p.a.body) == [] && m.compare(p.b.body, p.b.body) == []
    requires st.src == map[p.a.key := p.a] && st.dst == map[p.b.key := p.b] && st.problems == []
    ensures NothingToSay(Interleave(m, st, [p.a, p.b], [p.a]))
    ensures Leaked(m, st, [p.a, p.b], [p.a]) == Weight(p.a.key, p.a)
  {
    var st2 := ProcessDst(m, ProcessSrc(m, st, p.a), p.a);
    SecondOfThree(m, st, p);
    Unfold(m, st, [p.a, p.b], [p.a]);
    assert [p.a, p.b][1..] == [p.b] && [p.a][1..] == [];
    ThirdOfThree(m, st2, p);
    Unfold(m, st2, [p.b], []);
    assert [p.b][1..] == [];
  }

  // ---- The run ---------------------------------------------------------------------------

  ghost predicate FirstIsEmpty(reports: seq<Report>) { reports != [] && reports[0].problems == multiset{} }

  lemma {:induction false} EmptyReportFirst(m: Method, st: State, rounds: seq<Round>)
    requires rounds != [] && FlushesAt(st, rounds[0]) && NothingToSay(st)
    ensures FirstIsEmpty(Reports(m, st, rounds))
  {
    ReportIsEmptyIff(m, Counted(st, rounds[0].src));
  }

  function FirstRound(p: Pair, flag: bool): Round { Round([p.a, p.a, p.b], [p.b, p.a], flag) }

  function PartitionRounds(pairs: seq<Pair>, x: Doc, flag: bool): (r: seq<Round>)
    ensures r != []
  {
    if pairs == [] then [Round([x], [], flag), Round([], [], true)]
    else [FirstRound(pairs[0], flag)] + PartitionRounds(pairs[1..], x, true)
  }

  lemma {:induction false} RoundsOfPartition(m: Method, pairs: seq<Pair>, x: Doc, flag: bool)
    requires AllPlain(m, pairs, x) && |x.body| <= MAX_DOCUMENT_BYTES
    ensures InLockStep(Partition(pairs, x))
    ensures BatchRounds(Partition(pairs, x), flag) == PartitionRounds(pairs, x, flag)
    decreases |pairs|
  {
    InStep(m, pairs, x);
    if pairs == [] {
      LastBatch(x, flag);
    } else {
      OneMessageEach(m, pairs[0], x, flag);
      RoundsOfPartition(m, pairs[1..], x, true);
      assert Partition(pairs, x)[1..] == Partition(pairs[1..], x);
    }
  }

  /** From a state with nothing to say the round, if it does not flush, comes to another, and
      leaves `bytes` in the count. */
  ghost predicate LeavesOnly(m: Method, r: Round, bytes: nat) {
    forall st, leaked: nat | NothingToSay(st) && CountsWith(st, leaked) && !FlushesAt(st, r) ::
      NothingToSay(RoundState(m, st, r)) && CountsWith(RoundState(m, st, r), leaked + bytes)
  }

  /** Rounds that leave the bytes of the given documents in the count, up to one that may flush. */
  ghost predicate Leaky(m: Method, rounds: seq<Round>, pairs: seq<Pair>)
    decreases |pairs|
  {
    rounds != [] &&
    if pairs == [] then rounds[0].cursorDone
    else LeavesOnly(m, rounds[0], Weight(pairs[0].a.key, pairs[0].a)) && Leaky(m, rounds[1..], pairs[1..])
  }

  /** From any state with nothing to say, the first report to come is empty. */
  lemma {:induction false} FirstReportIsEmpty(m: Method, st: State, leaked: nat, rounds: seq<Round>, pairs: seq<Pair>)
    requires NothingToSay(st) && CountsWith(st, leaked) && Leaky(m, rounds, pairs)
    requires MAX_VARIABLE_BYTES <= leaked + Leavings(pairs) < TWO_TO_THE_64
    ensures FirstIsEmpty(Reports(m, st, rounds))
    decreases |pairs|
  {
    if pairs == [] {
      FlushIsDue(st, leaked, rounds[0]);
    }
    if FlushesAt(st, rounds[0]) {
      EmptyReportFirst(m, st, rounds);
    } else {
      var weight := Weight(pairs[0].a.key, pairs[0].a);
      var st' := OneLeak(m, st, leaked, rounds, weight);
      FirstReportIsEmpty(m, st', leaked + weight, rounds[1..], pairs[1..]);
    }
  }

  lemma FlushIsDue(st: State, leaked: nat, r: Round)
    requires NothingToSay(st) && CountsWith(st, leaked) && MAX_VARIABLE_BYTES <= leaked < TWO_TO_THE_64 && r.cursorDone
    ensures FlushesAt(st, r)
  {
    CountedCounts(st, leaked, r.src);
    DueWithNothingToSay(Counted(st, r.src), leaked);
  }

  lemma OneLeak(m: Method, st: State, leaked: nat, rounds: seq<Round>, bytes: nat) returns (st': State)
    requires NothingToSay(st) && CountsWith(st, leaked)
    requires rounds != [] && !FlushesAt(st, rounds[0]) && LeavesOnly(m, rounds[0], bytes)
    ensures NothingToSay(st') && CountsWith(st', leaked + bytes)
    ensures Reports(m, st, rounds) == Reports(m, st', rounds[1..])
  {
    SameReports(m, st, rounds);
    st' := RoundState(m, st, rounds[0]);
  }

  lemma {:induction false} SameReports(m: Method, st: State, rounds: seq<Round>)
    requires rounds != [] && !FlushesAt(st, rounds[0])
    ensures Reports(m, st, rounds) == Reports(m, RoundState(m, st, rounds[0]), rounds[1..])
  {
    NoReportYet(m, st, rounds);
  }

  lemma NextBatch(m: Method, p: Pair, x: Doc, flag: bool)
    requires Plain(m, p, x)
    ensures LeavesOnly(m, FirstRound(p, flag), Weight(p.a.key, p.a))
  {
    var r := FirstRound(p, flag);
    forall st, leaked: nat | NothingToSay(st) && CountsWith(st, leaked) && !FlushesAt(st, r)
      ensures NothingToSay(RoundState(m, st, r)) && CountsWith(RoundState(m, st, r), leaked + Weight(p.a.key, p.a))
    {
      BatchLeavesOnly(m, p, x, st, leaked, r);
    }
  }

  lemma BatchLeavesOnly(m: Method, p: Pair, x: Doc, st: State, leaked: nat, r: Round)
    requires NothingToSay(st) && CountsWith(st, leaked) && Plain(m, p, x)
    requires r.src == [p.a, p.a, p.b] && r.dst == [p.b, p.a] && !FlushesAt(st, r)
    ensures NothingToSay(RoundState(m, st, r)) && CountsWith(RoundState(m, st, r), leaked + Weight(p.a.key, p.a))
  {
    var st1 := Counted(st, r.src);
    CountedCounts(st, leaked, r.src);
    BatchLeaves(m, st1, p, x);
    BatchesCount(m, st1, leaked, r.src, r.dst);
  }

  lemma {:induction false} PartitionIsLeaky(m: Method, pairs: seq<Pair>, x: Doc, flag: bool)
    requires AllPlain(m, pairs, x) && (pairs == [] ==> flag)
    ensures Leaky(m, PartitionRounds(pairs, x, flag), pairs)
    decreases |pairs|
  {
    if pairs != [] {
      NextBatch(m, pairs[0], x, flag);
      PartitionIsLeaky(m, pairs[1..], x, true);
      assert PartitionRounds(pairs, x, flag)[1..] == PartitionRounds(pairs[1..], x, true);
    }
  }

  // ---- What is missed --------------------------------------------------------------------

  lemma {:induction false} XIsMissing(m: Method, pairs: seq<Pair>, x: Doc)
    requires AllPlain(m, pairs, x)
    ensures x.key in Index(AllSrc(Partition(pairs, x))) && Index(AllSrc(Partition(pairs, x)))[x.key] == x
    ensures x.key !in Index(AllFound(Partition(pairs, x)))
  {
    var all := Partition(pairs, x);
    if pairs == [] {
      JustOne(x);
    } else {
      var p := pairs[0];
      XIsMissing(m, pairs[1..], x);
      assert all[1..] == Partition(pairs[1..], x);
      IndexAppend([p.a, p.a, p.b], AllSrc(all[1..]));
      IndexAppend([p.b, p.a], AllFound(all[1..]));
      IndexKeys([p.b, p.a], x.key);
    }
  }

  lemma JustOne(x: Doc)
    ensures Index(AllSrc([IdBatch([x], [])])) == map[x.key := x] && Index(AllFound([IdBatch([x], [])])) == map[]
  {
    var all := [IdBatch([x], [])];
    assert all[1..] == [] && [x] + [] == [x] && [x][1..] == [];
    assert AllSrc(all) == [x] + AllSrc(all[1..]) && AllFound(all) == [] + AllFound(all[1..]);
    assert Index([x]) == map[x.key := x] + Index([x][1..]);
  }

  /** The worker completes the task although `x` is missing on the destination: all that it reads
      is one empty report. */
  lemma {:induction false} RepeatedKeysHideMismatch(m: Method, pairs: seq<Pair>, x: Doc, sent: seq<Sent>, lastGeneration: bool)
    requires Hides(m, pairs, x)
    requires AsReports(sent) == Reports(m, Empty, Rounds(SrcMsgs(Partition(pairs, x)), true, DstMsgs(Partition(pairs, x)), true))
    ensures sent != [] && VerdictOn(sent[..ReadCount(sent)], lastGeneration).status == Completed
    ensures Due(m, Index(AllSrc(Partition(pairs, x))), Index(AllFound(Partition(pairs, x))), MissingOnTarget(m, x)) == 1
  {
    RunOfPartition(m, pairs, x);
    EmptyReportEndsTask(sent, lastGeneration);
    XIsMissing(m, pairs, x);
  }

  lemma {:induction false} RunOfPartition(m: Method, pairs: seq<Pair>, x: Doc)
    requires Hides(m, pairs, x)
    ensures FirstIsEmpty(Reports(m, Empty, Rounds(SrcMsgs(Partition(pairs, x)), true, DstMsgs(Partition(pairs, x)), true)))
  {
    MessagesOfPartition(m, pairs, x);
    PartitionIsLeaky(m, pairs, x, false);
    RunIsEmptyFirst(m, Empty, PartitionRounds(pairs, x, false), pairs);
  }

  lemma {:induction false} MessagesOfPartition(m: Method, pairs: seq<Pair>, x: Doc)
    requires AllPlain(m, pairs, x) && |x.body| <= MAX_DOCUMENT_BYTES
    ensures Rounds(SrcMsgs(Partition(pairs, x)), true, DstMsgs(Partition(pairs, x)), true)
         == PartitionRounds(pairs, x, false)
  {
    var batches := Partition(pairs, x);
    RoundsOfPartition(m, pairs, x, false);
    BatchesInLockStep(batches, false);
    assert Flag(false) + DstMsgs(batches) == DstMsgs(batches);
  }

  lemma {:induction false} RunIsEmptyFirst(m: Method, st: State, rounds: seq<Round>, pairs: seq<Pair>)
    requires st == Empty && Leaky(m, rounds, pairs) && MAX_VARIABLE_BYTES <= Leavings(pairs) < TWO_TO_THE_64
    ensures FirstIsEmpty(Reports(m, st, rounds))
  {
    EmptyCounts(st);
    FirstReportIsEmpty(m, st, 0, rounds, pairs);
  }

  lemma {:induction false} LeavingsOfOne(p: Pair, more: seq<Pair>)
    ensures Leavings([p] + more) == Weight(p.a.key, p.a) + Leavings(more)
  {
  }

  lemma BytesOfThree(a: Doc, b: Doc)
    ensures BodyBytes([a, a, b]) == 2 * |a.body| + |b.body|
  {
    assert [a, a, b][..2] == [a, a] && [a, a][..1] == [a] && [a][..0] == [];
    assert BodyBytes([a, a]) == BodyBytes([a]) + |a.body|;
  }

  function NumberedPair(i: Byte): Pair
    requires i < 100
  {
    Pair(Numbered(i, 8_000_000), Numbered(i + 100, 0))
  }

  lemma NumberedIsPlain(i: Byte)
    requires i < 100
    ensures Plain(NoDifference, NumberedPair(i), Numbered(255, 0))
  {
    BytesOfThree(NumberedPair(i).a, NumberedPair(i).b);
  }

  /** There are such partitions: with four documents of eight million bytes that come twice, say. */
  lemma SuchPartitionsExist() returns (m: Method, pairs: seq<Pair>, x: Doc)
    ensures Hides(m, pairs, x) && |pairs| == 4
  {
    m, x := NoDifference, Numbered(255, 0);
    var p0, p1, p2, p3 := NumberedPair(0), NumberedPair(1), NumberedPair(2), NumberedPair(3);
    pairs := [p0, p1, p2, p3];
    NumberedIsPlain(0);
    NumberedIsPlain(1);
    NumberedIsPlain(2);
    NumberedIsPlain(3);
    FourLeavings(p0, p1, p2, p3);
  }

  lemma FourLeavings(p0: Pair, p1: Pair, p2: Pair, p3: Pair)
    ensures Leavings([p0, p1, p2, p3])
         == Weight(p0.a.key, p0.a) + Weight(p1.a.key, p1.a) + Weight(p2.a.key, p2.a) + Weight(p3.a.key, p3.a)
  {
    LeavingsOfOne(p3, []);
    LeavingsOfOne(p2, [p3]);
    LeavingsOfOne(p1, [p2, p3]);
    LeavingsOfOne(p0, [p1, p2, p3]);
    assert [p0, p1, p2, p3] == [p0] + [p1, p2, p3] && [p1, p2, p3] == [p1] + [p2, p3];
    assert [p2, p3] == [p2] + [p3] && [p3] == [p3] + [];
  }
}
