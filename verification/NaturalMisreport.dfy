/** A natural partition on which a byte-limited split makes the comparator report documents
    missing that both clusters hold. */
module NaturalMisreport {
  import opened Bson
  import opened ComparatorModel
  import opened ComparatorResults
  import opened ComparatorBytes
  import opened NaturalPartition

  predicate Large(d: Doc) { |d.body| == MAX_DOCUMENT_BYTES }

  // ---- How much the comparator can hold --------------------------------------------------

  const STEP := 0x200_0000_0000_0000

  predicate Small(d: Doc) { |d.key| <= MAX_DOCUMENT_BYTES && |d.body| <= MAX_DOCUMENT_BYTES }

  /** The findings about two documents that a server can store do not fill the byte counter. */
  ghost predicate Modest(m: Method) {
    forall s, d | Small(s) && Small(d) :: IdBytes(Paired(m, s, d)) < STEP
  }

  predicate AllSmall(docs: seq<Doc>) { forall d | d in docs :: Small(d) }

  predicate SmallCaches(st: State) {
    && (forall k | k in st.src :: Small(st.src[k]))
    && (forall k | k in st.dst :: Small(st.dst[k]))
  }

  lemma CacheGrows(docs: map<Key, Doc>, k: Key, d: Doc)
    ensures CacheBytes(docs[k := d]) <= CacheBytes(docs) + Weight(k, d)
  {
    if k in docs {
      CacheBytesReplace(docs, k, d);
    } else {
      CacheBytesAdd(docs, k, d);
    }
  }

  lemma SrcGrows(m: Method, st: State, s: Doc)
    requires Modest(m) && SmallCaches(st) && Small(s)
    ensures SmallCaches(ProcessSrc(m, st, s)) && Held(ProcessSrc(m, st, s)) <= Held(st) + STEP
  {
    if s.key in st.dst {
      CacheBytesSplit(st.dst, s.key);
      IdBytesAppend(st.problems, Paired(m, s, st.dst[s.key]));
    } else {
      CacheGrows(st.src, s.key, s);
    }
  }

  lemma DstGrows(m: Method, st: State, d: Doc)
    requires Modest(m) && SmallCaches(st) && Small(d)
    ensures SmallCaches(ProcessDst(m, st, d)) && Held(ProcessDst(m, st, d)) <= Held(st) + STEP
  {
    if d.key in st.src {
      CacheBytesSplit(st.src, d.key);
      IdBytesAppend(st.problems, Paired(m, st.src[d.key], d));
    } else {
      CacheGrows(st.dst, d.key, d);
    }
  }

  lemma {:induction false} BatchesGrow(m: Method, st: State, src: seq<Doc>, dst: seq<Doc>)
    requires Modest(m) && SmallCaches(st) && AllSmall(src) && AllSmall(dst)
    ensures SmallCaches(Interleave(m, st, src, dst))
    ensures Held(Interleave(m, st, src, dst)) <= Held(st) + (|src| + |dst|) * STEP
    decreases |src| + |dst|
  {
    if src != [] || dst != [] {
      var st1 := st;
      if src != [] {
        SrcGrows(m, st, src[0]);
        st1 := ProcessSrc(m, st, src[0]);
      }
      var st2 := st1;
      if dst != [] {
        DstGrows(m, st1, dst[0]);
        st2 := ProcessDst(m, st1, dst[0]);
      }
      BatchesGrow(m, st2, Rest(src), Rest(dst));
    }
  }

  // ---- Rounds without a cursor's end -----------------------------------------------------

  function StateAfter(m: Method, st: State, rounds: seq<Round>): State
    decreases |rounds|
  {
    if rounds == [] then st else StateAfter(m, RoundState(m, st, rounds[0]), rounds[1..])
  }

  /** What is known of a state after the documents S and D: the caches, the count, its size. */
  ghost predicate Known(m: Method, st: State, S: map<Key, Doc>, D: map<Key, Doc>, size: nat) {
    Holds(m, st, S, D) && Counts(st) && SmallCaches(st) && Held(st) <= size * STEP
  }

  lemma NothingIsKnown(m: Method, st: State, none: map<Key, Doc>)
    requires Holds(m, st, none, none) && Counts(st) && NothingToSay(st)
    ensures Known(m, st, none, none, 0)
  {
    NothingHeld(st);
  }

  lemma {:induction false} PlainRound(m: Method, st: State, S: map<Key, Doc>, D: map<Key, Doc>, size: nat, src: seq<Doc>, dst: seq<Doc>)
    requires Known(m, st, S, D, size) && Modest(m) && AllSmall(src) && AllSmall(dst)
    requires NoKeyTwice(src) && NoKeyTwice(dst)
    requires S.Keys !! Index(src).Keys && D.Keys !! Index(dst).Keys
    ensures Known(m, RoundState(m, st, Round(src, dst, false)), S + Index(src), D + Index(dst), size + |src| + |dst|)
  {
    CountedHolds(m, st, S, D, src);
    InterleaveHolds(m, Counted(st, src), S, D, src, dst);
    PlainRoundCounts(m, st, src, dst);
    PlainRoundGrows(m, st, src, dst);
  }

  lemma {:induction false} PlainRoundCounts(m: Method, st: State, src: seq<Doc>, dst: seq<Doc>)
    requires Counts(st) && NeverReplaces(m, Counted(st, src), src, dst)
    ensures Counts(RoundState(m, st, Round(src, dst, false)))
  {
    CountedCounts(st, 0, src);
    NothingLeaks(m, Counted(st, src), src, dst);
    BatchesCount(m, Counted(st, src), 0, src, dst);
  }

  lemma PlainRoundGrows(m: Method, st: State, src: seq<Doc>, dst: seq<Doc>)
    requires Modest(m) && SmallCaches(st) && AllSmall(src) && AllSmall(dst)
    ensures var st' := RoundState(m, st, Round(src, dst, false));
      SmallCaches(st') && Held(st') <= Held(st) + (|src| + |dst|) * STEP
  {
    assert Held(Counted(st, src)) == Held(st);
    BatchesGrow(m, Counted(st, src), src, dst);
  }

  lemma {:induction false} PlainRounds(m: Method, st: State, S: map<Key, Doc>, D: map<Key, Doc>, size: nat, rounds: seq<Round>)
    requires Known(m, st, S, D, size) && Modest(m) && NoFlag(rounds)
    requires AllSmall(SrcDocs(rounds)) && AllSmall(DstDocs(rounds))
    requires NoKeyTwice(SrcDocs(rounds)) && NoKeyTwice(DstDocs(rounds))
    requires S.Keys !! Index(SrcDocs(rounds)).Keys && D.Keys !! Index(DstDocs(rounds)).Keys
    ensures Known(m, StateAfter(m, st, rounds), S + Index(SrcDocs(rounds)), D + Index(DstDocs(rounds)),
                  size + |SrcDocs(rounds)| + |DstDocs(rounds)|)
    decreases |rounds|
  {
    if rounds == [] {
      NonePlus(S);
      NonePlus(D);
    } else {
      var r := rounds[0];
      RoundParts(S, D, rounds);
      PlainRound(m, st, S, D, size, r.src, r.dst);
      assert r == Round(r.src, r.dst, false);
      PlainRounds(m, RoundState(m, st, r), S + Index(r.src), D + Index(r.dst), size + |r.src| + |r.dst|, rounds[1..]);
    }
  }

  lemma {:induction false} ReportsAfter(m: Method, st: State, plain: seq<Round>, rest: seq<Round>)
    requires NoFlag(plain)
    ensures Reports(m, st, plain + rest) == Reports(m, StateAfter(m, st, plain), rest)
    decreases |plain|
  {
    if plain == [] {
      assert plain + rest == rest;
    } else {
      assert (plain + rest)[0] == plain[0] && (plain + rest)[1..] == plain[1..] + rest;
      NoReportYet(m, st, plain + rest);
      ReportsAfter(m, RoundState(m, st, plain[0]), plain[1..], rest);
    }
  }

  // ---- A flush with documents still to be answered ---------------------------------------

  lemma {:induction false} TwoCached(docs: map<Key, Doc>, x: Doc, y: Doc)
    requires x.key != y.key && x.key in docs && y.key in docs && docs[x.key] == x && docs[y.key] == y
    ensures CacheBytes(docs) >= |x.body| + |y.body|
  {
    CacheBytesSplit(docs, x.key);
    CacheBytesSplit(docs - {x.key}, y.key);
  }

  /** Two large documents that only the source has sent so far make the next flush due, and it
      reports both missing. */
  lemma LargeUnpairedAreReported(m: Method, st: State, S: map<Key, Doc>, D: map<Key, Doc>, size: nat, x: Doc, y: Doc)
    requires Known(m, st, S, D, size) && size <= 100
    requires Large(x) && Large(y) && x.key != y.key
    requires x.key in S && y.key in S && S[x.key] == x && S[y.key] == y && x.key !in D && y.key !in D
    ensures NeedsFlush(st) && MissingOnTarget(m, x) in ReportOf(m, st).problems
  {
    TwoCached(st.src, x, y);
    assert Wrap(Held(st)) == Held(st);
    FlushAt(m, st, S, D, MissingOnTarget(m, x));
    assert ProblemsAt(m, S, D, x.key) == [MissingOnTarget(m, x)];
  }

  lemma {:induction false} FlushedReports(m: Method, st: State, rounds: seq<Round>)
    requires rounds != [] && rounds[0].cursorDone && rounds[0].src == [] && NeedsFlush(st)
    ensures ReportOf(m, st).problems <= AllProblems(Reports(m, st, rounds))
  {
    assert Counted(st, []) == st;
    OneReportMore(ReportOf(m, st), Reports(m, RoundState(m, st, rounds[0]), rounds[1..]));
  }

  lemma {:induction false} RunFromStart(m: Method, st: State, none: map<Key, Doc>, rounds: seq<Round>, S: map<Key, Doc>, D: map<Key, Doc>)
    requires Known(m, st, none, none, 0) && none == map[] && Modest(m) && NoFlag(rounds)
    requires AllSmall(SrcDocs(rounds)) && AllSmall(DstDocs(rounds))
    requires NoKeyTwice(SrcDocs(rounds)) && NoKeyTwice(DstDocs(rounds))
    requires S == Index(SrcDocs(rounds)) && D == Index(DstDocs(rounds))
    ensures Known(m, StateAfter(m, st, rounds), S, D, |SrcDocs(rounds)| + |DstDocs(rounds)|)
  {
    PlainRounds(m, st, none, none, 0, rounds);
    NonePlus(S);
    NonePlus(D);
  }

  lemma StartIsKnown(m: Method, st: State, none: map<Key, Doc>)
    requires st == Empty && none == map[]
    ensures Known(m, st, none, none, 0)
  {
    EmptyHolds(m, st, none);
    EmptyCounts(st);
    NothingIsKnown(m, st, none);
  }

  /** Rounds that find no cursor done, after which two large documents of the source are still
      without an answer. */
  predicate LeavesTwo(plain: seq<Round>, x: Doc, y: Doc) {
    && NoFlag(plain)
    && AllSmall(SrcDocs(plain)) && AllSmall(DstDocs(plain)) && |SrcDocs(plain)| + |DstDocs(plain)| <= 100
    && NoKeyTwice(SrcDocs(plain)) && NoKeyTwice(DstDocs(plain))
    && x in SrcDocs(plain) && y in SrcDocs(plain) && x.key != y.key && Large(x) && Large(y)
    && x.key !in Index(DstDocs(plain)) && y.key !in Index(DstDocs(plain))
  }

  lemma {:induction false} ReportedTooEarly(m: Method, st: State, plain: seq<Round>, later: seq<Round>, x: Doc, y: Doc)
    requires st == Empty && Modest(m) && LeavesTwo(plain, x, y)
    requires later != [] && later[0].cursorDone && later[0].src == []
    ensures MissingOnTarget(m, x) in AllProblems(Reports(m, st, plain + later))
  {
    var none: map<Key, Doc> := map[];
    StartIsKnown(m, st, none);
    DueTooEarly(m, st, none, plain, x, y);
    FlushAfter(m, st, plain, later);
  }

  lemma {:induction false} DueTooEarly(m: Method, st: State, none: map<Key, Doc>, plain: seq<Round>, x: Doc, y: Doc)
    requires Known(m, st, none, none, 0) && none == map[] && Modest(m) && LeavesTwo(plain, x, y)
    ensures var st' := StateAfter(m, st, plain); NeedsFlush(st') && MissingOnTarget(m, x) in ReportOf(m, st').problems
  {
    var S, D := Index(SrcDocs(plain)), Index(DstDocs(plain));
    RunFromStart(m, st, none, plain, S, D);
    IndexHolds(SrcDocs(plain), x);
    IndexHolds(SrcDocs(plain), y);
    LargeUnpairedAreReported(m, StateAfter(m, st, plain), S, D, |SrcDocs(plain)| + |DstDocs(plain)|, x, y);
  }

  lemma {:induction false} FlushAfter(m: Method, st: State, plain: seq<Round>, later: seq<Round>)
    requires NoFlag(plain) && later != [] && later[0].cursorDone && later[0].src == []
    requires NeedsFlush(StateAfter(m, st, plain))
    ensures ReportOf(m, StateAfter(m, st, plain)).problems <= AllProblems(Reports(m, st, plain + later))
  {
    ReportsAfter(m, st, plain, later);
    FlushedReports(m, StateAfter(m, st, plain), later);
  }

  // ---- The partition ---------------------------------------------------------------------

  /** Five documents that have become large on the destination, and two large ones that are the
      same on both clusters; the source sends the five in one reply and each other one alone. */
  function Batches(s: seq<Doc>, d: seq<Doc>, x: Doc, y: Doc): seq<IdBatch> {
    [IdBatch(s, d), IdBatch([x], [x]), IdBatch([y], [y])]
  }

  predicate Drifting(s: seq<Doc>, d: seq<Doc>, x: Doc, y: Doc) {
    && |s| == |d| == 5 && (forall i | 0 <= i < 5 :: s[i].key == d[i].key && Large(d[i]))
    && Large(x) && Large(y) && AllSmall(s + [x, y]) && NoKeyTwice(s + [x, y])
    && forall b | b in Batches(s, d, x, y) :: Receivable(b)
  }

  lemma BytesOfTwo(a: Doc, b: Doc)
    ensures BodyBytes([a]) == |a.body| && BodyBytes([a, b]) == |a.body| + |b.body|
  {
    assert [a][..0] == [] && [a, b][..1] == [a];
  }

  lemma {:induction false} TakesTwo(a: Doc, b: Doc, rest: seq<Doc>)
    requires Large(a) && Large(b)
    ensures Split([a], [b] + rest) == Split([a, b], rest)
  {
    BytesOfTwo(a, b);
    assert ([b] + rest)[1..] == rest && [a] + [b] == [a, b];
  }

  lemma {:induction false} NotThree(a: Doc, b: Doc, c: Doc, rest: seq<Doc>)
    requires Large(a) && Large(b) && Large(c)
    ensures Split([a, b], [c] + rest) == [Docs([a, b])] + Split([c], rest)
  {
    BytesOfTwo(a, b);
    assert ([c] + rest)[1..] == rest;
  }

  lemma {:induction false} TakesFirst(a: Doc, rest: seq<Doc>)
    requires Large(a)
    ensures Split([], [a] + rest) == Split([a], rest)
  {
    assert ([a] + rest)[1..] == rest && [] + [a] == [a];
  }

  lemma {:induction false} FiveTakeThree(d: seq<Doc>)
    requires |d| == 5 && forall i | 0 <= i < 5 :: Large(d[i])
    ensures Split([], d) == [Docs([d[0], d[1]]), Docs([d[2], d[3]]), Docs([d[4]])]
  {
    assert d == [d[0]] + ([d[1]] + ([d[2]] + ([d[3]] + ([d[4]] + []))));
    TakesFirst(d[0], [d[1]] + ([d[2]] + ([d[3]] + ([d[4]] + []))));
    TakesTwo(d[0], d[1], [d[2]] + ([d[3]] + ([d[4]] + [])));
    NotThree(d[0], d[1], d[2], [d[3]] + ([d[4]] + []));
    TakesTwo(d[2], d[3], [d[4]] + []);
    NotThree(d[2], d[3], d[4], []);
  }

  lemma AnswerOfOne(x: Doc)
    requires Large(x)
    ensures DstAnswer(IdBatch([x], [x])) == [Docs([x])]
  {
    assert [x] == [x] + [];
    TakesFirst(x, []);
    assert Paddings(0) == [];
  }

  function SrcSent(s: seq<Doc>, x: Doc, y: Doc): seq<Msg> { [Docs(s), Docs([x]), Docs([y])] }

  function FoundSent(d: seq<Doc>): seq<Msg>
    requires |d| == 5
  {
    [Docs([d[0], d[1]]), Docs([d[2], d[3]]), Docs([d[4]])]
  }

  function DstSentLater(x: Doc, y: Doc): seq<Msg> { [CursorDone, Docs([x]), CursorDone, Docs([y]), CursorDone] }

  lemma SrcMessages(s: seq<Doc>, d: seq<Doc>, x: Doc, y: Doc)
    requires |s| == 5
    ensures SrcMsgs(Batches(s, d, x, y)) == SrcSent(s, x, y)
  {
    var all := Batches(s, d, x, y);
    OneChunk(s);
    OneChunk([x]);
    OneChunk([y]);
    assert all[1..][1..] == all[2..] && all[2..][1..] == [];
    assert SrcMsgs(all[2..]) == [Docs([y])] && SrcMsgs(all[1..]) == [Docs([x])] + SrcMsgs(all[2..]);
  }

  lemma DstMessages(s: seq<Doc>, d: seq<Doc>, x: Doc, y: Doc)
    requires Drifting(s, d, x, y)
    ensures DstMsgs(Batches(s, d, x, y)) == FoundSent(d) + DstSentLater(x, y)
  {
    var all := Batches(s, d, x, y);
    FiveTakeThree(d);
    AnswerOfOne(x);
    AnswerOfOne(y);
    assert Paddings(0) == [] && DstAnswer(all[0]) == FoundSent(d);
    assert all[1..][1..] == all[2..] && all[2..][1..] == [];
    assert DstMsgs(all[2..]) == [Docs([y]), CursorDone];
    assert DstMsgs(all[1..]) == [Docs([x]), CursorDone] + DstMsgs(all[2..]);
  }

  /** The rounds before the first cursor's end is noticed: by then the source has moved on to the
      third batch. */
  function Plain(s: seq<Doc>, d: seq<Doc>, x: Doc, y: Doc): seq<Round>
    requires |d| == 5
  {
    [Round(s, [d[0], d[1]], false), Round([x], [d[2], d[3]], false), Round([y], [d[4]], false)]
  }

  lemma DriftingRounds(s: seq<Doc>, d: seq<Doc>, x: Doc, y: Doc)
    requires |d| == 5
    ensures var later := Rounds([], true, DstSentLater(x, y), true);
      && Rounds(SrcSent(s, x, y), true, FoundSent(d) + DstSentLater(x, y), true) == Plain(s, d, x, y) + later
      && later != [] && later[0].src == [] && later[0].cursorDone
  {
    var found := FoundSent(d);
    PairedRounds(SrcSent(s, x, y), found, [], DstSentLater(x, y));
    assert SrcSent(s, x, y) + [] == SrcSent(s, x, y);
    ThreePairs(Docs(s), Docs([x]), Docs([y]), found[0], found[1], found[2]);
    RoundsFirst([], DstSentLater(x, y));
    TakeAfterFlag([Docs([x]), CursorDone, Docs([y]), CursorDone], true);
    assert Flag(true) + [Docs([x]), CursorDone, Docs([y]), CursorDone] == DstSentLater(x, y);
  }

  lemma ThreePairs(s1: Msg, s2: Msg, s3: Msg, d1: Msg, d2: Msg, d3: Msg)
    ensures PairUp([s1, s2, s3], [d1, d2, d3], false) ==
      [Round(DocsOf(s1), DocsOf(d1), false), Round(DocsOf(s2), DocsOf(d2), false), Round(DocsOf(s3), DocsOf(d3), false)]
  {
    assert [s1, s2, s3][1..] == [s2, s3] && [s2, s3][1..] == [s3] && [s3][1..] == [];
    assert [d1, d2, d3][1..] == [d2, d3] && [d2, d3][1..] == [d3] && [d3][1..] == [];
    assert PairUp([s3], [d3], false) == [Round(DocsOf(s3), DocsOf(d3), false)];
    assert PairUp([s2, s3], [d2, d3], false) == [Round(DocsOf(s2), DocsOf(d2), false)] + PairUp([s3], [d3], false);
  }

  lemma PlainDocs(s: seq<Doc>, d: seq<Doc>, x: Doc, y: Doc)
    requires |d| == 5
    ensures SrcDocs(Plain(s, d, x, y)) == s + [x, y] && DstDocs(Plain(s, d, x, y)) == d
  {
    var r := Plain(s, d, x, y);
    assert r[1..][1..] == r[2..] && r[2..][1..] == [];
    assert SrcDocs(r[2..]) == [y] && SrcDocs(r[1..]) == [x] + [y];
    assert DstDocs(r[2..]) == [d[4]] && DstDocs(r[1..]) == [d[2], d[3]] + [d[4]];
  }

  lemma {:induction false} KeysOfDrifting(s: seq<Doc>, d: seq<Doc>, x: Doc, y: Doc)
    requires Drifting(s, d, x, y)
    ensures AllSmall(d) && NoKeyTwice(d)
    ensures x.key !in Index(d) && y.key !in Index(d) && x.key != y.key
  {
    var all := s + [x, y];
    assert forall i | 0 <= i < 5 :: all[i] == s[i];
    assert all[5] == x && all[6] == y;
    IndexKeys(d, x.key);
    IndexKeys(d, y.key);
    forall e | e in d ensures Small(e) {
      var i :| 0 <= i < 5 && d[i] == e;
      assert all[i] in all;
    }
  }

  lemma OnBothSides(s: seq<Doc>, d: seq<Doc>, x: Doc, y: Doc)
    ensures x.key in Index(AllSrc(Batches(s, d, x, y))) && x.key in Index(AllFound(Batches(s, d, x, y)))
  {
    var all := Batches(s, d, x, y);
    var later := all[1..];
    assert later[0] == IdBatch([x], [x]);
    assert AllSrc(later) == [x] + AllSrc(later[1..]) && AllFound(later) == [x] + AllFound(later[1..]);
    assert AllSrc(all) == s + AllSrc(later) && AllFound(all) == d + AllFound(later);
    IndexKeys(AllSrc(all), x.key);
    IndexKeys(AllFound(all), x.key);
    assert AllSrc(all)[|s|] == x && AllFound(all)[|d|] == x;
  }

  /** The destination's answer for the first batch takes three messages instead of one, so the
      documents of the second and third batch are already cached when the first cursor's end is
      noticed. The flush then due reports `x` missing on the destination, although it is found
      there, and is the same. */
  lemma {:induction false} ByteSplitMisreports(m: Method, s: seq<Doc>, d: seq<Doc>, x: Doc, y: Doc)
    requires Drifting(s, d, x, y) && Modest(m)
    ensures var batches := Batches(s, d, x, y);
      var reports := Reports(m, Empty, Rounds(SrcMsgs(batches), true, DstMsgs(batches), true));
      && MissingOnTarget(m, x) in AllProblems(reports)
      && Due(m, Index(AllSrc(batches)), Index(AllFound(batches)), MissingOnTarget(m, x)) == 0
  {
    NotMissing(m, s, d, x, y);
    SrcMessages(s, d, x, y);
    DstMessages(s, d, x, y);
    DriftingRounds(s, d, x, y);
    DriftingIsReported(m, s, d, x, y);
  }

  lemma NotMissing(m: Method, s: seq<Doc>, d: seq<Doc>, x: Doc, y: Doc)
    ensures var batches := Batches(s, d, x, y);
      Due(m, Index(AllSrc(batches)), Index(AllFound(batches)), MissingOnTarget(m, x)) == 0
  {
    OnBothSides(s, d, x, y);
    NeverMissing(m, Index(AllSrc(Batches(s, d, x, y))), Index(AllFound(Batches(s, d, x, y))), MissingOnTarget(m, x));
  }

  lemma {:induction false} DriftingIsReported(m: Method, s: seq<Doc>, d: seq<Doc>, x: Doc, y: Doc)
    requires Drifting(s, d, x, y) && Modest(m)
    ensures var later := Rounds([], true, DstSentLater(x, y), true);
      MissingOnTarget(m, x) in AllProblems(Reports(m, Empty, Plain(s, d, x, y) + later))
  {
    DriftingRounds(s, d, x, y);
    PlainDocs(s, d, x, y);
    KeysOfDrifting(s, d, x, y);
    ReportedTooEarly(m, Empty, Plain(s, d, x, y), Rounds([], true, DstSentLater(x, y), true), x, y);
  }

  function Five(bytes: nat): seq<Doc> {
    [Numbered(0, bytes), Numbered(1, bytes), Numbered(2, bytes), Numbered(3, bytes), Numbered(4, bytes)]
  }

  lemma {:induction false} NoBodies(docs: seq<Doc>)
    requires forall d | d in docs :: d.body == []
    ensures BodyBytes(docs) == 0
  {
    if docs != [] {
      NoBodies(docs[..|docs| - 1]);
    }
  }

  lemma NoDifferenceIsModest()
    ensures Modest(NoDifference)
  {
    forall a, b | Small(a) && Small(b) ensures IdBytes(Paired(NoDifference, a, b)) < STEP {
      assert Paired(NoDifference, a, b) == [];
    }
  }

  lemma AllReceivable(s: seq<Doc>, d: seq<Doc>, x: Doc, y: Doc)
    requires Receivable(IdBatch(s, d))
    requires |x.body| <= MAX_DOCUMENT_BYTES && |y.body| <= MAX_DOCUMENT_BYTES
    ensures forall b | b in Batches(s, d, x, y) :: Receivable(b)
  {
  }

  lemma FiveAreReceivable()
    ensures Receivable(IdBatch(Five(0), Five(MAX_DOCUMENT_BYTES)))
  {
    NoBodies(Five(0));
  }

  lemma FiveAndTwo(x: Doc, y: Doc)
    requires x == Numbered(5, MAX_DOCUMENT_BYTES) && y == Numbered(6, MAX_DOCUMENT_BYTES)
    ensures AllSmall(Five(0) + [x, y]) && NoKeyTwice(Five(0) + [x, y])
  {
  }

  /** There are such partitions. */
  lemma SuchPartitionsExist() returns (m: Method, s: seq<Doc>, d: seq<Doc>, x: Doc, y: Doc)
    ensures Drifting(s, d, x, y) && Modest(m)
  {
    m, s, d := NoDifference, Five(0), Five(MAX_DOCUMENT_BYTES);
    x, y := Numbered(5, MAX_DOCUMENT_BYTES), Numbered(6, MAX_DOCUMENT_BYTES);
    NoDifferenceIsModest();
    FiveAreReceivable();
    FiveAndTwo(x, y);
    AllReceivable(s, d, x, y);
  }
}
