/** The comparator's byte count, which decides early flushes, and the consumer of its reports,
    which stops at the first report without problems. */
module ComparatorBytes {
  import opened Bson
  import opened ComparatorModel
  import opened ComparatorResults

  /** The key and document bytes of a cache. */
  ghost function CacheBytes(docs: map<Key, Doc>): nat {
    if docs == map[] then 0
    else
      var k :| k in docs;
      Weight(k, docs[k]) + CacheBytes(docs - {k})
  }

  /** What the byte count is meant to be. */
  ghost function Held(st: State): nat {
    CacheBytes(st.src) + CacheBytes(st.dst) + IdBytes(st.problems)
  }

  /** The count is right up to `leaked`, which documents replaced since the last flush have left. */
  ghost predicate CountsWith(st: State, leaked: nat) { st.cachedBytes == Wrap(Held(st) + leaked) }

  ghost predicate Counts(st: State) { CountsWith(st, 0) }

  /** The bytes of the cached document that a source document replaces, if it replaces one. */
  function SrcLeak(st: State, s: Doc): nat {
    if s.key !in st.dst && s.key in st.src then Weight(s.key, st.src[s.key]) else 0
  }

  function DstLeak(st: State, d: Doc): nat {
    if d.key !in st.src && d.key in st.dst then Weight(d.key, st.dst[d.key]) else 0
  }

  /** The bytes of all documents replaced while two batches are processed. */
  function Leaked(m: Method, st: State, src: seq<Doc>, dst: seq<Doc>): nat
    decreases |src| + |dst|
  {
    if src == [] && dst == [] then 0
    else
      var st1 := if src == [] then st else ProcessSrc(m, st, src[0]);
      var st2 := if dst == [] then st1 else ProcessDst(m, st1, dst[0]);
      (if src == [] then 0 else SrcLeak(st, src[0])) + (if dst == [] then 0 else DstLeak(st1, dst[0]))
      + Leaked(m, st2, Rest(src), Rest(dst))
  }

  lemma {:induction false} CacheBytesSplit(docs: map<Key, Doc>, k: Key)
    requires k in docs
    ensures CacheBytes(docs) == Weight(k, docs[k]) + CacheBytes(docs - {k})
    decreases |docs|
  {
    var j :| j in docs && CacheBytes(docs) == Weight(j, docs[j]) + CacheBytes(docs - {j});
    if j != k {
      CacheBytesSplit(docs - {j}, k);
      CacheBytesSplit(docs - {k}, j);
      assert docs - {j} - {k} == docs - {k} - {j};
    }
  }

  lemma CacheBytesAdd(docs: map<Key, Doc>, k: Key, d: Doc)
    requires k !in docs
    ensures CacheBytes(docs[k := d]) == Weight(k, d) + CacheBytes(docs)
  {
    CacheBytesSplit(docs[k := d], k);
    assert docs[k := d] - {k} == docs;
  }

  lemma CacheBytesReplace(docs: map<Key, Doc>, k: Key, d: Doc)
    requires k in docs
    ensures CacheBytes(docs[k := d]) + Weight(k, docs[k]) == Weight(k, d) + CacheBytes(docs)
  {
    CacheBytesSplit(docs[k := d], k);
    CacheBytesSplit(docs, k);
    assert docs[k := d] - {k} == docs - {k};
  }

  lemma {:induction false} IdBytesAppend(a: seq<Problem>, b: seq<Problem>)
    ensures IdBytes(a + b) == IdBytes(a) + IdBytes(b)
    decreases |b|
  {
    if b == [] {
      assert a + b == a;
    } else {
      IdBytesAppend(a, b[..|b| - 1]);
      assert (a + b)[..|a + b| - 1] == a + b[..|b| - 1];
    }
  }

  lemma WrapTwice(a: int, b: int)
    ensures Wrap(Wrap(a) + b) == Wrap(a + b)
  {
    var q := a / TWO_TO_THE_64;
    assert a + b == Wrap(a) + b + TWO_TO_THE_64 * q;
  }

  /** Pairing a cached document with its peer keeps the count: what its caching added is
      subtracted again, and only the bytes of the new problems' ids are added. */
  lemma {:induction false} RecordedCounts(m: Method, st: State, leaked: nat, docs: map<Key, Doc>, other: map<Key, Doc>, k: Key, s: Doc, d: Doc)
    requires st.cachedBytes == Wrap(CacheBytes(docs) + CacheBytes(other) + IdBytes(st.problems) + leaked) && k in docs
    ensures Recorded(m, st.(cachedBytes := Wrap(st.cachedBytes - Weight(k, docs[k]))), s, d).cachedBytes
         == Wrap(CacheBytes(docs - {k}) + CacheBytes(other) + IdBytes(st.problems + Paired(m, s, d)) + leaked)
  {
    CacheBytesSplit(docs, k);
    IdBytesAppend(st.problems, Paired(m, s, d));
    WrapThrice(CacheBytes(docs) + CacheBytes(other) + IdBytes(st.problems) + leaked,
      Weight(k, docs[k]), IdBytes(Paired(m, s, d)));
  }

  lemma WrapThrice(held: int, less: int, more: int)
    ensures Wrap(Wrap(Wrap(held) - less) + more) == Wrap(held - less + more)
  {
    WrapTwice(held, -less);
    WrapTwice(held - less, more);
  }

  /** The count grows by exactly the bytes of a cached document of the same side that is replaced. */
  lemma ProcessSrcCounts(m: Method, st: State, leaked: nat, s: Doc)
    requires CountsWith(st, leaked)
    ensures CountsWith(ProcessSrc(m, st, s), leaked + SrcLeak(st, s))
  {
    if s.key in st.dst {
      RecordedCounts(m, st, leaked, st.dst, st.src, s.key, s, st.dst[s.key]);
    } else {
      WrapTwice(Held(st) + leaked, Weight(s.key, s));
      if s.key in st.src {
        CacheBytesReplace(st.src, s.key, s);
      } else {
        CacheBytesAdd(st.src, s.key, s);
      }
    }
  }

  lemma ProcessDstCounts(m: Method, st: State, leaked: nat, d: Doc)
    requires CountsWith(st, leaked)
    ensures CountsWith(ProcessDst(m, st, d), leaked + DstLeak(st, d))
  {
    if d.key in st.src {
      RecordedCounts(m, st, leaked, st.src, st.dst, d.key, st.src[d.key], d);
    } else {
      WrapTwice(Held(st) + leaked, Weight(d.key, d));
      if d.key in st.dst {
        CacheBytesReplace(st.dst, d.key, d);
      } else {
        CacheBytesAdd(st.dst, d.key, d);
      }
    }
  }

  /** And over whole batches by the bytes of all that are replaced. */
  lemma {:induction false} BatchesCount(m: Method, st: State, leaked: nat, src: seq<Doc>, dst: seq<Doc>)
    requires CountsWith(st, leaked)
    ensures CountsWith(Interleave(m, st, src, dst), leaked + Leaked(m, st, src, dst))
  {
    var end, total := CountToEnd(m, st, leaked, src, dst);
  }

  lemma {:induction false} CountToEnd(m: Method, st: State, leaked: nat, src: seq<Doc>, dst: seq<Doc>)
    returns (end: State, total: nat)
    requires CountsWith(st, leaked)
    ensures end == Interleave(m, st, src, dst) && total == leaked + Leaked(m, st, src, dst) && CountsWith(end, total)
    decreases |src| + |dst|
  {
    if src == [] && dst == [] {
      return st, leaked;
    }
    var st2, more := OneOfEach(m, st, leaked, src, dst);
    end, total := CountToEnd(m, st2, leaked + more, Rest(src), Rest(dst));
  }

  /** One document of each batch, if there is one. */
  lemma {:induction false} OneOfEach(m: Method, st: State, leaked: nat, src: seq<Doc>, dst: seq<Doc>)
    returns (st2: State, more: nat)
    requires CountsWith(st, leaked) && (src != [] || dst != [])
    ensures CountsWith(st2, leaked + more)
    ensures Interleave(m, st, src, dst) == Interleave(m, st2, Rest(src), Rest(dst))
    ensures Leaked(m, st, src, dst) == more + Leaked(m, st2, Rest(src), Rest(dst))
  {
    var st1 := st;
    more := 0;
    if src != [] {
      ProcessSrcCounts(m, st, leaked, src[0]);
      st1, more := ProcessSrc(m, st, src[0]), SrcLeak(st, src[0]);
    }
    st2 := st1;
    if dst != [] {
      ProcessDstCounts(m, st1, leaked + more, dst[0]);
      st2, more := ProcessDst(m, st1, dst[0]), more + DstLeak(st1, dst[0]);
    }
  }

  lemma {:induction false} NothingLeaks(m: Method, st: State, src: seq<Doc>, dst: seq<Doc>)
    requires NeverReplaces(m, st, src, dst)
    ensures Leaked(m, st, src, dst) == 0
    decreases |src| + |dst|
  {
    if src != [] || dst != [] {
      var st1 := if src == [] then st else ProcessSrc(m, st, src[0]);
      NothingLeaks(m, if dst == [] then st1 else ProcessDst(m, st1, dst[0]), Rest(src), Rest(dst));
    }
  }

  // ---- Reports without problems ----------------------------------------------------------

  predicate NothingToSay(st: State) { st.src == map[] && st.dst == map[] && st.problems == [] }

  lemma ReportIsEmptyIff(m: Method, st: State)
    ensures ReportOf(m, st).problems == multiset{} <==> NothingToSay(st)
  {
    if k :| k in st.src {
      assert MissingOnTarget(m, st.src[k]) in MissingTargets(m, st.src);
      assert MissingOnTarget(m, st.src[k]) in ReportOf(m, st).problems;
    } else if k :| k in st.dst {
      assert MissingOnSource(m, st.dst[k]) in MissingSources(m, st.dst);
      assert MissingOnSource(m, st.dst[k]) in ReportOf(m, st).problems;
    } else if st.problems != [] {
      assert st.problems[0] in ReportOf(m, st).problems;
    } else {
      assert MissingTargets(m, st.src) == {} && MissingSources(m, st.dst) == {};
    }
  }

  /** Every report but the last has problems. */
  ghost predicate OnlyLastMayBeEmpty(reports: seq<Report>) {
    forall i | 0 <= i < |reports| - 1 :: reports[i].problems != multiset{}
  }

  lemma {:induction false} NothingCached(docs: map<Key, Doc>)
    requires docs == map[]
    ensures CacheBytes(docs) == 0
  {
  }

  lemma NothingHeld(st: State)
    requires NothingToSay(st)
    ensures Held(st) == 0
  {
    NothingCached(st.src);
    NothingCached(st.dst);
  }

  /** With nothing cached and no problem, only the leavings of replaced documents make a flush due. */
  lemma DueWithNothingToSay(st: State, leaked: nat)
    requires CountsWith(st, leaked) && NothingToSay(st)
    ensures NeedsFlush(st) <==> Wrap(leaked) >= MAX_VARIABLE_BYTES
  {
    NothingHeld(st);
  }

  /** With a right byte count, a flush that is due has something to report. */
  lemma DueFlushHasProblems(m: Method, st: State)
    requires Counts(st) && NeedsFlush(st)
    ensures ReportOf(m, st).problems != multiset{}
  {
    ReportIsEmptyIff(m, st);
    if NothingToSay(st) {
      DueWithNothingToSay(st, 0);
    }
  }

  lemma EmptyCounts(st: State)
    requires st == Empty
    ensures Counts(st)
  {
    NothingHeld(st);
  }

  lemma CountedCounts(st: State, leaked: nat, docs: seq<Doc>)
    requires CountsWith(st, leaked)
    ensures CountsWith(Counted(st, docs), leaked)
    ensures NothingToSay(Counted(st, docs)) <==> NothingToSay(st)
  {
  }

  /** What replaced documents have left when a round's batches are processed, and after that. */
  function LeakBefore(st: State, leaked: nat, r: Round): nat {
    if r.cursorDone && NeedsFlush(Counted(st, r.src)) then 0 else leaked
  }

  function LeakAfter(m: Method, st: State, leaked: nat, r: Round): nat {
    LeakBefore(st, leaked, r) + Leaked(m, BeforeBatches(m, st, r), r.src, r.dst)
  }

  lemma BeforeBatchesCounts(m: Method, st: State, leaked: nat, r: Round)
    requires CountsWith(st, leaked)
    ensures CountsWith(BeforeBatches(m, st, r), LeakBefore(st, leaked, r))
  {
    if r.cursorDone && NeedsFlush(Counted(st, r.src)) {
      EmptyCounts(BeforeBatches(m, st, r));
    } else {
      CountedCounts(st, leaked, r.src);
    }
  }

  lemma RoundCounts(m: Method, st: State, leaked: nat, r: Round)
    requires CountsWith(st, leaked)
    ensures CountsWith(RoundState(m, st, r), LeakAfter(m, st, leaked, r))
  {
    BeforeBatchesCounts(m, st, leaked, r);
    BatchesCount(m, BeforeBatches(m, st, r), LeakBefore(st, leaked, r), r.src, r.dst);
  }

  /** A flush that has nothing to report, yet is due because of replaced documents. */
  predicate EmptyFlush(st: State, leaked: nat, r: Round) {
    r.cursorDone && NothingToSay(st) && Wrap(leaked) >= MAX_VARIABLE_BYTES
  }

  predicate SomeEmptyFlush(m: Method, st: State, leaked: nat, rounds: seq<Round>)
    decreases |rounds|
  {
    rounds != [] && (
      || EmptyFlush(st, leaked, rounds[0])
      || SomeEmptyFlush(m, RoundState(m, st, rounds[0]), LeakAfter(m, st, leaked, rounds[0]), rounds[1..]))
  }

  lemma RoundReportIsEmptyIff(m: Method, st: State, leaked: nat, r: Round)
    requires CountsWith(st, leaked)
    ensures EmptyFlush(st, leaked, r) <==>
      RoundReports(m, st, r) != [] && RoundReports(m, st, r)[0].problems == multiset{}
  {
    var st1 := Counted(st, r.src);
    CountedCounts(st, leaked, r.src);
    ReportIsEmptyIff(m, st1);
    if NothingToSay(st1) {
      DueWithNothingToSay(st1, leaked);
    }
  }

  lemma EarlyReport(first: seq<Report>, others: seq<Report>)
    requires |first| <= 1 && others != []
    ensures OnlyLastMayBeEmpty(first + others) <==>
      (first != [] ==> first[0].problems != multiset{}) && OnlyLastMayBeEmpty(others)
  {
    var all := first + others;
    if first == [] {
      assert all == others;
    } else {
      assert all[0] == first[0] && forall i | 0 <= i < |others| :: all[i + 1] == others[i];
      if OnlyLastMayBeEmpty(all) {
        forall i | 0 <= i < |others| - 1 ensures others[i].problems != multiset{} {
          assert all[i + 1].problems != multiset{};
        }
      }
    }
  }

  /** In any run, whatever keys repeat: some report before the last has no problems if and only if
      a flush finds nothing cached, no problem recorded, and enough bytes left by documents that
      were replaced since the flush before. */
  lemma {:induction false} EarlyReportIsEmptyIff(m: Method, st: State, leaked: nat, rounds: seq<Round>)
    requires CountsWith(st, leaked)
    ensures Reports(m, st, rounds) != []
    ensures OnlyLastMayBeEmpty(Reports(m, st, rounds)) <==> !SomeEmptyFlush(m, st, leaked, rounds)
    decreases |rounds|
  {
    if rounds != [] {
      var r := rounds[0];
      RoundCounts(m, st, leaked, r);
      EarlyReportIsEmptyIff(m, RoundState(m, st, r), LeakAfter(m, st, leaked, r), rounds[1..]);
      RoundReportIsEmptyIff(m, st, leaked, r);
      EarlyReport(RoundReports(m, st, r), Reports(m, RoundState(m, st, r), rounds[1..]));
    }
  }

  lemma {:induction false} RunHasEmptyReportIff(m: Method, st: State, rounds: seq<Round>)
    requires st == Empty
    ensures Reports(m, st, rounds) != []
    ensures OnlyLastMayBeEmpty(Reports(m, st, rounds)) <==> !SomeEmptyFlush(m, st, 0, rounds)
  {
    EmptyCounts(st);
    EarlyReportIsEmptyIff(m, st, 0, rounds);
  }

  lemma {:induction false} NoEmptyFlush(m: Method, st: State, rounds: seq<Round>)
    requires RunNeverReplaces(m, st, rounds)
    ensures !SomeEmptyFlush(m, st, 0, rounds)
    decreases |rounds|
  {
    if rounds != [] {
      var r := rounds[0];
      NothingLeaks(m, BeforeBatches(m, st, r), r.src, r.dst);
      NoEmptyFlush(m, RoundState(m, st, r), rounds[1..]);
    }
  }

  /** With no key repeated on a side while cached, every early report has problems. */
  lemma {:induction false} EarlyReportsHaveProblems(m: Method, st: State, rounds: seq<Round>)
    requires Counts(st) && RunNeverReplaces(m, st, rounds)
    ensures Reports(m, st, rounds) != [] && OnlyLastMayBeEmpty(Reports(m, st, rounds))
  {
    NoEmptyFlush(m, st, rounds);
    EarlyReportIsEmptyIff(m, st, 0, rounds);
  }

  lemma {:induction false} DistinctKeysNeverReplace(m: Method, st: State, S: map<Key, Doc>, D: map<Key, Doc>,
                                                    rounds: seq<Round>)
    requires Holds(m, st, S, D)
    requires NoKeyTwice(SrcDocs(rounds)) && NoKeyTwice(DstDocs(rounds))
    requires S.Keys !! Index(SrcDocs(rounds)).Keys && D.Keys !! Index(DstDocs(rounds)).Keys
    ensures RunNeverReplaces(m, st, rounds)
    decreases |rounds|
  {
    if rounds != [] {
      var r := rounds[0];
      var S1, D1 := S, D;
      if RoundReports(m, st, r) != [] {
        S1, D1 := map[], map[];
        EmptyHolds(m, BeforeBatches(m, st, r), S1);
      }
      RoundParts(S1, D1, rounds);
      InterleaveHolds(m, BeforeBatches(m, st, r), S1, D1, r.src, r.dst);
      DistinctKeysNeverReplace(m, RoundState(m, st, r), S1 + Index(r.src), D1 + Index(r.dst), rounds[1..]);
    }
  }

  lemma {:induction false} InterleaveKeepsTally(m: Method, st: State, src: seq<Doc>, dst: seq<Doc>)
    ensures Interleave(m, st, src, dst).srcDocs == st.srcDocs
    ensures Interleave(m, st, src, dst).srcBytes == st.srcBytes
    decreases |src| + |dst|
  {
    if src != [] || dst != [] {
      var st1 := if src == [] then st else ProcessSrc(m, st, src[0]);
      var st2 := if dst == [] then st1 else ProcessDst(m, st1, dst[0]);
      InterleaveKeepsTally(m, st2, Rest(src), Rest(dst));
    }
  }

  /** The documents' sizes, added up. */
  function TotalSize(docs: seq<Doc>): nat { if docs == [] then 0 else docs[0].size + TotalSize(docs[1..]) }

  lemma {:induction false} SizesAddUp(docs: seq<Doc>, more: seq<Doc>)
    ensures TotalSize(docs + more) == TotalSize(docs) + TotalSize(more)
  {
    if docs == [] {
      assert docs + more == more;
    } else {
      SizesAddUp(docs[1..], more);
      assert (docs + more)[1..] == docs[1..] + more;
    }
  }

  lemma {:induction false} SizesAreTotal(docs: seq<Doc>)
    ensures Sizes(docs) == TotalSize(docs)
  {
    if docs != [] {
      var n := |docs| - 1;
      SizesAreTotal(docs[..n]);
      SizesAddUp(docs[..n], [docs[n]]);
      assert docs == docs[..n] + [docs[n]] && [docs[n]][1..] == [];
    }
  }

  function AllBytes(reports: seq<Report>): nat {
    if reports == [] then 0 else reports[0].bytes + AllBytes(reports[1..])
  }

  /** All reports together hold the sizes of all source documents. */
  lemma {:induction false} ReportsTallyAllBytes(m: Method, st: State, rounds: seq<Round>)
    ensures AllBytes(Reports(m, st, rounds)) == st.srcBytes + TotalSize(SrcDocs(rounds))
    decreases |rounds|
  {
    if rounds == [] {
      assert Reports(m, st, rounds)[1..] == [];
    } else {
      var r := rounds[0];
      InterleaveKeepsTally(m, BeforeBatches(m, st, r), r.src, r.dst);
      ReportsTallyAllBytes(m, RoundState(m, st, r), rounds[1..]);
      SizesAddUp(r.src, SrcDocs(rounds[1..]));
      SizesAreTotal(r.src);
      RoundBytes(m, st, r, Reports(m, RoundState(m, st, r), rounds[1..]));
    }
  }

  lemma {:induction false} RoundBytes(m: Method, st: State, r: Round, later: seq<Report>)
    ensures AllBytes(RoundReports(m, st, r) + later)
         == AllBytes(later) + if FlushesAt(st, r) then st.srcBytes + Sizes(r.src) else 0
  {
    if FlushesAt(st, r) {
      assert ([ReportOf(m, Counted(st, r.src))] + later)[1..] == later;
    } else {
      assert [] + later == later;
    }
  }

  /** All reports together count each source document once, whatever else happened. */
  lemma {:induction false} ReportsTallyAllDocs(m: Method, st: State, rounds: seq<Round>)
    ensures AllDocs(Reports(m, st, rounds)) == st.srcDocs + |SrcDocs(rounds)|
    decreases |rounds|
  {
    if rounds == [] {
      OneReportMore(ReportOf(m, st), []);
      assert Reports(m, st, rounds) == [ReportOf(m, st)] + [];
    } else {
      RoundKeepsTally(m, st, rounds[0]);
      ReportsTallyAllDocs(m, RoundState(m, st, rounds[0]), rounds[1..]);
      RoundTally(m, st, rounds[0], Reports(m, RoundState(m, st, rounds[0]), rounds[1..]));
    }
  }

  lemma {:induction false} RoundKeepsTally(m: Method, st: State, r: Round)
    ensures RoundState(m, st, r).srcDocs == if FlushesAt(st, r) then 0 else st.srcDocs + |r.src|
  {
    InterleaveKeepsTally(m, BeforeBatches(m, st, r), r.src, r.dst);
  }

  lemma {:induction false} RoundTally(m: Method, st: State, r: Round, later: seq<Report>)
    ensures AllDocs(RoundReports(m, st, r) + later) == AllDocs(later) + if FlushesAt(st, r) then st.srcDocs + |r.src| else 0
  {
    if FlushesAt(st, r) {
      OneReportMore(ReportOf(m, Counted(st, r.src)), later);
    } else {
      assert [] + later == later;
    }
  }

  // ---- The limits ------------------------------------------------------------------------

  /** A flush is due from a hundred thousand cached documents and problems on, or from thirty
      mebibytes on. */
  lemma FlushIsDueIff(st: State)
    ensures NeedsFlush(st) <==> |st.src| + |st.dst| + |st.problems| >= 100_000 || st.cachedBytes >= 31_457_280
  {
  }
}
