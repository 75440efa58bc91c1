/** The reports of a run of the comparator, against what a comparison of the two collections
    without caches, batches or early flushes would report. */
module ComparatorResults {
  import opened Bson
  import opened ComparatorModel

  // ---- What the caches hold --------------------------------------------------------------

  predicate Keyed(docs: map<Key, Doc>) { forall k | k in docs :: docs[k].key == k }

  /** After the documents S and D, none repeated on its side, since the last flush: the caches
      hold the unpaired ones, and the problems are those of the pairs. */
  ghost predicate Holds(m: Method, st: State, S: map<Key, Doc>, D: map<Key, Doc>) {
    && Keyed(S) && Keyed(D)
    && st.src == S - D.Keys
    && st.dst == D - S.Keys
    && forall p :: multiset(st.problems)[p] == PairDue(m, S, D, p)
  }

  function PairDue(m: Method, S: map<Key, Doc>, D: map<Key, Doc>, p: Problem): nat {
    if p.key in S && p.key in D then multiset(Paired(m, S[p.key], D[p.key]))[p] else 0
  }

  lemma PairedKeys(m: Method, s: Doc, d: Doc, p: Problem)
    requires p.key != s.key
    ensures multiset(Paired(m, s, d))[p] == 0
  {
    assert forall q | q in Paired(m, s, d) :: q.key == s.key;
  }

  lemma PairDueWithSrc(m: Method, S: map<Key, Doc>, D: map<Key, Doc>, s: Doc, p: Problem)
    requires s.key !in S
    ensures PairDue(m, S[s.key := s], D, p)
         == PairDue(m, S, D, p) + if s.key in D then multiset(Paired(m, s, D[s.key]))[p] else 0
  {
    if s.key in D && p.key != s.key { PairedKeys(m, s, D[s.key], p); }
  }

  lemma PairDueWithDst(m: Method, S: map<Key, Doc>, D: map<Key, Doc>, d: Doc, p: Problem)
    requires d.key !in D && Keyed(S)
    ensures PairDue(m, S, D[d.key := d], p)
         == PairDue(m, S, D, p) + if d.key in S then multiset(Paired(m, S[d.key], d))[p] else 0
  {
    if d.key in S && p.key != d.key { PairedKeys(m, S[d.key], d, p); }
  }

  lemma ProcessSrcHolds(m: Method, st: State, S: map<Key, Doc>, D: map<Key, Doc>, s: Doc)
    requires Holds(m, st, S, D) && s.key !in S
    ensures Holds(m, ProcessSrc(m, st, s), S[s.key := s], D)
  {
    SrcCaches(m, st, S, D, s);
    forall p ensures multiset(ProcessSrc(m, st, s).problems)[p] == PairDue(m, S[s.key := s], D, p) {
      SrcProblem(m, st, S, D, s, p);
    }
  }

  lemma SrcCaches(m: Method, st: State, S: map<Key, Doc>, D: map<Key, Doc>, s: Doc)
    requires st.src == S - D.Keys && st.dst == D - S.Keys && s.key !in S
    ensures ProcessSrc(m, st, s).src == S[s.key := s] - D.Keys
    ensures ProcessSrc(m, st, s).dst == D - S[s.key := s].Keys
  {
  }

  lemma SrcProblem(m: Method, st: State, S: map<Key, Doc>, D: map<Key, Doc>, s: Doc, p: Problem)
    requires st.dst == D - S.Keys && s.key !in S
    requires multiset(st.problems)[p] == PairDue(m, S, D, p)
    ensures multiset(ProcessSrc(m, st, s).problems)[p] == PairDue(m, S[s.key := s], D, p)
  {
    PairDueWithSrc(m, S, D, s, p);
  }

  lemma ProcessDstHolds(m: Method, st: State, S: map<Key, Doc>, D: map<Key, Doc>, d: Doc)
    requires Holds(m, st, S, D) && d.key !in D
    ensures Holds(m, ProcessDst(m, st, d), S, D[d.key := d])
  {
    DstCaches(m, st, S, D, d);
    forall p ensures multiset(ProcessDst(m, st, d).problems)[p] == PairDue(m, S, D[d.key := d], p) {
      DstProblem(m, st, S, D, d, p);
    }
  }

  lemma DstCaches(m: Method, st: State, S: map<Key, Doc>, D: map<Key, Doc>, d: Doc)
    requires st.src == S - D.Keys && st.dst == D - S.Keys && d.key !in D
    ensures ProcessDst(m, st, d).src == S - D[d.key := d].Keys
    ensures ProcessDst(m, st, d).dst == D[d.key := d] - S.Keys
  {
  }

  lemma DstProblem(m: Method, st: State, S: map<Key, Doc>, D: map<Key, Doc>, d: Doc, p: Problem)
    requires st.src == S - D.Keys && d.key !in D && Keyed(S)
    requires multiset(st.problems)[p] == PairDue(m, S, D, p)
    ensures multiset(ProcessDst(m, st, d).problems)[p] == PairDue(m, S, D[d.key := d], p)
  {
    PairDueWithDst(m, S, D, d, p);
  }

  lemma MissingTargetsAt(m: Method, docs: map<Key, Doc>, p: Problem)
    requires Keyed(docs)
    ensures p in MissingTargets(m, docs) <==> p.key in docs && p == MissingOnTarget(m, docs[p.key])
  {
    if p.key in docs {
      assert MissingOnTarget(m, docs[p.key]) in MissingTargets(m, docs);
    }
  }

  lemma MissingSourcesAt(m: Method, docs: map<Key, Doc>, p: Problem)
    requires Keyed(docs)
    ensures p in MissingSources(m, docs) <==> p.key in docs && p == MissingOnSource(m, docs[p.key])
  {
    if p.key in docs {
      assert MissingOnSource(m, docs[p.key]) in MissingSources(m, docs);
    }
  }

  lemma FlushAt(m: Method, st: State, S: map<Key, Doc>, D: map<Key, Doc>, p: Problem)
    requires Holds(m, st, S, D)
    ensures ReportOf(m, st).problems[p] == Due(m, S, D, p)
  {
    MissingTargetsAt(m, st.src, p);
    MissingSourcesAt(m, st.dst, p);
    assert multiset(st.problems)[p] == PairDue(m, S, D, p);
  }

  /** A flush reports exactly the problems of the documents since the last one. */
  lemma FlushReportsExactly(m: Method, st: State, S: map<Key, Doc>, D: map<Key, Doc>)
    requires Holds(m, st, S, D)
    ensures ExactlyDue(ReportOf(m, st).problems, m, S, D)
  {
    forall p ensures ReportOf(m, st).problems[p] == Due(m, S, D, p) {
      FlushAt(m, st, S, D, p);
    }
  }

  lemma EmptyHolds(m: Method, st: State, none: map<Key, Doc>)
    requires st == Empty && none == map[]
    ensures Holds(m, st, none, none)
  {
  }

  lemma NonePlus(docs: map<Key, Doc>)
    ensures map[] + docs == docs
    ensures docs + map[] == docs
  {
  }

  /** What is due, in the documents' own terms: a key on one side only is missing on the other,
      and every difference of a pair is due with both read times and the source's first mismatch. */
  lemma DueMeans(m: Method, S: map<Key, Doc>, D: map<Key, Doc>, p: Problem)
    requires Keyed(S) && Keyed(D)
    ensures Due(m, S, D, p) > 0 <==>
      || (p.key in S && p.key !in D && var s := S[p.key];
          p == Problem(p.key, Difference(s.id, "Missing", Dst, |s.body|), Some(s.time), None, m.firstSeen(s)))
      || (p.key !in S && p.key in D && var d := D[p.key];
          p == Problem(p.key, Difference(d.id, "Missing", Src, |d.body|), None, Some(d.time), m.firstSeen(d)))
      || (p.key in S && p.key in D && var s, d := S[p.key], D[p.key];
          p.what in m.compare(s.body, d.body)
          && p.srcTime == Some(s.time) && p.dstTime == Some(d.time) && p.firstSeen == m.firstSeen(s))
  {
    if p.key in S && p.key in D {
      var s, d := S[p.key], D[p.key];
      var found := m.compare(s.body, d.body);
      if p.what in found && p.srcTime == Some(s.time) && p.dstTime == Some(d.time) && p.firstSeen == m.firstSeen(s) {
        var i :| 0 <= i < |found| && found[i] == p.what;
        assert Paired(m, s, d)[i] == p;
      }
      assert Due(m, S, D, p) > 0 <==> p in Paired(m, s, d);
    }
  }

  lemma DueAt(m: Method, S: map<Key, Doc>, D: map<Key, Doc>, S': map<Key, Doc>, D': map<Key, Doc>, p: Problem)
    requires p.key in S <==> p.key in S'
    requires p.key in D <==> p.key in D'
    requires p.key in S ==> S[p.key] == S'[p.key]
    requires p.key in D ==> D[p.key] == D'[p.key]
    ensures Due(m, S, D, p) == Due(m, S', D', p)
  {
  }

  lemma NothingDue(m: Method, S: map<Key, Doc>, D: map<Key, Doc>, p: Problem)
    requires p.key !in S && p.key !in D
    ensures Due(m, S, D, p) == 0
  {
  }

  lemma DueInParts(m: Method, S: map<Key, Doc>, D: map<Key, Doc>,
                   S': map<Key, Doc>, D': map<Key, Doc>, p: Problem)
    requires S.Keys + D.Keys !! S'.Keys + D'.Keys
    ensures Due(m, S + S', D + D', p) == Due(m, S, D, p) + Due(m, S', D', p)
  {
    if p.key in S.Keys + D.Keys {
      assert p.key !in S'.Keys + D'.Keys;
      NothingDue(m, S', D', p);
      DueAt(m, S + S', D + D', S, D, p);
    } else {
      NothingDue(m, S, D, p);
      DueAt(m, S + S', D + D', S', D', p);
    }
  }

  lemma DisjointParts(m: Method, S: map<Key, Doc>, D: map<Key, Doc>, S': map<Key, Doc>, D': map<Key, Doc>,
                      first: multiset<Problem>, second: multiset<Problem>)
    requires S.Keys + D.Keys !! S'.Keys + D'.Keys && ExactlyDue(first, m, S, D)
    ensures ExactlyDue(first + second, m, S + S', D + D') <==> ExactlyDue(second, m, S', D')
  {
    forall p ensures (first + second)[p] == Due(m, S + S', D + D', p) <==> second[p] == Due(m, S', D', p) {
      assert first[p] == Due(m, S, D, p);
      DueInParts(m, S, D, S', D', p);
    }
    if ExactlyDue(first + second, m, S + S', D + D') {
      forall p ensures second[p] == Due(m, S', D', p) {
        assert (first + second)[p] == Due(m, S + S', D + D', p);
      }
    }
  }

  /** Documents under one key, one reported and its peer still to come: whatever is reported
      later, the document was reported missing although it is not. */
  lemma CutKeyIsMisreported(m: Method, S: map<Key, Doc>, D: map<Key, Doc>, S': map<Key, Doc>, D': map<Key, Doc>,
                            first: multiset<Problem>, second: multiset<Problem>)
    requires Keyed(S) && Keyed(D) && Keyed(S') && Keyed(D')
    requires S.Keys !! S'.Keys && D.Keys !! D'.Keys
    requires !(S.Keys + D.Keys !! S'.Keys + D'.Keys) && ExactlyDue(first, m, S, D)
    ensures !ExactlyDue(first + second, m, S + S', D + D')
  {
    var k :| k in S.Keys + D.Keys && k in S'.Keys + D'.Keys;
    var p := if k in S then MissingOnTarget(m, S[k]) else MissingOnSource(m, D[k]);
    assert p.key == k && ProblemsAt(m, S, D, k) == [p] && first[p] == Due(m, S, D, p) == 1;
    NeverMissing(m, S + S', D + D', p);
    assert (first + second)[p] > 0 == Due(m, S + S', D + D', p);
  }

  lemma NeverMissing(m: Method, S: map<Key, Doc>, D: map<Key, Doc>, p: Problem)
    requires p.key in S && p.key in D && (p.srcTime.None? || p.dstTime.None?)
    ensures Due(m, S, D, p) == 0
  {
    assert forall q | q in Paired(m, S[p.key], D[p.key]) :: q.srcTime.Some? && q.dstTime.Some?;
  }

  // ---- Keys of documents -----------------------------------------------------------------

  lemma {:induction false} IndexKeys(docs: seq<Doc>, k: Key)
    ensures k in Index(docs) <==> exists i :: 0 <= i < |docs| && docs[i].key == k
  {
    if docs != [] {
      IndexKeys(docs[1..], k);
      if k in Index(docs[1..]) {
        var i :| 0 <= i < |docs[1..]| && docs[1..][i].key == k;
        assert docs[i + 1].key == k;
      }
    }
  }

  lemma FirstKeyIsFresh(docs: seq<Doc>)
    requires NoKeyTwice(docs) && docs != []
    ensures docs[0].key !in Index(docs[1..]) && NoKeyTwice(docs[1..])
  {
    IndexKeys(docs[1..], docs[0].key);
  }

  lemma {:induction false} IndexHolds(docs: seq<Doc>, d: Doc)
    requires NoKeyTwice(docs) && d in docs
    ensures d.key in Index(docs) && Index(docs)[d.key] == d
  {
    FirstKeyIsFresh(docs);
    if d != docs[0] {
      IndexHolds(docs[1..], d);
    }
  }

  lemma {:induction false} IndexAppend(a: seq<Doc>, b: seq<Doc>)
    ensures Index(a + b) == Index(a) + Index(b)
  {
    if a == [] {
      assert a + b == b;
    } else {
      IndexAppend(a[1..], b);
      assert (a + b)[0] == a[0] && (a + b)[1..] == a[1..] + b;
      PlusAssoc(map[a[0].key := a[0]], Index(a[1..]), Index(b));
    }
  }

  lemma {:induction false} NoKeyTwiceParts(a: seq<Doc>, b: seq<Doc>)
    requires NoKeyTwice(a + b)
    ensures NoKeyTwice(a) && NoKeyTwice(b) && Index(a).Keys !! Index(b).Keys
  {
    forall i, j | 0 <= i < j < |a| ensures a[i].key != a[j].key {
      assert a[i] == (a + b)[i] && a[j] == (a + b)[j];
    }
    forall i, j | 0 <= i < j < |b| ensures b[i].key != b[j].key {
      assert b[i] == (a + b)[|a| + i] && b[j] == (a + b)[|a| + j];
    }
    forall k | k in Index(a) ensures k !in Index(b) {
      IndexKeys(a, k);
      IndexKeys(b, k);
      var i :| 0 <= i < |a| && a[i].key == k;
      forall j | 0 <= j < |b| ensures b[j].key != k {
        assert a[i] == (a + b)[i] && b[j] == (a + b)[|a| + j];
      }
    }
  }

  lemma {:induction false} IndexFirst(S: map<Key, Doc>, docs: seq<Doc>)
    requires docs != []
    ensures S[docs[0].key := docs[0]] + Index(docs[1..]) == S + Index(docs)
  {
    var d, rest := docs[0], Index(docs[1..]);
    assert Index(docs) == map[d.key := d] + rest;
    assert S[d.key := d] == S + map[d.key := d];
    PlusAssoc(S, map[d.key := d], rest);
  }

  lemma PlusAssoc(a: map<Key, Doc>, b: map<Key, Doc>, c: map<Key, Doc>)
    ensures a + b + c == a + (b + c)
  {
  }

  // ---- One round -------------------------------------------------------------------------

  lemma {:induction false} InterleaveHolds(m: Method, st: State, S: map<Key, Doc>, D: map<Key, Doc>,
                                           src: seq<Doc>, dst: seq<Doc>)
    requires Holds(m, st, S, D)
    requires NoKeyTwice(src) && NoKeyTwice(dst)
    requires S.Keys !! Index(src).Keys && D.Keys !! Index(dst).Keys
    ensures Holds(m, Interleave(m, st, src, dst), S + Index(src), D + Index(dst))
    ensures NeverReplaces(m, st, src, dst)
    decreases |src| + |dst|
  {
    if src == [] && dst == [] {
      NonePlus(S);
      NonePlus(D);
    } else {
      var st1, S1 := st, S;
      if src != [] {
        FirstKeyIsFresh(src);
        ProcessSrcHolds(m, st, S, D, src[0]);
        IndexFirst(S, src);
        st1, S1 := ProcessSrc(m, st, src[0]), S[src[0].key := src[0]];
      }
      var st2, D1 := st1, D;
      if dst != [] {
        FirstKeyIsFresh(dst);
        ProcessDstHolds(m, st1, S1, D, dst[0]);
        IndexFirst(D, dst);
        st2, D1 := ProcessDst(m, st1, dst[0]), D[dst[0].key := dst[0]];
      }
      InterleaveHolds(m, st2, S1, D1, Rest(src), Rest(dst));
    }
  }

  // ---- Whole runs ------------------------------------------------------------------------

  function KeysOf(rounds: seq<Round>): set<Key> {
    Index(SrcDocs(rounds)).Keys + Index(DstDocs(rounds)).Keys
  }

  /** Whenever a cursor is reported done, no key seen before, on either side, comes later. */
  predicate CursorsSeparateKeys(seen: set<Key>, rounds: seq<Round>)
    decreases |rounds|
  {
    rounds == [] || (
      && (rounds[0].cursorDone ==> seen !! KeysOf(rounds))
      && CursorsSeparateKeys(seen + KeysOf(rounds[..1]), rounds[1..]))
  }

  lemma KeysOfFirst(rounds: seq<Round>)
    requires rounds != []
    ensures KeysOf(rounds[..1]) == Index(rounds[0].src).Keys + Index(rounds[0].dst).Keys
    ensures KeysOf(rounds) == KeysOf(rounds[..1]) + KeysOf(rounds[1..])
  {
    assert rounds[..1] == [rounds[0]] && SrcDocs([]) == [] && DstDocs([]) == [];
    assert SrcDocs(rounds[..1]) == rounds[0].src && DstDocs(rounds[..1]) == rounds[0].dst;
    IndexAppend(rounds[0].src, SrcDocs(rounds[1..]));
    IndexAppend(rounds[0].dst, DstDocs(rounds[1..]));
  }

  lemma {:induction false} OneReportMore(first: Report, others: seq<Report>)
    ensures AllProblems([first] + others) == first.problems + AllProblems(others)
    ensures AllDocs([first] + others) == first.docs + AllDocs(others)
  {
    assert ([first] + others)[1..] == others;
  }

  lemma Assoc<T>(a: seq<T>, b: seq<T>, c: seq<T>)
    ensures a + b + c == a + (b + c)
  {
  }

  lemma {:induction false} DocsAppend(a: seq<Round>, b: seq<Round>)
    ensures SrcDocs(a + b) == SrcDocs(a) + SrcDocs(b)
    ensures DstDocs(a + b) == DstDocs(a) + DstDocs(b)
  {
    if a == [] {
      assert a + b == b && [] + SrcDocs(b) == SrcDocs(b) && [] + DstDocs(b) == DstDocs(b);
    } else {
      DocsAppend(a[1..], b);
      assert (a + b)[1..] == a[1..] + b;
      Assoc(a[0].src, SrcDocs(a[1..]), SrcDocs(b));
      Assoc(a[0].dst, DstDocs(a[1..]), DstDocs(b));
    }
  }

  /** What a round needs of its documents, and what is left to need of later ones. */
  lemma {:induction false} RoundParts(S: map<Key, Doc>, D: map<Key, Doc>, rounds: seq<Round>)
    requires rounds != []
    requires NoKeyTwice(SrcDocs(rounds)) && NoKeyTwice(DstDocs(rounds))
    requires S.Keys !! Index(SrcDocs(rounds)).Keys && D.Keys !! Index(DstDocs(rounds)).Keys
    ensures var r := rounds[0];
      && NoKeyTwice(r.src) && NoKeyTwice(r.dst)
      && S.Keys !! Index(r.src).Keys && D.Keys !! Index(r.dst).Keys
      && NoKeyTwice(SrcDocs(rounds[1..])) && NoKeyTwice(DstDocs(rounds[1..]))
      && (S + Index(r.src)).Keys !! Index(SrcDocs(rounds[1..])).Keys
      && (D + Index(r.dst)).Keys !! Index(DstDocs(rounds[1..])).Keys
      && S + Index(r.src) + Index(SrcDocs(rounds[1..])) == S + Index(SrcDocs(rounds))
      && D + Index(r.dst) + Index(DstDocs(rounds[1..])) == D + Index(DstDocs(rounds))
  {
    var r := rounds[0];
    FreshParts(S, r.src, SrcDocs(rounds[1..]));
    FreshParts(D, r.dst, DstDocs(rounds[1..]));
  }

  lemma {:induction false} FreshParts(S: map<Key, Doc>, first: seq<Doc>, later: seq<Doc>)
    requires NoKeyTwice(first + later) && S.Keys !! Index(first + later).Keys
    ensures NoKeyTwice(first) && NoKeyTwice(later)
    ensures S.Keys !! Index(first).Keys && (S + Index(first)).Keys !! Index(later).Keys
    ensures S + Index(first) + Index(later) == S + Index(first + later)
  {
    NoKeyTwiceParts(first, later);
    IndexAppend(first, later);
    PlusAssoc(S, Index(first), Index(later));
  }

  lemma {:induction false} NoReportYet(m: Method, st: State, rounds: seq<Round>)
    requires rounds != [] && RoundReports(m, st, rounds[0]) == []
    ensures Reports(m, st, rounds)
         == Reports(m, Interleave(m, Counted(st, rounds[0].src), rounds[0].src, rounds[0].dst), rounds[1..])
  {
  }

  lemma CountedHolds(m: Method, st: State, S: map<Key, Doc>, D: map<Key, Doc>, src: seq<Doc>)
    requires Holds(m, st, S, D)
    ensures Holds(m, Counted(st, src), S, D)
  {
  }

  lemma {:induction false} LastReport(m: Method, st: State, S: map<Key, Doc>, D: map<Key, Doc>)
    requires Holds(m, st, S, D)
    ensures ExactlyDue(AllProblems(Reports(m, st, [])), m, S + Index([]), D + Index([]))
  {
    FlushReportsExactly(m, st, S, D);
    NonePlus(S);
    NonePlus(D);
    OneReportMore(ReportOf(m, st), []);
    assert Reports(m, st, []) == [ReportOf(m, st)] + [];
  }

  /** The round finds a cursor done and a flush due. */
  predicate FlushesAt(st: State, r: Round) { r.cursorDone && NeedsFlush(Counted(st, r.src)) }

  /** Whenever the caches are flushed, no key seen since the last flush, on either side, comes later. */
  predicate FlushesSeparateKeys(m: Method, st: State, seen: set<Key>, rounds: seq<Round>)
    decreases |rounds|
  {
    rounds == [] || (
      && (FlushesAt(st, rounds[0]) ==> seen !! KeysOf(rounds))
      && FlushesSeparateKeys(m, RoundState(m, st, rounds[0]),
           (if FlushesAt(st, rounds[0]) then {} else seen) + KeysOf(rounds[..1]), rounds[1..]))
  }

  /** The reports after a round's batches, from whatever the caches held before them. */
  lemma {:induction false} AfterBatches(m: Method, st: State, S: map<Key, Doc>, D: map<Key, Doc>, rounds: seq<Round>)
    requires Holds(m, st, S, D) && rounds != []
    requires NoKeyTwice(SrcDocs(rounds)) && NoKeyTwice(DstDocs(rounds))
    requires S.Keys !! Index(SrcDocs(rounds)).Keys && D.Keys !! Index(DstDocs(rounds)).Keys
    ensures var st' := Interleave(m, st, rounds[0].src, rounds[0].dst);
      ExactlyDue(AllProblems(Reports(m, st', rounds[1..])), m, S + Index(SrcDocs(rounds)), D + Index(DstDocs(rounds)))
      <==> FlushesSeparateKeys(m, st', S.Keys + D.Keys + KeysOf(rounds[..1]), rounds[1..])
    decreases |rounds|, 0
  {
    var r := rounds[0];
    RoundParts(S, D, rounds);
    KeysOfFirst(rounds);
    InterleaveHolds(m, st, S, D, r.src, r.dst);
    KeysWithRound(S, D, r.src, r.dst);
    ReportsAreExactIff(m, Interleave(m, st, r.src, r.dst), S + Index(r.src), D + Index(r.dst), rounds[1..]);
  }

  lemma {:induction false} KeysWithRound(S: map<Key, Doc>, D: map<Key, Doc>, src: seq<Doc>, dst: seq<Doc>)
    ensures (S + Index(src)).Keys + (D + Index(dst)).Keys == S.Keys + D.Keys + (Index(src).Keys + Index(dst).Keys)
  {
  }

  lemma {:induction false} IndexIsKeyed(docs: seq<Doc>)
    ensures Keyed(Index(docs))
  {
    if docs != [] {
      IndexIsKeyed(docs[1..]);
    }
  }

  lemma {:induction false} FlushedRound(m: Method, st: State, S: map<Key, Doc>, D: map<Key, Doc>, rounds: seq<Round>)
    requires Holds(m, st, S, D) && rounds != [] && FlushesAt(st, rounds[0])
    requires NoKeyTwice(SrcDocs(rounds)) && NoKeyTwice(DstDocs(rounds))
    requires S.Keys !! Index(SrcDocs(rounds)).Keys && D.Keys !! Index(DstDocs(rounds)).Keys
    ensures ExactlyDue(AllProblems(Reports(m, st, rounds)), m, S + Index(SrcDocs(rounds)), D + Index(DstDocs(rounds)))
      <==> FlushesSeparateKeys(m, st, S.Keys + D.Keys, rounds)
    decreases |rounds|, 2
  {
    var st1 := Counted(st, rounds[0].src);
    var later := Reports(m, RoundState(m, st, rounds[0]), rounds[1..]);
    var S', D' := Index(SrcDocs(rounds)), Index(DstDocs(rounds));
    CountedHolds(m, st, S, D, rounds[0].src);
    FlushReportsExactly(m, st1, S, D);
    OneReportMore(ReportOf(m, st1), later);
    if S.Keys + D.Keys !! KeysOf(rounds) {
      AfterFlush(m, Empty, map[], rounds);
      DisjointParts(m, S, D, S', D', ReportOf(m, st1).problems, AllProblems(later));
    } else {
      IndexIsKeyed(SrcDocs(rounds));
      IndexIsKeyed(DstDocs(rounds));
      CutKeyIsMisreported(m, S, D, S', D', ReportOf(m, st1).problems, AllProblems(later));
    }
  }

  lemma {:induction false} AfterFlush(m: Method, st: State, none: map<Key, Doc>, rounds: seq<Round>)
    requires st == Empty && none == map[]
    requires rounds != [] && NoKeyTwice(SrcDocs(rounds)) && NoKeyTwice(DstDocs(rounds))
    ensures var st' := Interleave(m, st, rounds[0].src, rounds[0].dst);
      ExactlyDue(AllProblems(Reports(m, st', rounds[1..])), m, Index(SrcDocs(rounds)), Index(DstDocs(rounds)))
      <==> FlushesSeparateKeys(m, st', {} + KeysOf(rounds[..1]), rounds[1..])
    decreases |rounds|, 1
  {
    EmptyHolds(m, st, none);
    AfterBatches(m, st, none, none, rounds);
    NonePlus(Index(SrcDocs(rounds)));
    NonePlus(Index(DstDocs(rounds)));
    assert none.Keys + none.Keys == {};
  }

  /** From any state, the reports still to come carry exactly the problems of the documents since
      the last flush and of those still to be read, if and only if no flush comes between two
      documents with the same key. */
  lemma {:induction false} ReportsAreExactIff(m: Method, st: State, S: map<Key, Doc>, D: map<Key, Doc>, rounds: seq<Round>)
    requires Holds(m, st, S, D)
    requires NoKeyTwice(SrcDocs(rounds)) && NoKeyTwice(DstDocs(rounds))
    requires S.Keys !! Index(SrcDocs(rounds)).Keys && D.Keys !! Index(DstDocs(rounds)).Keys
    ensures ExactlyDue(AllProblems(Reports(m, st, rounds)), m, S + Index(SrcDocs(rounds)), D + Index(DstDocs(rounds)))
      <==> FlushesSeparateKeys(m, st, S.Keys + D.Keys, rounds)
    decreases |rounds|, 3
  {
    if rounds == [] {
      LastReport(m, st, S, D);
    } else if FlushesAt(st, rounds[0]) {
      FlushedRound(m, st, S, D, rounds);
    } else {
      NoReportYet(m, st, rounds);
      CountedHolds(m, st, S, D, rounds[0].src);
      AfterBatches(m, Counted(st, rounds[0].src), S, D, rounds);
    }
  }

  /** A run reports exactly what a comparison of the two whole collections would if and only if no
      flush comes between two documents with the same key; no key is to repeat on a side. */
  lemma {:induction false} RunIsExactIff(m: Method, rounds: seq<Round>)
    requires NoKeyTwice(SrcDocs(rounds)) && NoKeyTwice(DstDocs(rounds))
    ensures ExactlyDue(AllProblems(Reports(m, Empty, rounds)), m, Index(SrcDocs(rounds)), Index(DstDocs(rounds)))
      <==> FlushesSeparateKeys(m, Empty, {}, rounds)
  {
    RunFromStart(m, Empty, map[], rounds);
  }

  lemma {:induction false} RunFromStart(m: Method, st: State, none: map<Key, Doc>, rounds: seq<Round>)
    requires st == Empty && none == map[]
    requires NoKeyTwice(SrcDocs(rounds)) && NoKeyTwice(DstDocs(rounds))
    ensures ExactlyDue(AllProblems(Reports(m, st, rounds)), m, Index(SrcDocs(rounds)), Index(DstDocs(rounds)))
      <==> FlushesSeparateKeys(m, st, {}, rounds)
  {
    EmptyHolds(m, st, none);
    ReportsAreExactIff(m, st, none, none, rounds);
    NonePlus(Index(SrcDocs(rounds)));
    NonePlus(Index(DstDocs(rounds)));
    assert none.Keys + none.Keys == {};
  }

  lemma {:induction false} CursorsAreEnough(m: Method, st: State, seen: set<Key>, more: set<Key>, rounds: seq<Round>)
    requires seen <= more && CursorsSeparateKeys(more, rounds)
    ensures FlushesSeparateKeys(m, st, seen, rounds)
    decreases |rounds|
  {
    if rounds != [] {
      CursorsAreEnough(m, RoundState(m, st, rounds[0]),
        (if FlushesAt(st, rounds[0]) then {} else seen) + KeysOf(rounds[..1]), more + KeysOf(rounds[..1]), rounds[1..]);
    }
  }

  /** A run reports exactly what a comparison of the two whole collections would, however the
      documents were batched and whenever it flushed, provided that no key repeats on a side
      and that the documents of a finished cursor share no key with later ones. */
  lemma {:induction false} RunReportsExactly(m: Method, rounds: seq<Round>)
    requires NoKeyTwice(SrcDocs(rounds)) && NoKeyTwice(DstDocs(rounds))
    requires CursorsSeparateKeys({}, rounds)
    ensures ExactlyDue(AllProblems(Reports(m, Empty, rounds)), m,
                       Index(SrcDocs(rounds)), Index(DstDocs(rounds)))
  {
    CursorsAreEnough(m, Empty, {}, {}, rounds);
    RunIsExactIff(m, rounds);
  }

  // ---- Runs over messages ----------------------------------------------------------------

  lemma {:induction false} TakeDstDocs(msgs: seq<Msg>)
    ensures var t := TakeDst(msgs, true); t.batch + DocsIn(t.rest) == DocsIn(msgs)
    ensures var t := TakeDst(msgs, true); !t.open ==> t.rest == []
  {
    if msgs != [] && msgs[0].CursorDone? {
      TakeDstDocs(msgs[1..]);
    }
  }

  /** Every document sent is compared, once and in order. */
  lemma {:induction false} RoundsCarryAllDocs(src: seq<Msg>, srcOpen: bool, dst: seq<Msg>, dstOpen: bool)
    requires (srcOpen || src == []) && (dstOpen || dst == [])
    ensures SrcDocs(Rounds(src, srcOpen, dst, dstOpen)) == DocsIn(src)
    ensures DstDocs(Rounds(src, srcOpen, dst, dstOpen)) == DocsIn(dst)
    decreases |src| + |dst| + (if srcOpen then 1 else 0) + (if dstOpen then 1 else 0)
  {
    if srcOpen || dstOpen {
      var s, d := TakeSrc(src, srcOpen), TakeDst(dst, dstOpen);
      if dstOpen {
        TakeDstShrinks(dst, dstOpen);
        TakeDstDocs(dst);
      }
      RoundsCarryAllDocs(s.rest, s.open, d.rest, d.open);
      assert s.batch + DocsIn(s.rest) == DocsIn(src);
      assert d.batch + DocsIn(d.rest) == DocsIn(dst);
    }
  }

  predicate NoCursorDone(msgs: seq<Msg>) {
    forall i | 0 <= i < |msgs| :: !msgs[i].CursorDone?
  }

  predicate NoFlag(rounds: seq<Round>) {
    forall i | 0 <= i < |rounds| :: !rounds[i].cursorDone
  }

  lemma {:induction false} NoFlagInRounds(src: seq<Msg>, srcOpen: bool, dst: seq<Msg>, dstOpen: bool)
    requires NoCursorDone(dst)
    ensures NoFlag(Rounds(src, srcOpen, dst, dstOpen))
    decreases |src| + |dst| + (if srcOpen then 1 else 0) + (if dstOpen then 1 else 0)
  {
    if srcOpen || dstOpen {
      var s, d := TakeSrc(src, srcOpen), TakeDst(dst, dstOpen);
      if dstOpen { TakeDstShrinks(dst, dstOpen); }
      NoFlagInRounds(s.rest, s.open, d.rest, d.open);
    }
  }

  lemma {:induction false} NoFlagSeparates(seen: set<Key>, rounds: seq<Round>)
    requires NoFlag(rounds)
    ensures CursorsSeparateKeys(seen, rounds)
    decreases |rounds|
  {
    if rounds != [] {
      NoFlagSeparates(seen + KeysOf(rounds[..1]), rounds[1..]);
    }
  }

  lemma {:induction false} NoFlagOneReport(m: Method, st: State, rounds: seq<Round>)
    requires NoFlag(rounds)
    ensures |Reports(m, st, rounds)| == 1
    decreases |rounds|
  {
    if rounds != [] {
      NoFlagOneReport(m, RoundState(m, st, rounds[0]), rounds[1..]);
    }
  }

  /** An `_id` partition: without cursor-done messages, any two streams without repeated keys,
      cut into messages in any way, give one report, of exactly the true problems. */
  lemma {:induction false} IdPartitionIsComparedExactly(m: Method, src: seq<Msg>, dst: seq<Msg>)
    requires NoCursorDone(dst)
    requires NoKeyTwice(DocsIn(src)) && NoKeyTwice(DocsIn(dst))
    ensures var reports := Reports(m, Empty, Rounds(src, true, dst, true));
      && |reports| == 1
      && ExactlyDue(reports[0].problems, m, Index(DocsIn(src)), Index(DocsIn(dst)))
  {
    var rounds := Rounds(src, true, dst, true);
    RoundsCarryAllDocs(src, true, dst, true);
    NoFlagInRounds(src, true, dst, true);
    NoFlagSeparates({}, rounds);
    RunReportsExactly(m, rounds);
    NoFlagOneReport(m, Empty, rounds);
    var reports := Reports(m, Empty, rounds);
    assert reports[1..] == [];
    assert AllProblems(reports) == reports[0].problems;
  }
}
