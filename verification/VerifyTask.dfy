/** What a worker makes of the comparator's reports. */
module VerifyTask {
  import opened Bson
  import opened ComparatorModel
  import opened ComparatorResults
  import opened ComparatorBytes
  import opened StreamingComparator

  datatype Status = Completed | Failed

  /** What a document task comes to: its status, the source documents and bytes it accounts
      for, the mismatches recorded and the documents enqueued for the next generation. */
  datatype Verdict = Verdict(
    status: Status, docs: nat, bytes: nat, mismatches: seq<Problem>, rechecks: seq<Problem>)

  function DocsCount(reports: seq<Sent>): nat {
    if reports == [] then 0 else DocsCount(reports[..|reports| - 1]) + reports[|reports| - 1].docs
  }

  function BytesCount(reports: seq<Sent>): nat {
    if reports == [] then 0 else BytesCount(reports[..|reports| - 1]) + reports[|reports| - 1].bytes
  }

  function ProblemsOf(reports: seq<Sent>): seq<Problem> {
    if reports == [] then [] else ProblemsOf(reports[..|reports| - 1]) + reports[|reports| - 1].problems
  }

  /** The verdict on a task all of whose reports are the given ones. */
  function VerdictOn(reports: seq<Sent>, lastGeneration: bool): Verdict {
    var problems := ProblemsOf(reports);
    Verdict(
      if problems == [] then Completed else Failed,
      DocsCount(reports), BytesCount(reports), problems, if lastGeneration then [] else problems)
  }

  /** How many reports are read: up to the first without problems. */
  function ReadCount(reports: seq<Sent>): (n: nat)
    ensures n <= |reports|
    ensures forall i | 0 <= i < n - 1 :: reports[i].problems != []
    ensures n < |reports| ==> 0 < n && reports[n - 1].problems == []
  {
    if reports == [] then 0
    else if reports[0].problems == [] then 1
    else 1 + ReadCount(reports[1..])
  }

  /** Reads reports until one has no problems or the channel closes; None stands for the
      assertion that fails when the channel closes before any problem. */
  method ProcessReports(reports: seq<Sent>, lastGeneration: bool) returns (r: Option<Verdict>)
    ensures r == if reports == [] then None
      else Some(VerdictOn(reports[..ReadCount(reports)], lastGeneration))
  {
    var problemsCount, docsCount, bytesCount, recorded, enqueued := 0, 0, 0, [], [];
    var i := 0;
    while true
      invariant 0 <= i <= |reports|
      invariant i + ReadCount(reports[i..]) == ReadCount(reports)
      invariant docsCount == DocsCount(reports[..i]) && bytesCount == BytesCount(reports[..i])
      invariant recorded == ProblemsOf(reports[..i]) && problemsCount == |recorded| >= i
      invariant enqueued == if lastGeneration then [] else recorded
      decreases |reports| - i
    {
      if i == |reports| {
        if problemsCount == 0 { return None; }
        assert ReadCount(reports) == i;
        break;
      }
      var report := reports[i];
      assert reports[..i + 1][..i] == reports[..i];
      assert reports[i..][1..] == reports[i + 1..];
      docsCount, bytesCount := docsCount + report.docs, bytesCount + report.bytes;
      i := i + 1;
      if |report.problems| == 0 {
        assert recorded == ProblemsOf(reports[..i]) && ReadCount(reports) == i;
        break;
      }
      problemsCount := problemsCount + |report.problems|;
      if !lastGeneration {
        enqueued := enqueued + report.problems;
      }
      recorded := recorded + report.problems;
    }
    return Some(Verdict(
      if problemsCount == 0 then Completed else Failed, docsCount, bytesCount, recorded, enqueued));
  }

  /** No problem is due: the two collections agree. */
  ghost predicate Agree(m: Method, S: map<Key, Doc>, D: map<Key, Doc>) {
    forall p :: Due(m, S, D, p) == 0
  }

  /** The worker reads all reports if and only if none but the last is empty. */
  lemma {:induction false} AllReadIff(reports: seq<Sent>)
    ensures ReadCount(reports) == |reports| <==> OnlyLastMayBeEmpty(AsReports(reports))
  {
    if |reports| > 1 {
      AllReadIff(reports[1..]);
      FirstReport(reports);
      assert |multiset(reports[0].problems)| == |reports[0].problems|;
    }
  }

  lemma FirstReport(reports: seq<Sent>)
    requires |reports| > 1
    ensures AsReports(reports)[0].problems == multiset(reports[0].problems)
    ensures OnlyLastMayBeEmpty(AsReports(reports)) <==>
      AsReports(reports)[0].problems != multiset{} && OnlyLastMayBeEmpty(AsReports(reports[1..]))
  {
    assert AsReports(reports) == [AsReports(reports)[0]] + AsReports(reports[1..]);
    EarlyReport([AsReports(reports)[0]], AsReports(reports[1..]));
  }

  lemma {:induction false} SumsAgree(first: seq<Sent>, last: Sent)
    ensures AllProblems(AsReports(first + [last])) == AllProblems(AsReports(first)) + multiset(last.problems)
    ensures AllDocs(AsReports(first + [last])) == AllDocs(AsReports(first)) + last.docs
    ensures AllBytes(AsReports(first + [last])) == AllBytes(AsReports(first)) + last.bytes
    decreases |first|
  {
    if first == [] {
      assert AsReports([last]) == [AsReport(last)] + [];
      OneReportMore(AsReport(last), []);
      assert AsReports(first) == [];
    } else {
      SumsAgree(first[1..], last);
      assert AsReports(first) == [AsReport(first[0])] + AsReports(first[1..]);
      assert AsReports(first + [last]) == [AsReport(first[0])] + AsReports(first[1..] + [last]);
      OneReportMore(AsReport(first[0]), AsReports(first[1..]));
      OneReportMore(AsReport(first[0]), AsReports(first[1..] + [last]));
    }
  }

  lemma {:induction false} SentSums(sent: seq<Sent>)
    ensures multiset(ProblemsOf(sent)) == AllProblems(AsReports(sent))
    ensures DocsCount(sent) == AllDocs(AsReports(sent)) && BytesCount(sent) == AllBytes(AsReports(sent))
    decreases |sent|
  {
    if sent != [] {
      var first, last := sent[..|sent| - 1], sent[|sent| - 1];
      assert sent == first + [last];
      SentSums(first);
      SumsAgree(first, last);
      assert ProblemsOf(sent) == ProblemsOf(first) + last.problems;
    }
  }

  /** The verdict that a comparison of two whole collections calls for. */
  ghost predicate IsVerdictOn(v: Verdict, how: Method, src: seq<Doc>, dst: seq<Doc>) {
    && ExactlyDue(multiset(v.mismatches), how, Index(src), Index(dst))
    && v.docs == |src| && v.bytes == TotalSize(src)
    && (v.status == Completed <==> Agree(how, Index(src), Index(dst)))
  }

  /** If no key repeats on a side, every report is read and every source document counted; and the
      mismatches recorded are exactly those due, and the task completes exactly if none is, if and
      only if no flush comes between two documents with the same key. */
  lemma {:induction false} VerdictIsExactIff(m: Method, rounds: seq<Round>, sent: seq<Sent>, lastGeneration: bool)
    requires AsReports(sent) == Reports(m, Empty, rounds)
    requires NoKeyTwice(SrcDocs(rounds)) && NoKeyTwice(DstDocs(rounds))
    ensures sent != [] && ReadCount(sent) == |sent|
    ensures IsVerdictOn(VerdictOn(sent, lastGeneration), m, SrcDocs(rounds), DstDocs(rounds))
      <==> FlushesSeparateKeys(m, Empty, {}, rounds)
  {
    AllReportsRead(m, rounds, sent);
    SentTallies(m, Empty, rounds, sent);
    RunIsExactIff(m, rounds);
    if FlushesSeparateKeys(m, Empty, {}, rounds) {
      NoneDueIffNone(ProblemsOf(sent), m, Index(SrcDocs(rounds)), Index(DstDocs(rounds)));
    }
  }

  lemma {:induction false} SentTallies(m: Method, st: State, rounds: seq<Round>, sent: seq<Sent>)
    requires st == Empty && AsReports(sent) == Reports(m, st, rounds)
    ensures DocsCount(sent) == |SrcDocs(rounds)| && BytesCount(sent) == TotalSize(SrcDocs(rounds))
    ensures multiset(ProblemsOf(sent)) == AllProblems(Reports(m, st, rounds))
  {
    SentSums(sent);
    ReportsTallyAllDocs(m, st, rounds);
    ReportsTallyAllBytes(m, st, rounds);
  }

  /** So a verdict is exact, whatever the batches and early flushes, if a finished cursor's
      documents share no key with later ones. */
  lemma {:induction false} VerdictIsExact(m: Method, rounds: seq<Round>, sent: seq<Sent>, lastGeneration: bool)
    requires AsReports(sent) == Reports(m, Empty, rounds)
    requires NoKeyTwice(SrcDocs(rounds)) && NoKeyTwice(DstDocs(rounds))
    requires CursorsSeparateKeys({}, rounds)
    ensures sent != [] && ReadCount(sent) == |sent|
    ensures IsVerdictOn(VerdictOn(sent, lastGeneration), m, SrcDocs(rounds), DstDocs(rounds))
  {
    CursorsAreEnough(m, Empty, {}, {}, rounds);
    VerdictIsExactIff(m, rounds, sent, lastGeneration);
  }

  lemma {:induction false} AllReportsRead(m: Method, rounds: seq<Round>, sent: seq<Sent>)
    requires AsReports(sent) == Reports(m, Empty, rounds)
    requires NoKeyTwice(SrcDocs(rounds)) && NoKeyTwice(DstDocs(rounds))
    ensures sent != [] && ReadCount(sent) == |sent|
  {
    NeverFlushesEmpty(m, Empty, map[], rounds);
    ReportsUnreadIff(m, rounds, sent);
  }

  lemma {:induction false} NeverFlushesEmpty(m: Method, st: State, none: map<Key, Doc>, rounds: seq<Round>)
    requires st == Empty && none == map[]
    requires NoKeyTwice(SrcDocs(rounds)) && NoKeyTwice(DstDocs(rounds))
    ensures !SomeEmptyFlush(m, st, 0, rounds)
  {
    EmptyHolds(m, st, none);
    DistinctKeysNeverReplace(m, st, none, none, rounds);
    NoEmptyFlush(m, st, rounds);
  }

  /** Whatever keys repeat: some report stays unread if and only if a flush finds nothing cached and
      no problem recorded, but enough bytes that replaced documents have left in the count. */
  lemma {:induction false} ReportsUnreadIff(m: Method, rounds: seq<Round>, sent: seq<Sent>)
    requires AsReports(sent) == Reports(m, Empty, rounds)
    ensures sent != []
    ensures ReadCount(sent) < |sent| <==> SomeEmptyFlush(m, Empty, 0, rounds)
  {
    RunHasEmptyReportIff(m, Empty, rounds);
    AllReadIff(sent);
  }

  lemma NoneDueIffNone(problems: seq<Problem>, m: Method, S: map<Key, Doc>, D: map<Key, Doc>)
    requires ExactlyDue(multiset(problems), m, S, D)
    ensures problems == [] <==> Agree(m, S, D)
  {
    if problems != [] {
      assert problems[0] in multiset(problems);
      assert multiset(problems)[problems[0]] == Due(m, S, D, problems[0]);
    } else {
      forall p ensures Due(m, S, D, p) == 0 {
        assert multiset(problems)[p] == Due(m, S, D, p);
      }
    }
  }

  /** A whole document task: the comparator runs on the readers' messages, then its reports are
      read. If no key repeats on a side, the verdict is that of a comparison of the two collections
      at once if and only if no flush comes between two documents with the same key. */
  method CompareDocuments(how: Method, src: seq<Msg>, dst: seq<Msg>, lastGeneration: bool) returns (v: Verdict)
    requires forall i | 0 <= i < |src| :: src[i].Docs?
    ensures v.rechecks == if lastGeneration then [] else v.mismatches
    ensures v.status == if v.mismatches == [] then Completed else Failed
    ensures NoKeyTwice(DocsIn(src)) && NoKeyTwice(DocsIn(dst)) ==>
      (IsVerdictOn(v, how, DocsIn(src), DocsIn(dst)) <==> NeverCutsAKey(how, src, dst))
  {
    var c := new Comparator(how);
    c.Run(src, dst);
    var r := ProcessReports(c.reports, lastGeneration);
    VerdictOnMessages(how, src, dst, c.reports, lastGeneration);
    v := r.value;
  }

  /** No flush comes between two documents with the same key. */
  ghost predicate NeverCutsAKey(how: Method, src: seq<Msg>, dst: seq<Msg>) {
    FlushesSeparateKeys(how, Empty, {}, Rounds(src, true, dst, true))
  }

  lemma {:induction false} VerdictOnMessages(how: Method, src: seq<Msg>, dst: seq<Msg>, sent: seq<Sent>, lastGeneration: bool)
    requires AsReports(sent) == Reports(how, Empty, Rounds(src, true, dst, true))
    ensures sent != []
    ensures NoKeyTwice(DocsIn(src)) && NoKeyTwice(DocsIn(dst)) ==>
      (IsVerdictOn(VerdictOn(sent[..ReadCount(sent)], lastGeneration), how, DocsIn(src), DocsIn(dst))
       <==> NeverCutsAKey(how, src, dst))
  {
    RoundsCarryAllDocs(src, true, dst, true);
    VerdictOnRounds(how, Rounds(src, true, dst, true), DocsIn(src), DocsIn(dst), sent, lastGeneration);
  }

  lemma {:induction false} VerdictOnRounds(how: Method, rounds: seq<Round>, src: seq<Doc>, dst: seq<Doc>, sent: seq<Sent>, lastGeneration: bool)
    requires SrcDocs(rounds) == src && DstDocs(rounds) == dst && AsReports(sent) == Reports(how, Empty, rounds)
    ensures sent != []
    ensures NoKeyTwice(src) && NoKeyTwice(dst) ==>
      (IsVerdictOn(VerdictOn(sent[..ReadCount(sent)], lastGeneration), how, src, dst)
       <==> FlushesSeparateKeys(how, Empty, {}, rounds))
  {
    ReportsUnreadIff(how, rounds, sent);
    if NoKeyTwice(src) && NoKeyTwice(dst) {
      VerdictIsExactIff(how, rounds, sent, lastGeneration);
      AllOfIt(sent);
    }
  }

  lemma AllOfIt(sent: seq<Sent>)
    ensures sent[..|sent|] == sent
  {
  }

  /** Agreement is what it should be: the same keys, and no difference between the documents. */
  lemma AgreementMeans(m: Method, S: map<Key, Doc>, D: map<Key, Doc>)
    requires Keyed(S) && Keyed(D)
    ensures Agree(m, S, D)
      <==> S.Keys == D.Keys && forall k | k in S && k in D :: m.compare(S[k].body, D[k].body) == []
  {
    if Agree(m, S, D) {
      forall k ensures ProblemsAt(m, S, D, k) == [] {
        if ProblemsAt(m, S, D, k) != [] { ProblemIsDue(m, S, D, k); }
      }
      forall k | k in S && k in D ensures m.compare(S[k].body, D[k].body) == [] {
        assert ProblemsAt(m, S, D, k) == [];
      }
      forall k ensures k in S <==> k in D {
        assert ProblemsAt(m, S, D, k) == [];
      }
    } else if S.Keys == D.Keys {
      var p :| Due(m, S, D, p) != 0;
      assert p.key in S.Keys && p.key in D.Keys;
      assert |Paired(m, S[p.key], D[p.key])| > 0;
    }
  }

  lemma ProblemIsDue(m: Method, S: map<Key, Doc>, D: map<Key, Doc>, k: Key)
    requires Keyed(S) && Keyed(D) && ProblemsAt(m, S, D, k) != []
    ensures !Agree(m, S, D)
  {
    var p := ProblemsAt(m, S, D, k)[0];
    assert p.key == k && p in multiset(ProblemsAt(m, S, D, k));
    assert Due(m, S, D, p) != 0;
  }

  lemma {:induction false} EmptyReportEndsTask(sent: seq<Sent>, lastGeneration: bool)
    requires sent != [] && AsReports(sent)[0].problems == multiset{}
    ensures VerdictOn(sent[..ReadCount(sent)], lastGeneration).status == Completed
  {
    assert AsReports(sent)[0] == AsReport(sent[0]);
    assert |multiset(sent[0].problems)| == |sent[0].problems|;
    var first := sent[..1];
    assert first[..|first| - 1] == [] && ProblemsOf([]) == [];
    assert ProblemsOf(first) == [];
  }
}
