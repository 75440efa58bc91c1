/** The streaming comparator: an incremental two-sided hash join with early flushes. */
module StreamingComparator {
  import opened Bson
  import opened ComparatorModel
  import opened ComparatorResults
  import opened ComparatorBytes

  /** A report as sent on the channel. */
  datatype Sent = Sent(problems: seq<Problem>, docs: nat, bytes: nat)

  function AsReport(sent: Sent): Report { Report(multiset(sent.problems), sent.docs, sent.bytes) }

  function AsReports(sent: seq<Sent>): seq<Report> {
    seq(|sent|, i requires 0 <= i < |sent| => AsReport(sent[i]))
  }

  class Comparator {
    const how: Method
    var srcCache: map<Key, Doc>
    var dstCache: map<Key, Doc>
    var problems: seq<Problem>
    var srcDocCount: nat
    var srcByteCount: nat
    var cachedVariableBytes: nat
    var srcClosed: bool
    var dstClosed: bool
    var reports: seq<Sent>

    ghost predicate Valid()
      reads this
    {
      Keyed(srcCache) && Keyed(dstCache)
    }

    ghost function Caches(): State
      reads this
    {
      State(srcCache, dstCache, problems, srcDocCount, srcByteCount, cachedVariableBytes)
    }

    constructor (how: Method)
      ensures Valid() && this.how == how && Caches() == Empty && reports == []
      ensures !srcClosed && !dstClosed
    {
      this.how := how;
      srcCache, dstCache, problems, reports := map[], map[], [], [];
      srcDocCount, srcByteCount, cachedVariableBytes := 0, 0, 0;
      srcClosed, dstClosed := false, false;
    }

    /** The problems of a pair, stamped with the read times and the first mismatch. */
    method RecordMismatches(s: Doc, d: Doc)
      requires cachedVariableBytes < TWO_TO_THE_64
      modifies `problems, `cachedVariableBytes
      ensures Caches() == Recorded(how, old(Caches()), s, d)
    {
      var mismatches := how.compare(s.body, d.body);
      var stamped := [];
      for i := 0 to |mismatches|
        invariant stamped == Paired(how, s, d)[..i]
        invariant cachedVariableBytes == Wrap(old(cachedVariableBytes) + IdBytes(stamped))
        invariant problems == old(problems)
      {
        var problem := ProblemOf(how, s, d, mismatches[i]);
        WrapTwice(old(cachedVariableBytes) + IdBytes(stamped), |problem.what.id.value|);
        assert (stamped + [problem])[..|stamped|] == stamped;
        cachedVariableBytes := Wrap(cachedVariableBytes + |problem.what.id.value|);
        stamped := stamped + [problem];
      }
      assert Paired(how, s, d)[..|mismatches|] == Paired(how, s, d);
      problems := problems + stamped;
    }

    /** Caches a document whose peer has not been seen, or compares it with its cached peer. */
    method ProcessSingleDoc(cur: Doc, isSrc: bool)
      requires Valid()
      modifies `srcCache, `dstCache, `problems, `cachedVariableBytes
      ensures Valid()
      ensures Caches() == if isSrc then ProcessSrc(how, old(Caches()), cur) else ProcessDst(how, old(Caches()), cur)
    {
      var theirs := if isSrc then dstCache else srcCache;
      if cur.key !in theirs {
        if isSrc {
          srcCache := srcCache[cur.key := cur];
        } else {
          dstCache := dstCache[cur.key := cur];
        }
        cachedVariableBytes := Wrap(cachedVariableBytes + Weight(cur.key, cur));
        return;
      }
      var their := theirs[cur.key];
      if isSrc {
        dstCache := dstCache - {cur.key};
      } else {
        srcCache := srcCache - {cur.key};
      }
      cachedVariableBytes := Wrap(cachedVariableBytes - Weight(cur.key, their));
      if isSrc {
        RecordMismatches(cur, their);
      } else {
        RecordMismatches(their, cur);
      }
    }

    /** Adds a problem for every cached source document, in any order. */
    method SweepSrcCache()
      requires Keyed(srcCache)
      modifies `problems
      ensures multiset(problems) == old(multiset(problems)) + multiset(MissingTargets(how, srcCache))
    {
      var keys := srcCache.Keys;
      while keys != {}
        invariant keys <= srcCache.Keys
        invariant multiset(problems) == old(multiset(problems)) + multiset(MissingTargets(how, srcCache - keys))
      {
        var k :| k in keys;
        OneMoreTarget(how, srcCache, keys, k);
        problems := problems + [MissingOnTarget(how, srcCache[k])];
        keys := keys - {k};
      }
      assert srcCache - {} == srcCache;
    }

    method SweepDstCache()
      requires Keyed(dstCache)
      modifies `problems
      ensures multiset(problems) == old(multiset(problems)) + multiset(MissingSources(how, dstCache))
    {
      var keys := dstCache.Keys;
      while keys != {}
        invariant keys <= dstCache.Keys
        invariant multiset(problems) == old(multiset(problems)) + multiset(MissingSources(how, dstCache - keys))
      {
        var k :| k in keys;
        OneMoreSource(how, dstCache, keys, k);
        problems := problems + [MissingOnSource(how, dstCache[k])];
        keys := keys - {k};
      }
      assert dstCache - {} == dstCache;
    }

    /** Reports everything found so far and starts afresh. */
    method Flush()
      requires Valid()
      modifies `srcCache, `dstCache, `problems, `srcDocCount, `srcByteCount, `cachedVariableBytes, `reports
      ensures Valid() && Caches() == Empty
      ensures AsReports(reports) == old(AsReports(reports)) + [ReportOf(how, old(Caches()))]
    {
      SweepSrcCache();
      SweepDstCache();
      reports := reports + [Sent(problems, srcDocCount, srcByteCount)];
      problems := [];
      srcCache, dstCache := map[], map[];
      srcDocCount, srcByteCount, cachedVariableBytes := 0, 0, 0;
    }

    method FlushIfNeeded()
      requires Valid()
      modifies `srcCache, `dstCache, `problems, `srcDocCount, `srcByteCount, `cachedVariableBytes, `reports
      ensures Valid()
      ensures Caches() == if NeedsFlush(old(Caches())) then Empty else old(Caches())
      ensures AsReports(reports) == old(AsReports(reports)) +
        if NeedsFlush(old(Caches())) then [ReportOf(how, old(Caches()))] else []
    {
      var totalProblems := |srcCache| + |dstCache| + |problems|;
      if totalProblems >= MAX_PROBLEMS || cachedVariableBytes >= MAX_VARIABLE_BYTES {
        Flush();
      }
    }

    method RecordSrcMetrics(docs: seq<Doc>)
      modifies `srcDocCount, `srcByteCount
      ensures Caches() == Counted(old(Caches()), docs)
    {
      srcDocCount := srcDocCount + |docs|;
      for i := 0 to |docs|
        invariant srcDocCount == old(srcDocCount) + |docs|
        invariant srcByteCount == old(srcByteCount) + Sizes(docs[..i])
      {
        assert docs[..i + 1][..i] == docs[..i];
        srcByteCount := srcByteCount + docs[i].size;
      }
      assert docs[..|docs|] == docs;
    }

    /** One wait for every open reader: the next source batch, and destination messages up to
        the first that is not a flag. `src` and `dst` are what the channels still hold; the
        batches come with what they hold afterwards. */
    method ReadBatches(src: seq<Msg>, dst: seq<Msg>)
      returns (srcBatch: seq<Doc>, dstBatch: seq<Doc>, cursorDone: bool, srcRest: seq<Msg>, dstRest: seq<Msg>)
      requires forall i | 0 <= i < |src| :: src[i].Docs?
      requires (srcClosed ==> src == []) && (dstClosed ==> dst == [])
      modifies `srcClosed, `dstClosed, `srcDocCount, `srcByteCount
      ensures Caches() == Counted(old(Caches()), srcBatch)
      ensures TakeSrc(src, !old(srcClosed)) == Taken(srcBatch, false, srcRest, !srcClosed)
      ensures TakeDst(dst, !old(dstClosed)) == Taken(dstBatch, cursorDone, dstRest, !dstClosed)
    {
      srcBatch, dstBatch, cursorDone, srcRest, dstRest := [], [], false, src, dst;
      if !srcClosed {
        if src == [] {
          srcClosed := true;
        } else {
          srcBatch, srcRest := src[0].docs, src[1..];
        }
      }
      RecordSrcMetrics(srcBatch);
      if !dstClosed {
        while dstRest != [] && dstRest[0].CursorDone?
          invariant TakeDst(dst, true) ==
            var later := TakeDst(dstRest, true); later.(cursorDone := cursorDone || later.cursorDone)
        {
          cursorDone, dstRest := true, dstRest[1..];
        }
        if dstRest == [] {
          dstClosed := true;
        } else {
          dstBatch := if dstRest[0].Docs? then dstRest[0].docs else [];
          dstRest := dstRest[1..];
        }
      }
    }

    /** Handles the documents of two batches in turn. */
    method ProcessBatches(src: seq<Doc>, dst: seq<Doc>)
      requires Valid()
      modifies `srcCache, `dstCache, `problems, `cachedVariableBytes
      ensures Valid()
      ensures Caches() == Interleave(how, old(Caches()), src, dst)
    {
      var srcBatch, dstBatch := src, dst;
      while |srcBatch| + |dstBatch| > 0
        invariant Valid()
        invariant Interleave(how, Caches(), srcBatch, dstBatch) == Interleave(how, old(Caches()), src, dst)
      {
        if |srcBatch| > 0 {
          ProcessSingleDoc(srcBatch[0], true);
        }
        if |dstBatch| > 0 {
          ProcessSingleDoc(dstBatch[0], false);
        }
        srcBatch, dstBatch := Rest(srcBatch), Rest(dstBatch);
      }
    }

    /** What the channels may still hold. */
    predicate Ready(src: seq<Msg>, dst: seq<Msg>)
      reads this
    {
      && (forall i | 0 <= i < |src| :: src[i].Docs?)
      && (srcClosed ==> src == [])
      && (dstClosed ==> dst == [])
    }

    /** What this run reports, given what it has reported and what the channels still hold. */
    ghost function Outcome(src: seq<Msg>, dst: seq<Msg>): seq<Report>
      reads this
    {
      AsReports(reports) + Reports(how, Caches(), Rounds(src, !srcClosed, dst, !dstClosed))
    }

    /** Reads the next batches and, if a cursor ended before them, flushes. */
    method NextRound(src: seq<Msg>, dst: seq<Msg>) returns (round: Round, srcRest: seq<Msg>, dstRest: seq<Msg>)
      requires Valid() && Ready(src, dst)
      modifies this
      ensures Valid() && Ready(srcRest, dstRest)
      ensures Caches() == BeforeBatches(how, old(Caches()), round)
      ensures AsReports(reports) == old(AsReports(reports)) + RoundReports(how, old(Caches()), round)
      ensures TakeSrc(src, !old(srcClosed)) == Taken(round.src, false, srcRest, !srcClosed)
      ensures TakeDst(dst, !old(dstClosed)) == Taken(round.dst, round.cursorDone, dstRest, !dstClosed)
    {
      var srcBatch, dstBatch, cursorDone;
      if !dstClosed { TakeDstDocs(dst); }
      srcBatch, dstBatch, cursorDone, srcRest, dstRest := ReadBatches(src, dst);
      round := Round(srcBatch, dstBatch, cursorDone);
      if cursorDone {
        FlushIfNeeded();
      }
    }

    /** One turn of the main loop. */
    method CompareRound(src: seq<Msg>, dst: seq<Msg>) returns (srcRest: seq<Msg>, dstRest: seq<Msg>)
      requires Valid() && Ready(src, dst) && (!srcClosed || !dstClosed)
      modifies this
      ensures Valid() && Ready(srcRest, dstRest)
      ensures Outcome(srcRest, dstRest) == old(Outcome(src, dst))
      ensures |srcRest| + |dstRest| + (if srcClosed then 0 else 1) + (if dstClosed then 0 else 1)
            < |src| + |dst| + old((if srcClosed then 0 else 1) + (if dstClosed then 0 else 1))
    {
      ghost var rounds := Rounds(src, !srcClosed, dst, !dstClosed);
      RoundsUnfold(src, !srcClosed, dst, !dstClosed);
      ReportsUnfold(how, Caches(), rounds, AsReports(reports));
      var round;
      round, srcRest, dstRest := NextRound(src, dst);
      ProcessBatches(round.src, round.dst);
    }

    /** Reads and compares until both channels close, then reports what remains. */
    method Run(src: seq<Msg>, dst: seq<Msg>)
      requires Valid() && Caches() == Empty && reports == []
      requires Ready(src, dst) && !srcClosed && !dstClosed
      modifies this
      ensures AsReports(reports) == Reports(how, Empty, Rounds(src, true, dst, true))
    {
      var srcRest, dstRest := src, dst;
      while !srcClosed || !dstClosed
        invariant Valid() && Ready(srcRest, dstRest)
        invariant Outcome(srcRest, dstRest) == old(Outcome(src, dst))
        decreases |srcRest| + |dstRest| + (if srcClosed then 0 else 1) + (if dstClosed then 0 else 1)
      {
        srcRest, dstRest := CompareRound(srcRest, dstRest);
      }
      Flush();
    }
  }

  lemma {:induction false} RoundsUnfold(src: seq<Msg>, srcOpen: bool, dst: seq<Msg>, dstOpen: bool)
    requires srcOpen || dstOpen
    requires (srcOpen || src == []) && (dstOpen || dst == [])
    ensures var s, d := TakeSrc(src, srcOpen), TakeDst(dst, dstOpen);
      && Rounds(src, srcOpen, dst, dstOpen)
         == [Round(s.batch, d.batch, d.cursorDone)] + Rounds(s.rest, s.open, d.rest, d.open)
      && (s.open || s.rest == []) && (d.open || d.rest == [])
      && |s.rest| + |d.rest| + (if s.open then 1 else 0) + (if d.open then 1 else 0)
         < |src| + |dst| + (if srcOpen then 1 else 0) + (if dstOpen then 1 else 0)
  {
    if dstOpen {
      TakeDstShrinks(dst, dstOpen);
      TakeDstDocs(dst);
    }
  }

  lemma {:induction false} ReportsUnfold(how: Method, st: State, rounds: seq<Round>, sent: seq<Report>)
    requires rounds != []
    ensures sent + Reports(how, st, rounds)
         == sent + RoundReports(how, st, rounds[0]) + Reports(how, RoundState(how, st, rounds[0]), rounds[1..])
  {
  }

  lemma OneMoreTarget(how: Method, docs: map<Key, Doc>, keys: set<Key>, k: Key)
    requires Keyed(docs) && k in keys && keys <= docs.Keys
    ensures multiset(MissingTargets(how, docs - (keys - {k})))
         == multiset(MissingTargets(how, docs - keys)) + multiset{MissingOnTarget(how, docs[k])}
  {
    var before, after, p := docs - keys, docs - (keys - {k}), MissingOnTarget(how, docs[k]);
    MissingTargetsAt(how, before, p);
    forall q ensures q in MissingTargets(how, after) <==> q in MissingTargets(how, before) + {p} {
      MissingTargetsAt(how, before, q);
      MissingTargetsAt(how, after, q);
    }
    assert MissingTargets(how, after) == MissingTargets(how, before) + {p};
  }

  lemma OneMoreSource(how: Method, docs: map<Key, Doc>, keys: set<Key>, k: Key)
    requires Keyed(docs) && k in keys && keys <= docs.Keys
    ensures multiset(MissingSources(how, docs - (keys - {k})))
         == multiset(MissingSources(how, docs - keys)) + multiset{MissingOnSource(how, docs[k])}
  {
    var before, after, p := docs - keys, docs - (keys - {k}), MissingOnSource(how, docs[k]);
    MissingSourcesAt(how, before, p);
    forall q ensures q in MissingSources(how, after) <==> q in MissingSources(how, before) + {p} {
      MissingSourcesAt(how, before, q);
      MissingSourcesAt(how, after, q);
    }
    assert MissingSources(how, after) == MissingSources(how, before) + {p};
  }
}
