/** What the streaming comparator does, as functions on its caches and its messages. */
module ComparatorModel {
  import opened Bson

  const MAX_PROBLEMS := 100_000
  const MAX_VARIABLE_BYTES := 30 * 1024 * 1024
  /** The largest document a server stores for a client. */
  const MAX_DOCUMENT_BYTES := 16 * 1024 * 1024

  type Key = seq<Byte>

  /** A document as read: its map key, its `_id`, its reported size, its bytes, its read time. */
  datatype Doc = Doc(key: Key, id: RawValue, size: nat, body: seq<Byte>, time: nat)

  /** What the comparison of two documents says. */
  datatype Difference = Difference(id: RawValue, details: string, cluster: Cluster, dataSize: nat)

  /** A difference, with the map key of the documents it is about. */
  datatype Problem = Problem(
    key: Key,
    what: Difference,
    srcTime: Option<nat>,
    dstTime: Option<nat>,
    firstSeen: Option<nat>)

  /** How documents are compared, and which first-mismatch times the task carries. */
  datatype Method = Method(
    compare: (seq<Byte>, seq<Byte>) -> seq<Difference>,
    firstSeen: Doc -> Option<nat>)

  datatype State = State(
    src: map<Key, Doc>,
    dst: map<Key, Doc>,
    problems: seq<Problem>,
    srcDocs: nat,
    srcBytes: nat,
    cachedBytes: nat)

  const NoDocs: map<Key, Doc> := map[]

  const Empty := State(NoDocs, NoDocs, [], 0, 0, 0)

  /** A report; caches are swept in no fixed order, so its problems form a multiset. */
  datatype Report = Report(problems: multiset<Problem>, docs: nat, bytes: nat)

  datatype Msg = Docs(docs: seq<Doc>) | Padding | CursorDone

  /** What one wait for both readers yields: a batch of each, and whether a cursor ended before. */
  datatype Round = Round(src: seq<Doc>, dst: seq<Doc>, cursorDone: bool)

  /** Arithmetic on uint64. */
  function Wrap(n: int): (r: nat)
    ensures r < TWO_TO_THE_64
  {
    n % TWO_TO_THE_64
  }

  /** What a cached document adds to the byte count. */
  function Weight(key: Key, d: Doc): nat { |key| + |d.body| }

  function MissingOnTarget(m: Method, s: Doc): Problem {
    Problem(s.key, Difference(s.id, "Missing", Dst, |s.body|), Some(s.time), None, m.firstSeen(s))
  }

  function MissingOnSource(m: Method, d: Doc): Problem {
    Problem(d.key, Difference(d.id, "Missing", Src, |d.body|), None, Some(d.time), m.firstSeen(d))
  }

  function ProblemOf(m: Method, s: Doc, d: Doc, difference: Difference): Problem {
    Problem(s.key, difference, Some(s.time), Some(d.time), m.firstSeen(s))
  }

  /** The problems of two documents with the same key. */
  function Paired(m: Method, s: Doc, d: Doc): seq<Problem> {
    var found := m.compare(s.body, d.body);
    seq(|found|, i requires 0 <= i < |found| => ProblemOf(m, s, d, found[i]))
  }

  function IdBytes(problems: seq<Problem>): nat {
    if problems == [] then 0
    else IdBytes(problems[..|problems| - 1]) + |problems[|problems| - 1].what.id.value|
  }

  /** Adds the problems of a pair, whose cached half has already left its cache. */
  function Recorded(m: Method, st: State, s: Doc, d: Doc): State {
    st.(problems := st.problems + Paired(m, s, d),
        cachedBytes := Wrap(st.cachedBytes + IdBytes(Paired(m, s, d))))
  }

  function ProcessSrc(m: Method, st: State, s: Doc): State {
    if s.key in st.dst then
      var d := st.dst[s.key];
      Recorded(m, st.(dst := st.dst - {s.key}, cachedBytes := Wrap(st.cachedBytes - Weight(s.key, d))), s, d)
    else
      st.(src := st.src[s.key := s], cachedBytes := Wrap(st.cachedBytes + Weight(s.key, s)))
  }

  function ProcessDst(m: Method, st: State, d: Doc): State {
    if d.key in st.src then
      var s := st.src[d.key];
      Recorded(m, st.(src := st.src - {d.key}, cachedBytes := Wrap(st.cachedBytes - Weight(d.key, s))), s, d)
    else
      st.(dst := st.dst[d.key := d], cachedBytes := Wrap(st.cachedBytes + Weight(d.key, d)))
  }

  /** One document of each batch in turn, while any remains. */
  function Interleave(m: Method, st: State, src: seq<Doc>, dst: seq<Doc>): State
    decreases |src| + |dst|
  {
    if src == [] && dst == [] then st
    else
      var st1 := if src == [] then st else ProcessSrc(m, st, src[0]);
      var st2 := if dst == [] then st1 else ProcessDst(m, st1, dst[0]);
      Interleave(m, st2, Rest(src), Rest(dst))
  }

  /** No document replaces a cached one of its own side with the same key. */
  predicate NeverReplaces(m: Method, st: State, src: seq<Doc>, dst: seq<Doc>)
    decreases |src| + |dst|
  {
    (src == [] && dst == []) || (
      var st1 := if src == [] then st else ProcessSrc(m, st, src[0]);
      var st2 := if dst == [] then st1 else ProcessDst(m, st1, dst[0]);
      && (src != [] ==> src[0].key !in st.src)
      && (dst != [] ==> dst[0].key !in st1.dst)
      && NeverReplaces(m, st2, Rest(src), Rest(dst)))
  }

  function Rest<T>(xs: seq<T>): seq<T> { if xs == [] then [] else xs[1..] }

  function Sizes(docs: seq<Doc>): nat {
    if docs == [] then 0 else Sizes(docs[..|docs| - 1]) + docs[|docs| - 1].size
  }

  /** Counting source documents as they are read. */
  function Counted(st: State, docs: seq<Doc>): State {
    st.(srcDocs := st.srcDocs + |docs|, srcBytes := st.srcBytes + Sizes(docs))
  }

  predicate NeedsFlush(st: State) {
    |st.src| + |st.dst| + |st.problems| >= MAX_PROBLEMS || st.cachedBytes >= MAX_VARIABLE_BYTES
  }

  /** Everything there is to say about one key, given the documents that bear it: both are
      compared, one alone is missing on the other side. */
  function ProblemsAt(m: Method, S: map<Key, Doc>, D: map<Key, Doc>, k: Key): seq<Problem> {
    if k in S && k in D then Paired(m, S[k], D[k])
    else if k in S then [MissingOnTarget(m, S[k])]
    else if k in D then [MissingOnSource(m, D[k])]
    else []
  }

  /** How often a problem must be reported of two collections without repeated keys. */
  function Due(m: Method, S: map<Key, Doc>, D: map<Key, Doc>, p: Problem): nat {
    multiset(ProblemsAt(m, S, D, p.key))[p]
  }

  /** Exactly the problems due: none missed, none invented, none repeated. */
  ghost predicate ExactlyDue(problems: multiset<Problem>, m: Method, S: map<Key, Doc>, D: map<Key, Doc>) {
    forall p :: problems[p] == Due(m, S, D, p)
  }

  ghost function MissingTargets(m: Method, docs: map<Key, Doc>): set<Problem> {
    set k | k in docs :: MissingOnTarget(m, docs[k])
  }

  ghost function MissingSources(m: Method, docs: map<Key, Doc>): set<Problem> {
    set k | k in docs :: MissingOnSource(m, docs[k])
  }

  /** A report of all problems, with every cached document missing on the other side. */
  ghost function ReportOf(m: Method, st: State): Report {
    Report(
      multiset(st.problems) + multiset(MissingTargets(m, st.src)) + multiset(MissingSources(m, st.dst)),
      st.srcDocs, st.srcBytes)
  }

  /** The reports that one round sends. */
  ghost function RoundReports(m: Method, st: State, r: Round): seq<Report> {
    if r.cursorDone && NeedsFlush(Counted(st, r.src)) then [ReportOf(m, Counted(st, r.src))] else []
  }

  /** The state once a round's source documents are counted and, if a cursor ended, flushed. */
  function BeforeBatches(m: Method, st: State, r: Round): State {
    var st1 := Counted(st, r.src);
    if r.cursorDone && NeedsFlush(st1) then Empty else st1
  }

  function RoundState(m: Method, st: State, r: Round): State {
    Interleave(m, BeforeBatches(m, st, r), r.src, r.dst)
  }

  /** The same of a whole run: no key repeats on a side while it is cached. */
  predicate RunNeverReplaces(m: Method, st: State, rounds: seq<Round>)
    decreases |rounds|
  {
    rounds == [] || (
      && NeverReplaces(m, BeforeBatches(m, st, rounds[0]), rounds[0].src, rounds[0].dst)
      && RunNeverReplaces(m, RoundState(m, st, rounds[0]), rounds[1..]))
  }

  /** The reports of a whole run. */
  ghost function Reports(m: Method, st: State, rounds: seq<Round>): seq<Report>
    decreases |rounds|
  {
    if rounds == [] then [ReportOf(m, st)]
    else RoundReports(m, st, rounds[0]) + Reports(m, RoundState(m, st, rounds[0]), rounds[1..])
  }

  /** What one reader hands over: a batch, whether a cursor ended before it, what remains, and
      whether the channel is still open. */
  datatype Taken = Taken(batch: seq<Doc>, cursorDone: bool, rest: seq<Msg>, open: bool)

  function TakeSrc(msgs: seq<Msg>, open: bool): Taken {
    if !open || msgs == [] then Taken([], false, [], false)
    else Taken(if msgs[0].Docs? then msgs[0].docs else [], false, msgs[1..], true)
  }

  function TakeDst(msgs: seq<Msg>, open: bool): Taken {
    if !open || msgs == [] then Taken([], false, [], false)
    else
      match msgs[0]
      case Docs(docs) => Taken(docs, false, msgs[1..], true)
      case Padding => Taken([], false, msgs[1..], true)
      case CursorDone => TakeDst(msgs[1..], open).(cursorDone := true)
  }

  lemma {:induction false} TakeDstShrinks(msgs: seq<Msg>, open: bool)
    requires open
    ensures var t := TakeDst(msgs, open); |t.rest| + (if t.open then 1 else 0) < |msgs| + 1
  {
    if msgs != [] && msgs[0].CursorDone? {
      TakeDstShrinks(msgs[1..], open);
    }
  }

  /** The rounds of a run: every open reader hands over one batch a round. */
  ghost function Rounds(src: seq<Msg>, srcOpen: bool, dst: seq<Msg>, dstOpen: bool): seq<Round>
    decreases |src| + |dst| + (if srcOpen then 1 else 0) + (if dstOpen then 1 else 0)
  {
    if !srcOpen && !dstOpen then []
    else
      var s, d := TakeSrc(src, srcOpen), TakeDst(dst, dstOpen);
      assert dstOpen ==> |d.rest| + (if d.open then 1 else 0) < |dst| + 1 by {
        if dstOpen { TakeDstShrinks(dst, dstOpen); }
      }
      [Round(s.batch, d.batch, d.cursorDone)] + Rounds(s.rest, s.open, d.rest, d.open)
  }

  /** The documents of a run, in the order each side sent them. */
  function SrcDocs(rounds: seq<Round>): seq<Doc> {
    if rounds == [] then [] else rounds[0].src + SrcDocs(rounds[1..])
  }

  function DstDocs(rounds: seq<Round>): seq<Doc> {
    if rounds == [] then [] else rounds[0].dst + DstDocs(rounds[1..])
  }

  function DocsIn(msgs: seq<Msg>): seq<Doc> {
    if msgs == [] then [] else (if msgs[0].Docs? then msgs[0].docs else []) + DocsIn(msgs[1..])
  }

  /** Documents by key; of documents with the same key, the last. */
  function Index(docs: seq<Doc>): (r: map<Key, Doc>) {
    if docs == [] then map[] else map[docs[0].key := docs[0]] + Index(docs[1..])
  }

  predicate NoKeyTwice(docs: seq<Doc>) {
    forall i, j | 0 <= i < j < |docs| :: docs[i].key != docs[j].key
  }

  ghost function AllProblems(reports: seq<Report>): multiset<Problem> {
    if reports == [] then multiset{} else reports[0].problems + AllProblems(reports[1..])
  }

  function AllDocs(reports: seq<Report>): nat {
    if reports == [] then 0 else reports[0].docs + AllDocs(reports[1..])
  }
}
