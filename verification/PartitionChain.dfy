/** The stored partitions of a collection: a chain that can be resumed and that covers every `_id`. */
module PartitionChain {
  import opened Bson
  import opened IdOrder
  import opened IdFilters
  import opened IdFilterResults

  /** Both bounds are included. */
  datatype Partition = Partition(lower: Id, upper: Id)

  const MIN := Id(MinKey, 0.0)
  const MAX := Id(MaxKey, 0.0)

  predicate SamePlace(a: Id, b: Id) {
    AtMost(a, b) && AtMost(b, a)
  }

  /** Partitions from MinKey on, none backwards, each starting where the one before ends. */
  predicate Chain(parts: seq<Partition>) {
    && (forall i | 0 <= i < |parts| ::
          parts[i].lower.Valid() && parts[i].upper.Valid() && AtMost(parts[i].lower, parts[i].upper))
    && (parts != [] ==> parts[0].lower == MIN)
    && (forall i | 0 < i < |parts| :: Follows(parts, i))
  }

  /** A partition starts where the one before it ends. */
  predicate Follows(parts: seq<Partition>, i: nat)
    requires 0 < i < |parts|
  {
    SamePlace(parts[i - 1].upper, parts[i].lower)
  }

  /** A stored upper bound that none exceeds; there is none if nothing is stored. */
  ghost predicate IsLatest(parts: seq<Partition>, latest: Option<Id>) {
    match latest
    case None => parts == []
    case Some(id) =>
      && (exists i :: 0 <= i < |parts| && parts[i].upper == id)
      && (forall i | 0 <= i < |parts| :: AtMost(parts[i].upper, id))
  }

  /** Where an attempt starts. */
  function Start(latest: Option<Id>): Id { if latest.Some? then latest.value else MIN }

  /** The partitions between successive bounds. */
  function Pieces(lower: Id, bounds: seq<Id>): (r: seq<Partition>)
    ensures |r| == |bounds|
    decreases |bounds|
  {
    if bounds == [] then [] else [Partition(lower, bounds[0])] + Pieces(bounds[0], bounds[1..])
  }

  function LastBound(lower: Id, bounds: seq<Id>): Id {
    if bounds == [] then lower else bounds[|bounds| - 1]
  }

  predicate Rising(lower: Id, bounds: seq<Id>)
    decreases |bounds|
  {
    bounds == [] || (bounds[0].Valid() && AtMost(lower, bounds[0]) && Rising(bounds[0], bounds[1..]))
  }

  /** What is stored after an attempt: the partitions between the bounds it got to, and, if it
      got to its end, the last one, open above. */
  function After(parts: seq<Partition>, lower: Id, bounds: seq<Id>, complete: bool): seq<Partition> {
    parts + Pieces(lower, bounds) + if complete then [Partition(LastBound(lower, bounds), MAX)] else []
  }

  /** Whether a partition with this lower bound can come next. */
  predicate Continues(parts: seq<Partition>, lower: Id) {
    lower.Valid() && if parts == [] then lower == MIN else SamePlace(parts[|parts| - 1].upper, lower)
  }

  lemma ChainGrows(parts: seq<Partition>, p: Partition)
    requires Chain(parts) && Continues(parts, p.lower) && p.upper.Valid() && AtMost(p.lower, p.upper)
    ensures Chain(parts + [p]) && Continues(parts + [p], p.upper)
  {
    var more := parts + [p];
    forall i | 0 < i < |more| ensures Follows(more, i) {
      if i < |parts| { assert Follows(parts, i); }
    }
  }

  lemma {:induction false} PiecesChain(parts: seq<Partition>, lower: Id, bounds: seq<Id>)
    requires Chain(parts) && Continues(parts, lower) && Rising(lower, bounds)
    ensures Chain(parts + Pieces(lower, bounds))
    ensures Continues(parts + Pieces(lower, bounds), LastBound(lower, bounds))
    decreases |bounds|
  {
    if bounds == [] {
      assert parts + [] == parts;
    } else {
      var p := Partition(lower, bounds[0]);
      ChainGrows(parts, p);
      PiecesChain(parts + [p], bounds[0], bounds[1..]);
      PiecesMove(parts, p, Pieces(bounds[0], bounds[1..]));
    }
  }

  lemma PiecesMove(parts: seq<Partition>, p: Partition, others: seq<Partition>)
    ensures parts + ([p] + others) == parts + [p] + others
  {
  }

  /** In a chain the latest upper bound is the last one. */
  lemma {:induction false} LatestIsLast(parts: seq<Partition>, latest: Option<Id>)
    requires Chain(parts) && IsLatest(parts, latest) && parts != []
    ensures latest.Some? && latest.value.Valid() && SamePlace(parts[|parts| - 1].upper, latest.value)
  {
    var i :| 0 <= i < |parts| && parts[i].upper == latest.value;
    UppersRise(parts, i, |parts| - 1);
  }

  lemma {:induction false} UppersRise(parts: seq<Partition>, i: nat, j: nat)
    requires Chain(parts) && i <= j < |parts|
    ensures AtMost(parts[i].upper, parts[j].upper)
    decreases j - i
  {
    if i < j {
      UppersRise(parts, i, j - 1);
      NextIsHigher(parts, j);
      Transitive(parts[i].upper, parts[j - 1].upper, parts[j].upper);
    }
  }

  lemma NextIsHigher(parts: seq<Partition>, j: nat)
    requires Chain(parts) && 0 < j < |parts|
    ensures AtMost(parts[j - 1].upper, parts[j].upper)
  {
    assert Follows(parts, j);
    Transitive(parts[j - 1].upper, parts[j].lower, parts[j].upper);
  }

  /** An attempt keeps the chain, wherever it is interrupted; a complete one ends it at MaxKey. */
  lemma {:induction false} AttemptKeepsChain(parts: seq<Partition>, latest: Option<Id>, bounds: seq<Id>, complete: bool)
    requires Chain(parts) && IsLatest(parts, latest) && Start(latest).Valid() && Rising(Start(latest), bounds)
    ensures var r := After(parts, Start(latest), bounds, complete);
      Chain(r) && (complete ==> r != [] && r[|r| - 1].upper == MAX)
  {
    if parts != [] { LatestIsLast(parts, latest); }
    PiecesChain(parts, Start(latest), bounds);
    var all, last := parts + Pieces(Start(latest), bounds), LastBound(Start(latest), bounds);
    if complete {
      LowestIsMinKey(MAX, last);
      ChainGrows(all, Partition(last, MAX));
    } else {
      assert all + [] == all;
    }
  }

  predicate Covers(parts: seq<Partition>, id: Id) {
    exists i :: 0 <= i < |parts| && InRange(parts[i].lower, parts[i].upper, id)
  }

  /** A chain up to MaxKey leaves no gap: every `_id` of every type is in a partition. */
  lemma {:induction false} ChainCoversAll(parts: seq<Partition>, id: Id)
    requires Chain(parts) && parts != [] && SamePlace(parts[|parts| - 1].upper, MAX) && id.Valid()
    ensures Covers(parts, id)
  {
    LowestIsMinKey(MAX, id);
    LowestIsMinKey(MIN, id);
    Transitive(id, MAX, parts[|parts| - 1].upper);
    CoversUpTo(parts, id, |parts| - 1);
  }

  lemma {:induction false} CoversUpTo(parts: seq<Partition>, id: Id, n: nat)
    requires Chain(parts) && n < |parts| && id.Valid() && AtMost(MIN, id) && AtMost(id, parts[n].upper)
    ensures Covers(parts, id)
    decreases n
  {
    if AtMost(parts[n].lower, id) {
      assert InRange(parts[n].lower, parts[n].upper, id);
    } else {
      assert n > 0 && Follows(parts, n);
      Transitive(id, parts[n].lower, parts[n - 1].upper);
      CoversUpTo(parts, id, n - 1);
    }
  }

  // ---- Any number of attempts ------------------------------------------------------------

  /** One attempt: what it finds to be the latest bound, the bounds it gets to, whether it
      comes to its end. */
  datatype Attempt = Attempt(latest: Option<Id>, bounds: seq<Id>, complete: bool)

  ghost predicate Possible(parts: seq<Partition>, a: Attempt) {
    IsLatest(parts, a.latest) && Start(a.latest).Valid() && Rising(Start(a.latest), a.bounds)
  }

  /** What is stored after some attempts, one after the other. */
  function Replay(attempts: seq<Attempt>): seq<Partition>
    decreases |attempts|
  {
    if attempts == [] then []
    else
      var last := attempts[|attempts| - 1];
      After(Replay(attempts[..|attempts| - 1]), Start(last.latest), last.bounds, last.complete)
  }

  /** Each attempt resumes from what the attempts before it stored. */
  ghost predicate Feasible(attempts: seq<Attempt>)
    decreases |attempts|
  {
    attempts == [] || (
      && Feasible(attempts[..|attempts| - 1])
      && Possible(Replay(attempts[..|attempts| - 1]), attempts[|attempts| - 1]))
  }

  predicate AnyComplete(attempts: seq<Attempt>) {
    exists k :: 0 <= k < |attempts| && attempts[k].complete
  }

  /** Whether the chain has come to MaxKey. */
  predicate ReachesMax(parts: seq<Partition>) {
    parts != [] && SamePlace(parts[|parts| - 1].upper, MAX)
  }

  /** After any number of attempts, interrupted anywhere, and a complete one, the partitions
      are a gap-free chain from MinKey to MaxKey that covers every `_id` of any type; a further
      attempt only adds to it. */
  lemma {:induction false} ResumedChainCoversAll(attempts: seq<Attempt>, id: Id)
    requires Feasible(attempts) && id.Valid()
    ensures Chain(Replay(attempts))
    ensures AnyComplete(attempts) ==> Covers(Replay(attempts), id)
  {
    HistoryKeepsChain(attempts);
    if AnyComplete(attempts) {
      ChainCoversAll(Replay(attempts), id);
    }
  }

  /** Some partition's filter selects the `_id`. */
  predicate Selected(cluster: ClusterInfo, parts: seq<Partition>, id: Id)
    requires id.Valid()
  {
    exists i :: 0 <= i < |parts| && SelectedBy(cluster, parts[i], id)
  }

  predicate SelectedBy(cluster: ClusterInfo, p: Partition, id: Id)
    requires id.Valid()
  {
    var r := FilterIdBounds(cluster, p.lower, p.upper);
    r.Ok? && (forall q | q in r.value :: WellFormed(q)) && Selects(r.value, id)
  }

  /** So no document is left out by the partitions' queries, whatever form of filter the server's
      version calls for, if its `_id` is not MinKey. */
  lemma {:induction false} ResumedPartitionsSelectAll(cluster: ClusterInfo, attempts: seq<Attempt>, id: Id)
    requires Feasible(attempts) && AnyComplete(attempts) && id.Valid() && id.t != MinKey
    ensures Selected(cluster, Replay(attempts), id)
  {
    var parts := Replay(attempts);
    ResumedChainCoversAll(attempts, id);
    var i :| 0 <= i < |parts| && InRange(parts[i].lower, parts[i].upper, id);
    FilterSelectsRange(cluster, parts[i].lower, parts[i].upper, id);
    assert SelectedBy(cluster, parts[i], id);
  }

  lemma {:induction false} HistoryKeepsChain(attempts: seq<Attempt>)
    requires Feasible(attempts)
    ensures Chain(Replay(attempts)) && (AnyComplete(attempts) ==> ReachesMax(Replay(attempts)))
    decreases |attempts|
  {
    if attempts != [] {
      var first, last := attempts[..|attempts| - 1], attempts[|attempts| - 1];
      HistoryKeepsChain(first);
      OneMoreAttempt(Replay(first), last);
      if AnyComplete(attempts) && !last.complete {
        var k :| 0 <= k < |attempts| && attempts[k].complete;
        assert first[k].complete;
      }
    }
  }

  /** A complete attempt brings the chain to MaxKey; any attempt leaves it there. */
  lemma OneMoreAttempt(before: seq<Partition>, a: Attempt)
    requires Chain(before) && Possible(before, a)
    ensures var parts := After(before, Start(a.latest), a.bounds, a.complete);
      Chain(parts) && (a.complete || ReachesMax(before) ==> ReachesMax(parts))
  {
    AttemptKeepsChain(before, a.latest, a.bounds, a.complete);
    if ReachesMax(before) {
      var parts := After(before, Start(a.latest), a.bounds, a.complete);
      assert parts[|before| - 1] == before[|before| - 1];
      MaxIsLast(parts, |before| - 1);
    }
  }

  lemma MaxIsLast(parts: seq<Partition>, i: nat)
    requires Chain(parts) && i < |parts| && AtMost(MAX, parts[i].upper)
    ensures ReachesMax(parts)
  {
    UppersRise(parts, i, |parts| - 1);
    LowestIsMinKey(MAX, parts[|parts| - 1].upper);
  }
}
