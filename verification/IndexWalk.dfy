/** Partition bounds found by walking the `_id` index, a fixed number of documents at a time. */
module IndexWalk {
  import opened Bson
  import opened IdOrder
  import opened IdFilterResults
  import opened PartitionChain

  // ---- How many documents a partition spans ----------------------------------------------

  /** None means no limit: the collection is empty, of unknown size, or fits one partition. */
  function DocsPerPartitionFor(collBytes: nat, docsCount: nat, partitionBytes: nat): Option<nat>
    requires partitionBytes > 0
  {
    if docsCount == 0 || collBytes == 0 || collBytes <= partitionBytes then None
    else Some((docsCount * partitionBytes + collBytes - 1) / collBytes)
  }

  /** The least number of documents of average size that reach the partition size. */
  lemma DocsPerPartitionReachesSize(collBytes: nat, docsCount: nat, partitionBytes: nat)
    requires partitionBytes > 0
    ensures match DocsPerPartitionFor(collBytes, docsCount, partitionBytes)
      case None => docsCount == 0 || collBytes <= partitionBytes
      case Some(n) => 1 <= n <= docsCount && (n - 1) * collBytes < docsCount * partitionBytes <= n * collBytes
  {
    if docsCount > 0 && collBytes > partitionBytes {
      var n := (docsCount * partitionBytes + collBytes - 1) / collBytes;
      RoundsUp(docsCount * partitionBytes, collBytes, n);
      Scale(docsCount, partitionBytes, collBytes);
      Smaller(n - 1, docsCount, collBytes);
      Smaller(0, n, collBytes);
    }
  }

  lemma RoundsUp(wanted: nat, unit: nat, n: nat)
    requires unit > 0 && n == (wanted + unit - 1) / unit
    ensures (n - 1) * unit < wanted <= n * unit
  {
    assert wanted + unit - 1 == n * unit + (wanted + unit - 1) % unit;
    assert (n - 1) * unit == n * unit - unit;
  }

  lemma Scale(a: nat, b: nat, c: nat)
    requires a > 0 && 0 < b < c
    ensures 0 < a * b < a * c
  {
    assert a * c == a * b + a * (c - b);
  }

  lemma Smaller(a: int, b: int, unit: nat)
    requires a * unit < b * unit
    ensures a < b
  {
    if a >= b { NotSmaller(a, b, unit); }
  }

  lemma NotSmaller(a: int, b: int, unit: nat)
    requires a >= b
    ensures a * unit >= b * unit
  {
    assert (a - b) * unit >= 0;
  }

  // ---- The walk --------------------------------------------------------------------------

  predicate Below(a: Id, b: Id) { AtMost(a, b) && !AtMost(b, a) }

  /** A collection's `_id`s in order, no two the same. */
  predicate Sorted(ids: seq<Id>) {
    && (forall i | 0 <= i < |ids| :: ids[i].Valid())
    && (forall i, j | 0 <= i < j < |ids| :: Below(ids[i], ids[j]))
  }

  /** Above a bound, in the order of all types; everything is above a MinKey bound, itself too. */
  predicate Above(bound: Id, id: Id) { bound.t == MinKey || Below(bound, id) }

  /** What the walk's query sees: only values that compare with the bound, unless it is MinKey. */
  predicate Queried(bound: Id, id: Id) {
    bound.t == MinKey || (Rank(bound.t) == Rank(id.t) && Below(bound, id))
  }

  function Candidates(ids: seq<Id>, bound: Id): seq<Id> {
    if ids == [] then []
    else if Queried(bound, ids[0]) then [ids[0]] + Candidates(ids[1..], bound)
    else Candidates(ids[1..], bound)
  }

  lemma {:induction false} CandidateAt(ids: seq<Id>, bound: Id, j: nat)
    requires Sorted(ids) && bound.Valid() && j < |Candidates(ids, bound)|
    ensures var id := Candidates(ids, bound)[j]; id in ids && id.Valid() && Queried(bound, id)
  {
    if !Queried(bound, ids[0]) {
      CandidateAt(ids[1..], bound, j);
    } else if j > 0 {
      CandidateAt(ids[1..], bound, j - 1);
    }
  }

  /** The `_id` that sits `n` documents after the bound. */
  function FindNextIDBoundary(ids: seq<Id>, bound: Id, n: Option<nat>): Option<Id>
    requires n.Some? ==> n.value >= 1
  {
    if n.None? then None
    else
      var found := Candidates(ids, bound);
      if |found| < n.value then None else Some(found[n.value - 1])
  }

  /** How many `_id`s lie above one bound and not above another. */
  function CountIn(ids: seq<Id>, lower: Id, upper: Id): nat {
    if ids == [] then 0
    else (if Above(lower, ids[0]) && AtMost(ids[0], upper) then 1 else 0) + CountIn(ids[1..], lower, upper)
  }

  datatype Walk = Walk(bounds: seq<Id>, ended: bool)

  /** The first `k` bounds of a walk, or all of them. */
  function WalkFrom(ids: seq<Id>, lower: Id, n: Option<nat>, k: nat): (w: Walk)
    requires n.Some? ==> n.value >= 1
    ensures |w.bounds| <= k
    decreases k
  {
    if k == 0 then Walk([], false)
    else
      match FindNextIDBoundary(ids, lower, n)
      case None => Walk([], true)
      case Some(upper) =>
        var rest := WalkFrom(ids, upper, n, k - 1);
        Walk([upper] + rest.bounds, rest.ended)
  }

  // ---- Each step -------------------------------------------------------------------------

  lemma {:induction false} CandidatesInOrder(ids: seq<Id>, bound: Id, j: nat)
    requires Sorted(ids) && bound.Valid() && j < |Candidates(ids, bound)|
    ensures Candidates(ids, bound)[j].Valid()
    ensures CountIn(ids, bound, Candidates(ids, bound)[j]) == j + 1
    decreases |ids|
  {
    CandidateAt(ids, bound, j);
    assert forall id :: id in ids[1..] ==> Below(ids[0], id);
    if !Queried(bound, ids[0]) {
      CandidatesInOrder(ids[1..], bound, j);
      FirstIsNotCounted(ids, bound, j);
    } else if j == 0 {
      NoneBelowFirst(ids[1..], bound, ids[0]);
    } else {
      CandidatesInOrder(ids[1..], bound, j - 1);
      FirstIsCounted(ids, bound, j);
    }
  }

  lemma {:induction false} FirstIsCounted(ids: seq<Id>, bound: Id, j: nat)
    requires Sorted(ids) && bound.Valid() && ids != [] && Queried(bound, ids[0]) && 0 < j < |Candidates(ids, bound)|
    requires forall id :: id in ids[1..] ==> Below(ids[0], id)
    ensures var rest := Candidates(ids[1..], bound); j - 1 < |rest| && Candidates(ids, bound)[j] == rest[j - 1]
    ensures var c := Candidates(ids, bound)[j]; CountIn(ids, bound, c) == 1 + CountIn(ids[1..], bound, c)
  {
    assert Candidates(ids, bound) == [ids[0]] + Candidates(ids[1..], bound);
    CandidateAt(ids[1..], bound, j - 1);
  }

  lemma {:induction false} FirstIsNotCounted(ids: seq<Id>, bound: Id, j: nat)
    requires Sorted(ids) && bound.Valid() && ids != [] && !Queried(bound, ids[0]) && j < |Candidates(ids, bound)|
    requires forall id :: id in ids[1..] ==> Below(ids[0], id)
    ensures var rest := Candidates(ids[1..], bound); j < |rest| && Candidates(ids, bound)[j] == rest[j]
    ensures var c := Candidates(ids, bound)[j]; CountIn(ids, bound, c) == CountIn(ids[1..], bound, c)
  {
    var rest := Candidates(ids[1..], bound);
    CandidateAt(ids[1..], bound, j);
    assert Below(ids[0], rest[j]);
    assert Rank(ids[0].t) <= Rank(rest[j].t) == Rank(bound.t);
  }

  lemma {:induction false} NoneBelowFirst(ids: seq<Id>, lower: Id, upper: Id)
    requires Sorted(ids) && lower.Valid() && upper.Valid()
    requires forall id | id in ids :: Below(upper, id)
    ensures CountIn(ids, lower, upper) == 0
  {
    if ids != [] {
      assert ids[0] in ids;
      NoneBelowFirst(ids[1..], lower, upper);
    }
  }

  /** Between two successive bounds lie exactly the wanted number of documents, of all types. */
  lemma {:induction false} StepHoldsExactly(ids: seq<Id>, lower: Id, n: nat)
    requires Sorted(ids) && lower.Valid() && n >= 1
    ensures var upper := FindNextIDBoundary(ids, lower, Some(n));
      upper.Some? ==> upper.value in ids && upper.value.Valid() && CountIn(ids, lower, upper.value) == n && Above(lower, upper.value)
  {
    var found := Candidates(ids, lower);
    if |found| >= n {
      CandidateAt(ids, lower, n - 1);
      CandidatesInOrder(ids, lower, n - 1);
    }
  }

  lemma WalkStep(ids: seq<Id>, lower: Id, n: Option<nat>, k: nat)
    requires (n.Some? ==> n.value >= 1) && k > 0
    ensures FindNextIDBoundary(ids, lower, n).None? ==> WalkFrom(ids, lower, n, k) == Walk([], true)
    ensures FindNextIDBoundary(ids, lower, n).Some? ==>
      var upper := FindNextIDBoundary(ids, lower, n).value;
      var rest := WalkFrom(ids, upper, n, k - 1);
      WalkFrom(ids, lower, n, k) == Walk([upper] + rest.bounds, rest.ended)
  {
  }

  lemma {:induction false} RisingMore(lower: Id, upper: Id, bounds: seq<Id>)
    requires lower.Valid() && upper.Valid() && AtMost(lower, upper) && Rising(upper, bounds)
    ensures Rising(lower, [upper] + bounds)
  {
    assert ([upper] + bounds)[1..] == bounds;
  }

  lemma AboveIsAtLeast(lower: Id, id: Id)
    requires lower.Valid() && id.Valid() && Above(lower, id)
    ensures AtMost(lower, id)
  {
    LowestIsMinKey(lower, id);
  }

  lemma {:induction false} WalkRises(ids: seq<Id>, lower: Id, n: Option<nat>, k: nat)
    requires Sorted(ids) && lower.Valid() && (n.Some? ==> n.value >= 1)
    ensures Rising(lower, WalkFrom(ids, lower, n, k).bounds)
    decreases k
  {
    if k > 0 {
      WalkStep(ids, lower, n, k);
      var upper := FindNextIDBoundary(ids, lower, n);
      if upper.Some? {
        StepIsAtLeast(ids, lower, n.value);
        WalkRises(ids, upper.value, n, k - 1);
        RisingMore(lower, upper.value, WalkFrom(ids, upper.value, n, k - 1).bounds);
      }
    }
  }

  lemma {:induction false} StepIsAtLeast(ids: seq<Id>, lower: Id, n: nat)
    requires Sorted(ids) && lower.Valid() && n >= 1
    ensures var upper := FindNextIDBoundary(ids, lower, Some(n));
      upper.Some? ==> upper.value.Valid() && AtMost(lower, upper.value)
  {
    StepHoldsExactly(ids, lower, n);
    var upper := FindNextIDBoundary(ids, lower, Some(n));
    if upper.Some? {
      AboveIsAtLeast(lower, upper.value);
    }
  }

  /** The bound that a walk starts its step `i` from. */
  function BoundBefore(lower: Id, bounds: seq<Id>, i: nat): Id
    requires i <= |bounds|
  {
    if i == 0 then lower else bounds[i - 1]
  }

  /** Every interval of a walk holds exactly the wanted number of documents, however many steps
      the walk takes. */
  lemma {:induction false} WalkIntervals(ids: seq<Id>, lower: Id, n: nat, k: nat, i: nat)
    requires Sorted(ids) && lower.Valid() && n >= 1 && i < |WalkFrom(ids, lower, Some(n), k).bounds|
    ensures var bounds := WalkFrom(ids, lower, Some(n), k).bounds;
      CountIn(ids, BoundBefore(lower, bounds, i), bounds[i]) == n
    decreases k
  {
    FirstOrLaterBound(ids, lower, n, k, i);
    if i == 0 {
      StepHoldsExactly(ids, lower, n);
    } else {
      StepIsAtLeast(ids, lower, n);
      WalkIntervals(ids, FindNextIDBoundary(ids, lower, Some(n)).value, n, k - 1, i - 1);
    }
  }

  /** The first bound of a walk is that of its first step; the others are those of the walk from there. */
  lemma {:induction false} FirstOrLaterBound(ids: seq<Id>, lower: Id, n: nat, k: nat, i: nat)
    requires n >= 1 && i < |WalkFrom(ids, lower, Some(n), k).bounds|
    ensures k > 0 && FindNextIDBoundary(ids, lower, Some(n)).Some?
    ensures var upper := FindNextIDBoundary(ids, lower, Some(n)).value;
      var bounds, later := WalkFrom(ids, lower, Some(n), k).bounds, WalkFrom(ids, upper, Some(n), k - 1).bounds;
      if i == 0 then bounds[0] == upper
      else i - 1 < |later| && bounds[i] == later[i - 1] && BoundBefore(lower, bounds, i) == BoundBefore(upper, later, i - 1)
  {
    WalkStep(ids, lower, Some(n), k);
  }

  // ---- Whether the walk ends -------------------------------------------------------------

  /** The walk that finds the same bound for ever: one document a partition, from MinKey, in a
      collection whose first `_id` is MinKey. */
  predicate Stuck(ids: seq<Id>, lower: Id, n: Option<nat>) {
    lower.t == MinKey && n == Some(1) && ids != [] && ids[0].t == MinKey
  }

  function CountAbove(ids: seq<Id>, lower: Id): nat {
    if ids == [] then 0 else (if Below(lower, ids[0]) then 1 else 0) + CountAbove(ids[1..], lower)
  }

  lemma {:induction false} FewerAbove(ids: seq<Id>, lower: Id, upper: Id)
    requires Sorted(ids) && lower.Valid() && upper.Valid() && Below(lower, upper)
    ensures CountAbove(ids, upper) <= CountAbove(ids, lower)
    ensures upper in ids ==> CountAbove(ids, upper) < CountAbove(ids, lower)
  {
    if ids != [] {
      FewerAbove(ids[1..], lower, upper);
    }
  }

  /** A step from a bound that is not stuck goes strictly up. */
  lemma StepGoesUp(ids: seq<Id>, lower: Id, n: nat)
    requires Sorted(ids) && lower.Valid() && n >= 1 && !Stuck(ids, lower, Some(n))
    ensures var upper := FindNextIDBoundary(ids, lower, Some(n));
      upper.Some? ==> Below(lower, upper.value) && upper.value in ids && !Stuck(ids, upper.value, Some(n))
  {
    StepHoldsExactly(ids, lower, n);
    var upper := FindNextIDBoundary(ids, lower, Some(n));
    if upper.Some? && lower.t == MinKey {
      AllCandidates(ids, lower);
      assert upper.value == ids[n - 1];
      LowestIsMinKey(lower, upper.value);
      LowestIsMinKey(upper.value, lower);
      if upper.value.t == MinKey && n > 1 {
        assert Below(ids[0], ids[n - 1]);
        LowestIsMinKey(upper.value, ids[0]);
      }
    }
  }

  /** So a walk that does not start stuck has strictly rising bounds. */
  lemma {:induction false} WalkRisesStrictly(ids: seq<Id>, lower: Id, n: nat, k: nat, i: nat)
    requires Sorted(ids) && lower.Valid() && n >= 1 && !Stuck(ids, lower, Some(n))
    requires i < |WalkFrom(ids, lower, Some(n), k).bounds|
    ensures var bounds := WalkFrom(ids, lower, Some(n), k).bounds; Below(BoundBefore(lower, bounds, i), bounds[i])
    decreases k
  {
    FirstOrLaterBound(ids, lower, n, k, i);
    StepGoesUp(ids, lower, n);
    if i > 0 {
      StepIsAtLeast(ids, lower, n);
      WalkRisesStrictly(ids, FindNextIDBoundary(ids, lower, Some(n)).value, n, k - 1, i - 1);
    }
  }

  lemma {:induction false} AllCandidates(ids: seq<Id>, lower: Id)
    requires Sorted(ids) && lower.Valid() && lower.t == MinKey
    ensures Candidates(ids, lower) == ids
  {
    if ids != [] {
      AllCandidates(ids[1..], lower);
    }
  }

  /** On a fixed collection the walk ends within one step per document and one more, unless it
      is stuck; and if it is stuck it never ends, however long it runs. */
  lemma {:induction false} WalkEndsIffNotStuck(ids: seq<Id>, lower: Id, n: Option<nat>, k: nat)
    requires Sorted(ids) && lower.Valid() && (n.Some? ==> n.value >= 1)
    ensures !Stuck(ids, lower, n) && k > CountAbove(ids, lower) ==> WalkFrom(ids, lower, n, k).ended
    ensures Stuck(ids, lower, n) ==> !WalkFrom(ids, lower, n, k).ended
  {
    if Stuck(ids, lower, n) {
      StuckForEver(ids, lower, n, k);
    } else if k > CountAbove(ids, lower) {
      WalkEnds(ids, lower, n, k);
    }
  }

  lemma {:induction false} WalkEnds(ids: seq<Id>, lower: Id, n: Option<nat>, k: nat)
    requires Sorted(ids) && lower.Valid() && (n.Some? ==> n.value >= 1)
    requires !Stuck(ids, lower, n) && k > CountAbove(ids, lower)
    ensures WalkFrom(ids, lower, n, k).ended
    decreases k
  {
    WalkStep(ids, lower, n, k);
    if n.Some? {
      StepGoesUp(ids, lower, n.value);
      var upper := FindNextIDBoundary(ids, lower, n);
      if upper.Some? {
        FewerAbove(ids, lower, upper.value);
        WalkEnds(ids, upper.value, n, k - 1);
      }
    }
  }

  lemma {:induction false} StuckForEver(ids: seq<Id>, lower: Id, n: Option<nat>, k: nat)
    requires Sorted(ids) && lower.Valid() && Stuck(ids, lower, n)
    ensures !WalkFrom(ids, lower, n, k).ended
    decreases k
  {
    if k > 0 {
      AllCandidates(ids, lower);
      StuckForEver(ids, ids[0], n, k - 1);
    }
  }

  /** For instance: a collection whose only `_id` is MinKey, with one document a partition. */
  lemma {:induction false} MinKeyIsWalkedForEver(k: nat)
    ensures !WalkFrom([Id(MinKey, 0.0)], Id(MinKey, 0.0), Some(1), k).ended
  {
    WalkEndsIffNotStuck([Id(MinKey, 0.0)], Id(MinKey, 0.0), Some(1), k);
  }

  // ---- When there is a next bound --------------------------------------------------------

  lemma {:induction false} QueriedIsCandidate(ids: seq<Id>, bound: Id, u: Id) returns (j: nat)
    requires Sorted(ids) && u in ids && Queried(bound, u)
    ensures j < |Candidates(ids, bound)| && Candidates(ids, bound)[j] == u
  {
    if u == ids[0] {
      j := 0;
    } else {
      j := QueriedIsCandidate(ids[1..], bound, u);
      if Queried(bound, ids[0]) {
        j := j + 1;
      }
    }
  }

  /** A step finds a bound if and only if there is an `_id` that its query sees, above the last
      bound and, unless that is MinKey, in its bracket, up to which there are at least as many
      documents as wanted. */
  lemma {:induction false} StepFindsIff(ids: seq<Id>, lower: Id, n: nat)
    requires Sorted(ids) && lower.Valid() && n >= 1
    ensures FindNextIDBoundary(ids, lower, Some(n)).Some? <==>
      exists u :: u in ids && (lower.t == MinKey || (Rank(lower.t) == Rank(u.t) && Below(lower, u)))
                  && CountIn(ids, lower, u) >= n
  {
    if FindNextIDBoundary(ids, lower, Some(n)).Some? {
      StepHoldsExactly(ids, lower, n);
      CandidateAt(ids, lower, n - 1);
      var u := Candidates(ids, lower)[n - 1];
      assert u in ids && Queried(lower, u) && CountIn(ids, lower, u) >= n;
    } else if u :| u in ids && Queried(lower, u) && CountIn(ids, lower, u) >= n {
      var j := QueriedIsCandidate(ids, lower, u);
      CandidatesInOrder(ids, lower, j);
    }
  }
}
