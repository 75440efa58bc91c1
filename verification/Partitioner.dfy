/** Creating a collection's partitions: by walking the index, or from a sampling cursor. */
module Partitioner {
  import opened Bson
  import opened IdOrder
  import opened IdFilterResults
  import opened PartitionChain
  import opened IndexWalk

  class PartitionTasks {
    /** The partitions of the collection's stored tasks, in the order of their insertion. */
    var stored: seq<Partition>

    constructor ()
      ensures stored == []
    {
      stored := [];
    }

    /** Stores the partition up to the next bound. */
    method CreateAndInsertPartition(lower: Id, upper: Id, ghost before: seq<Partition>, ghost start: Id, ghost bounds: seq<Id>)
      requires Placed(stored, before, start, bounds, lower)
      modifies this
      ensures Placed(stored, before, start, bounds + [upper], upper)
    {
      PiecesAppend(start, bounds, upper);
      stored := stored + [Partition(lower, upper)];
    }

    /** Stores the last partition, open above. */
    method CreateLastPartition(lower: Id, ghost before: seq<Partition>, ghost start: Id, ghost bounds: seq<Id>)
      requires Placed(stored, before, start, bounds, lower)
      modifies this
      ensures stored == After(before, start, bounds, true)
    {
      stored := stored + [Partition(lower, MAX)];
    }

    /** The loop of the index walk: up to the end of the walk or the last insert that succeeds. */
    method InsertWalked(ids: seq<Id>, start: Id, docsPerPartition: Option<nat>, inserts: nat)
      returns (ended: bool, partitionsCount: nat, lower: Id, ghost bounds: seq<Id>)
      requires docsPerPartition.Some? ==> docsPerPartition.value >= 1
      modifies this
      ensures Placed(stored, old(stored), start, bounds, lower) && partitionsCount == |bounds| <= inserts
      ensures WentSoFar(WalkFrom(ids, start, docsPerPartition, inserts + 1), bounds, ended, inserts)
    {
      lower, partitionsCount, bounds := start, 0, [];
      ghost var walk, before := WalkFrom(ids, start, docsPerPartition, inserts + 1), stored;
      ended := false;
      var more := true;
      while more
        invariant partitionsCount == |bounds| <= inserts
        invariant Placed(stored, before, start, bounds, lower)
        invariant if more then OnWay(walk, bounds, WalkFrom(ids, lower, docsPerPartition, inserts + 1 - |bounds|))
          else WentSoFar(walk, bounds, ended, inserts)
        decreases inserts - partitionsCount, more
      {
        var next;
        next, more, ended := InsertNext(ids, lower, docsPerPartition, inserts, partitionsCount, before, start, walk, bounds);
        if more {
          bounds := bounds + [next];
          partitionsCount, lower := partitionsCount + 1, next;
        }
      }
    }

    /** One turn of the loop: the partition up to the next bound, if the walk goes on and the insert
        succeeds. */
    method InsertNext(ids: seq<Id>, lower: Id, docsPerPartition: Option<nat>, inserts: nat, partitionsCount: nat,
                      ghost before: seq<Partition>, ghost start: Id, ghost walk: Walk, ghost bounds: seq<Id>)
      returns (next: Id, more: bool, ended: bool)
      requires docsPerPartition.Some? ==> docsPerPartition.value >= 1
      requires partitionsCount == |bounds| <= inserts && Placed(stored, before, start, bounds, lower)
      requires OnWay(walk, bounds, WalkFrom(ids, lower, docsPerPartition, inserts + 1 - |bounds|))
      modifies this
      ensures more ==>
        && |bounds| < inserts && Placed(stored, before, start, bounds + [next], next)
        && OnWay(walk, bounds + [next], WalkFrom(ids, next, docsPerPartition, inserts - |bounds|))
      ensures !more ==> stored == old(stored) && WentSoFar(walk, bounds, ended, inserts)
    {
      var upper := NextBound(ids, lower, docsPerPartition, inserts - partitionsCount, walk, bounds);
      if upper.None? {
        return lower, false, true;
      }
      if partitionsCount == inserts {
        return lower, false, false;
      }
      CreateAndInsertPartition(lower, upper.value, before, start, bounds);
      return upper.value, true, false;
    }

    /** One query of the walk, and where it leaves the walk. */
    method NextBound(ids: seq<Id>, lower: Id, docsPerPartition: Option<nat>, ghost left: nat, ghost walk: Walk,
                     ghost bounds: seq<Id>) returns (upper: Option<Id>)
      requires docsPerPartition.Some? ==> docsPerPartition.value >= 1
      requires OnWay(walk, bounds, WalkFrom(ids, lower, docsPerPartition, left + 1))
      ensures upper.None? ==> walk == Walk(bounds, true)
      ensures upper.Some? ==>
        && OnWay(walk, bounds + [upper.value], WalkFrom(ids, upper.value, docsPerPartition, left))
        && bounds <= walk.bounds && |walk.bounds| > |bounds|
    {
      OnWayStep(ids, lower, docsPerPartition, left + 1, walk, bounds);
      upper := FindNextIDBoundary(ids, lower, docsPerPartition);
    }

    /** One attempt at walking the index from the latest upper bound. `inserts` is how many
        inserts succeed before one fails; a failure ends the attempt with an error, None. */
    method CreateWithIndexWalk(ids: seq<Id>, latest: Option<Id>, docsPerPartition: Option<nat>, inserts: nat)
      returns (count: Option<nat>, ghost a: Attempt)
      requires IsLatest(stored, latest) && Start(latest).Valid() && Sorted(ids)
      requires docsPerPartition.Some? ==> docsPerPartition.value >= 1
      modifies this
      ensures Possible(old(stored), a) && a.latest == latest
      ensures stored == After(old(stored), Start(latest), a.bounds, a.complete)
      ensures Result(WalkFrom(ids, Start(latest), docsPerPartition, inserts + 1), inserts, a, count)
    {
      var complete;
      ghost var bounds;
      count, complete, bounds := WalkFromBound(ids, Start(latest), docsPerPartition, inserts);
      a := Attempt(latest, bounds, complete);
    }

    method WalkFromBound(ids: seq<Id>, start: Id, docsPerPartition: Option<nat>, inserts: nat)
      returns (count: Option<nat>, complete: bool, ghost bounds: seq<Id>)
      requires start.Valid() && Sorted(ids)
      requires docsPerPartition.Some? ==> docsPerPartition.value >= 1
      modifies this
      ensures Rising(start, bounds) && stored == After(old(stored), start, bounds, complete)
      ensures ResultOf(WalkFrom(ids, start, docsPerPartition, inserts + 1), inserts, bounds, complete, count)
    {
      var ended, partitionsCount, lower;
      ended, partitionsCount, lower, bounds := InsertWalked(ids, start, docsPerPartition, inserts);
      RisingIfSoFar(ids, start, docsPerPartition, inserts, bounds, ended);
      if !ended || partitionsCount == inserts {
        NotComplete(old(stored), start, bounds);
        return None, false, bounds;
      }
      CreateLastPartition(lower, old(stored), start, bounds);
      return Some(partitionsCount + 1), true, bounds;
    }

    /** The loop over a sampling cursor, up to its end or the last insert that succeeds. */
    method InsertSampled(samples: seq<Id>, start: Id, inserts: nat)
      returns (partitionsCount: nat, lower: Id, ghost bounds: seq<Id>)
      modifies this
      ensures partitionsCount == if inserts < |samples| then inserts else |samples|
      ensures bounds == samples[..partitionsCount] && Placed(stored, old(stored), start, bounds, lower)
    {
      partitionsCount, lower, bounds := 0, start, [];
      while partitionsCount < |samples| && partitionsCount < inserts
        invariant partitionsCount <= |samples| && partitionsCount <= inserts
        invariant bounds == samples[..partitionsCount]
        invariant Placed(stored, old(stored), start, bounds, lower)
      {
        var upper := samples[partitionsCount];
        CreateAndInsertPartition(lower, upper, old(stored), start, bounds);
        bounds := bounds + [upper];
        partitionsCount, lower := partitionsCount + 1, upper;
      }
    }

    /** One attempt with a sampling cursor that yields `samples` and then ends or fails. A
        failed cursor is noticed, but the error then wrapped is that of another variable, which
        is nil: the partitioner returns a count of zero and no error, without the last partition. */
    method CreateWithSampleRate(samples: seq<Id>, cursorFails: bool, latest: Option<Id>, inserts: nat)
      returns (count: Option<nat>, ghost a: Attempt)
      requires IsLatest(stored, latest) && Start(latest).Valid() && Rising(Start(latest), samples)
      modifies this
      ensures a.latest == latest && a.bounds <= samples
      ensures stored == After(old(stored), Start(latest), a.bounds, a.complete)
      ensures if inserts < |samples| then count.None? && !a.complete && |a.bounds| == inserts
        else if cursorFails then count == Some(0) && !a.complete && a.bounds == samples
        else if inserts == |samples| then count.None? && !a.complete && a.bounds == samples
        else count == Some(|samples| + 1) && a.complete && a.bounds == samples
    {
      var partitionsCount, lower;
      ghost var bounds;
      partitionsCount, lower, bounds := InsertSampled(samples, Start(latest), inserts);
      NotComplete(old(stored), Start(latest), bounds);
      if partitionsCount < |samples| {
        return None, Attempt(latest, bounds, false);
      }
      if cursorFails {
        return Some(0), Attempt(latest, bounds, false);
      }
      if partitionsCount == inserts {
        return None, Attempt(latest, bounds, false);
      }
      CreateLastPartition(lower, old(stored), Start(latest), bounds);
      return Some(partitionsCount + 1), Attempt(latest, bounds, true);
    }
  }

  /** What is stored once an attempt has come to `lower`. */
  ghost predicate Placed(stored: seq<Partition>, before: seq<Partition>, start: Id, bounds: seq<Id>, lower: Id) {
    stored == before + Pieces(start, bounds) && lower == LastBound(start, bounds)
  }

  lemma {:induction false} NotComplete(before: seq<Partition>, start: Id, bounds: seq<Id>)
    ensures After(before, start, bounds, false) == before + Pieces(start, bounds)
  {
  }

  /** The bounds passed and those still ahead make up the whole walk. */
  ghost predicate OnWay(walk: Walk, bounds: seq<Id>, ahead: Walk) {
    walk == Walk(bounds + ahead.bounds, ahead.ended)
  }

  /** How far the inserts got along a walk: to its end, or to where they gave out. */
  ghost predicate WentSoFar(walk: Walk, bounds: seq<Id>, ended: bool, inserts: nat) {
    if ended then walk == Walk(bounds, true)
    else |bounds| == inserts && bounds <= walk.bounds && |walk.bounds| > inserts
  }

  /** What an attempt comes to: complete, with a count of partitions, if the walk ends and the
      last partition can still be inserted; otherwise an error after the inserts there were. */
  ghost predicate Result(walk: Walk, inserts: nat, a: Attempt, count: Option<nat>) {
    ResultOf(walk, inserts, a.bounds, a.complete, count)
  }

  ghost predicate ResultOf(walk: Walk, inserts: nat, bounds: seq<Id>, complete: bool, count: Option<nat>) {
    if walk.ended && |walk.bounds| < inserts then
      complete && bounds == walk.bounds && count == Some(|walk.bounds| + 1)
    else !complete && |bounds| == inserts && bounds <= walk.bounds && count.None?
  }

  lemma OnWayStep(ids: seq<Id>, lower: Id, n: Option<nat>, k: nat, walk: Walk, bounds: seq<Id>)
    requires (n.Some? ==> n.value >= 1) && k > 0
    requires OnWay(walk, bounds, WalkFrom(ids, lower, n, k))
    ensures var next := FindNextIDBoundary(ids, lower, n);
      if next.None? then walk == Walk(bounds, true)
      else
        && OnWay(walk, bounds + [next.value], WalkFrom(ids, next.value, n, k - 1))
        && bounds <= walk.bounds && |walk.bounds| > |bounds|
  {
    WalkStep(ids, lower, n, k);
    var next := FindNextIDBoundary(ids, lower, n);
    if next.None? {
      assert bounds + [] == bounds;
    } else {
      NextMoves(bounds, next.value, WalkFrom(ids, next.value, n, k - 1).bounds);
    }
  }

  lemma NextMoves(bounds: seq<Id>, next: Id, ahead: seq<Id>)
    ensures bounds + ([next] + ahead) == bounds + [next] + ahead
  {
  }

  lemma {:induction false} PiecesAppend(lower: Id, bounds: seq<Id>, upper: Id)
    ensures Pieces(lower, bounds + [upper]) == Pieces(lower, bounds) + [Partition(LastBound(lower, bounds), upper)]
    decreases |bounds|
  {
    if bounds == [] {
      assert ([] + [upper])[1..] == [];
    } else {
      PiecesAppend(bounds[0], bounds[1..], upper);
      assert (bounds + [upper])[1..] == bounds[1..] + [upper];
    }
  }

  lemma {:induction false} PrefixRises(lower: Id, bounds: seq<Id>, n: nat)
    requires lower.Valid() && Rising(lower, bounds) && n <= |bounds|
    ensures Rising(lower, bounds[..n])
    decreases n
  {
    if n > 0 {
      PrefixRises(bounds[0], bounds[1..], n - 1);
      assert bounds[..n][1..] == bounds[1..][..n - 1];
    }
  }

  lemma RisingIfSoFar(ids: seq<Id>, lower: Id, n: Option<nat>, inserts: nat, bounds: seq<Id>, ended: bool)
    requires Sorted(ids) && lower.Valid() && (n.Some? ==> n.value >= 1)
    requires WentSoFar(WalkFrom(ids, lower, n, inserts + 1), bounds, ended, inserts)
    ensures Rising(lower, bounds)
  {
    WalkRises(ids, lower, n, inserts + 1);
    PrefixRises(lower, WalkFrom(ids, lower, n, inserts + 1).bounds, |bounds|);
    assert WalkFrom(ids, lower, n, inserts + 1).bounds[..|bounds|] == bounds;
  }

  ghost predicate CoversAll(parts: seq<Partition>)
    requires Chain(parts)
  {
    forall id: Id | id.Valid() :: Covers(parts, id)
  }

  /** An attempt with a sampling cursor that returns no error covers every `_id` exactly if the
      cursor did not fail, or if it had come as far as MaxKey. */
  lemma {:induction false} SampledPartitionsCoverIff(parts: seq<Partition>, latest: Option<Id>, samples: seq<Id>, cursorFails: bool)
    requires Chain(parts) && IsLatest(parts, latest) && Start(latest).Valid() && Rising(Start(latest), samples)
    ensures var r := After(parts, Start(latest), samples, !cursorFails);
      && Chain(r)
      && (CoversAll(r) <==> !cursorFails || SamePlace(LastBound(Start(latest), samples), MAX))
  {
    if cursorFails {
      FailedPartitionsCoverIff(parts, latest, samples);
    } else {
      OneMoreAttempt(parts, Attempt(latest, samples, true));
      ReachesAll(After(parts, Start(latest), samples, true));
    }
  }

  lemma {:induction false} FailedPartitionsCoverIff(parts: seq<Partition>, latest: Option<Id>, samples: seq<Id>)
    requires Chain(parts) && IsLatest(parts, latest) && Start(latest).Valid() && Rising(Start(latest), samples)
    ensures var r := After(parts, Start(latest), samples, false);
      Chain(r) && (CoversAll(r) <==> SamePlace(LastBound(Start(latest), samples), MAX))
  {
    LastOfAttempt(parts, latest, samples);
    CoversAllIff(After(parts, Start(latest), samples, false), LastBound(Start(latest), samples));
  }

  lemma {:induction false} CoversAllIff(r: seq<Partition>, last: Id)
    requires Chain(r) && Continues(r, last)
    ensures CoversAll(r) <==> SamePlace(last, MAX)
  {
    LowestIsMinKey(MIN, MAX);
    if SamePlace(last, MAX) {
      ReachesAll(r);
    } else {
      StopsShort(r, last);
    }
  }

  lemma ReachesAll(r: seq<Partition>)
    requires Chain(r) && r != [] && SamePlace(r[|r| - 1].upper, MAX)
    ensures CoversAll(r)
  {
    forall id: Id | id.Valid() ensures Covers(r, id) {
      ChainCoversAll(r, id);
    }
  }

  lemma StopsShort(r: seq<Partition>, last: Id)
    requires Chain(r) && last.Valid() && !SamePlace(last, MAX)
    requires r == [] || SamePlace(r[|r| - 1].upper, last)
    ensures !CoversAll(r)
  {
    MaxUncovered(r, last, MAX);
  }

  lemma MaxUncovered(r: seq<Partition>, last: Id, max: Id)
    requires Chain(r) && last.Valid() && !SamePlace(last, MAX) && max == MAX
    requires r == [] || SamePlace(r[|r| - 1].upper, last)
    ensures max.Valid() && !Covers(r, max)
  {
    forall i | 0 <= i < |r| ensures !InRange(r[i].lower, r[i].upper, max) {
      if InRange(r[i].lower, r[i].upper, max) { MaxIsLast(r, i); }
    }
  }

  /** Where the stored chain ends after the bounds of an attempt. */
  lemma {:induction false} LastOfAttempt(parts: seq<Partition>, latest: Option<Id>, bounds: seq<Id>)
    requires Chain(parts) && IsLatest(parts, latest) && Start(latest).Valid() && Rising(Start(latest), bounds)
    ensures var r, last := After(parts, Start(latest), bounds, false), LastBound(Start(latest), bounds);
      Chain(r) && Continues(r, last)
  {
    if parts != [] { LatestIsLast(parts, latest); }
    PiecesChain(parts, Start(latest), bounds);
    var all := parts + Pieces(Start(latest), bounds);
    assert all + [] == all;
  }

  /** For instance: a cursor that fails before its first sample leaves nothing covered. */
  lemma FailedCursorCoversNothing()
    ensures IsLatest([], None) && Chain([]) && Rising(Start(None), [])
    ensures Chain(After([], Start(None), [], false)) && !CoversAll(After([], Start(None), [], false))
  {
    var none: seq<Partition> := [];
    assert IsLatest(none, None);
    SampledPartitionsCoverIff(none, None, [], true);
    LowestIsMinKey(MIN, MAX);
  }
}
