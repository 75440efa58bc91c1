/** Cutting a list of values into groups whose arrays barely reach a size. */
module ArraySplit {
  import opened Bson
  import opened BsonSizes

  /** The group would be below the size without its last value. */
  predicate Minimal(group: seq<RawValue>, softMaxSize: nat) {
    group != [] && (|group| > 1 ==> ArrayLen(group[..|group| - 1]) < softMaxSize)
  }

  /** Groups that reach the size, and would not without their last values. */
  predicate FullGroups(groups: seq<seq<RawValue>>, softMaxSize: nat) {
    forall i | 0 <= i < |groups| :: Minimal(groups[i], softMaxSize) && ArrayLen(groups[i]) >= softMaxSize
  }

  /** The values in order, all groups full but perhaps the last. */
  predicate IsSplit(groups: seq<seq<RawValue>>, ids: seq<RawValue>, softMaxSize: nat) {
    && Concat(groups) == ids
    && (groups != [] ==>
          && FullGroups(groups[..|groups| - 1], softMaxSize)
          && Minimal(groups[|groups| - 1], softMaxSize))
  }

  predicate Splitting(groups: seq<seq<RawValue>>, curGroup: seq<RawValue>, ids: seq<RawValue>, softMaxSize: nat) {
    && Concat(groups) + curGroup == ids
    && FullGroups(groups, softMaxSize)
    && (curGroup != [] ==> Minimal(curGroup, softMaxSize) && ArrayLen(curGroup) < softMaxSize)
  }

  lemma {:induction false} OneMoreGroup(groups: seq<seq<RawValue>>, group: seq<RawValue>)
    ensures Concat(groups + [group]) == Concat(groups) + group
  {
    assert (groups + [group])[..|groups|] == groups;
  }

  /** The last value of a group that was below the size makes the group minimal. */
  lemma StaysMinimal(curGroup: seq<RawValue>, id: RawValue, softMaxSize: nat)
    requires curGroup != [] ==> ArrayLen(curGroup) < softMaxSize
    ensures Minimal(curGroup + [id], softMaxSize)
  {
    assert (curGroup + [id])[..|curGroup|] == curGroup;
  }

  /** One more value does not bring the group to the size: it goes on. */
  lemma GroupGoesOn(groups: seq<seq<RawValue>>, curGroup: seq<RawValue>, ids: seq<RawValue>, id: RawValue, softMaxSize: nat)
    requires Splitting(groups, curGroup, ids, softMaxSize) && ArrayLen(curGroup + [id]) < softMaxSize
    ensures Splitting(groups, curGroup + [id], ids + [id], softMaxSize)
  {
    StaysMinimal(curGroup, id, softMaxSize);
    assert Concat(groups) + (curGroup + [id]) == Concat(groups) + curGroup + [id];
  }

  /** It does: the group ends. */
  lemma GroupEnds(groups: seq<seq<RawValue>>, curGroup: seq<RawValue>, ids: seq<RawValue>, id: RawValue, softMaxSize: nat)
    requires Splitting(groups, curGroup, ids, softMaxSize) && ArrayLen(curGroup + [id]) >= softMaxSize
    ensures Splitting(groups + [curGroup + [id]], [], ids + [id], softMaxSize)
  {
    var group := curGroup + [id];
    StaysMinimal(curGroup, id, softMaxSize);
    OneMoreGroup(groups, group);
    assert Concat(groups + [group]) + [] == Concat(groups) + group == ids + [id];
    OneMoreFull(groups, group, softMaxSize);
  }

  lemma OneMoreFull(groups: seq<seq<RawValue>>, group: seq<RawValue>, softMaxSize: nat)
    requires FullGroups(groups, softMaxSize) && Minimal(group, softMaxSize) && ArrayLen(group) >= softMaxSize
    ensures FullGroups(groups + [group], softMaxSize)
  {
  }

  lemma OneMoreValue(groups: seq<seq<RawValue>>, curGroup: seq<RawValue>, ids: seq<RawValue>, i: nat, softMaxSize: nat)
    requires i < |ids| && Splitting(groups, curGroup, ids[..i], softMaxSize)
    ensures var group := curGroup + [ids[i]];
      if ArrayLen(group) >= softMaxSize then Splitting(groups + [group], [], ids[..i + 1], softMaxSize)
      else Splitting(groups, group, ids[..i + 1], softMaxSize)
  {
    assert ids[..i + 1] == ids[..i] + [ids[i]];
    if ArrayLen(curGroup + [ids[i]]) >= softMaxSize {
      GroupEnds(groups, curGroup, ids[..i], ids[i], softMaxSize);
    } else {
      GroupGoesOn(groups, curGroup, ids[..i], ids[i], softMaxSize);
    }
  }

  lemma Finish(groups: seq<seq<RawValue>>, curGroup: seq<RawValue>, ids: seq<RawValue>, softMaxSize: nat)
    requires Splitting(groups, curGroup, ids, softMaxSize)
    ensures IsSplit(if curGroup == [] then groups else groups + [curGroup], ids, softMaxSize)
  {
    if curGroup == [] {
      assert Concat(groups) + [] == Concat(groups);
    } else {
      OneMoreGroup(groups, curGroup);
      assert (groups + [curGroup])[..|groups|] == groups;
    }
  }

  /** Groups the values so that each group exceeds the size by as little as can be. */
  method SplitArrayByBSONMaxSize(ids: seq<RawValue>, softMaxSize: nat) returns (groups: seq<seq<RawValue>>)
    ensures IsSplit(groups, ids, softMaxSize)
  {
    groups := [];
    var sizer := new BSONArraySizer();
    var curGroup: seq<RawValue> := [];
    for i := 0 to |ids|
      invariant sizer.Valid() && fresh(sizer) && sizer.Added == curGroup
      invariant Splitting(groups, curGroup, ids[..i], softMaxSize)
    {
      OneMoreValue(groups, curGroup, ids, i, softMaxSize);
      curGroup := curGroup + [ids[i]];
      sizer.Add(ids[i]);
      var size := sizer.Len();
      if size >= softMaxSize {
        groups, curGroup := groups + [curGroup], [];
        sizer := new BSONArraySizer();
      }
    }
    assert ids[..|ids|] == ids;
    Finish(groups, curGroup, ids, softMaxSize);
    if |curGroup| > 0 {
      groups := groups + [curGroup];
    }
  }
}
