/** What the forms of an `_id` filter select, compared with the total order. */
module IdFilterResults {
  import opened Bson
  import opened IdOrder
  import opened IdFilters

  /** The range that a filter is for: bounds included, all types compared. */
  predicate InRange(lower: Id, upper: Id, id: Id) {
    AtMost(lower, id) && AtMost(id, upper)
  }

  lemma ExprSelectsRange(lower: Id, upper: Id, id: Id)
    requires lower.Valid() && upper.Valid() && id.Valid()
    ensures Selects(GetExprPredicates(lower, upper), id) <==> InRange(lower, upper, id)
  {
    var ps := GetExprPredicates(lower, upper);
    assert Matches(ps[0], id) == AtMost(lower, id) && Matches(ps[1], id) == AtMost(id, upper);
  }

  /** The one `_id` that the explicit form loses: MinKey itself, below an upper bound above it. */
  predicate LosesMinKey(lower: Id, upper: Id, id: Id) {
    id.t == MinKey && lower.t == MinKey && upper.t != MinKey
  }

  lemma LowestIsMinKey(id: Id, other: Id)
    requires id.Valid() && other.Valid()
    ensures id.t == MinKey ==> AtMost(id, other)
    ensures id.t == MaxKey ==> AtMost(other, id)
    ensures Rank(id.t) == 0 <==> id.t == MinKey
    ensures Rank(id.t) == 17 <==> id.t == MaxKey
    ensures Rank(id.t) <= 17
  {
  }

  lemma {:induction false} OrOf(any: seq<Predicate>, id: Id)
    requires WellFormed(Or(any)) && id.Valid()
    ensures Selects([Or(any)], id) <==> exists i :: 0 <= i < |any| && Matches(any[i], id)
  {
    assert Matches([Or(any)][0], id) == Matches(Or(any), id);
  }

  /** Range predicates joined by "or" with types: any of them. */
  lemma {:induction false} OrWithTypes(predicates: seq<Predicate>, types: seq<BsonType>, id: Id)
    requires (forall p | p in predicates :: WellFormed(p)) && id.Valid()
    ensures WellFormed(Or(WithTypes(predicates, types)))
    ensures Selects([Or(WithTypes(predicates, types))], id) <==>
      id.t in types || exists i :: 0 <= i < |predicates| && Matches(predicates[i], id)
  {
    var any := WithTypes(predicates, types);
    OrOf(any, id);
    if types != [] {
      assert any[|predicates|] == TypeIn(types);
    }
    forall i | 0 <= i < |predicates| ensures any[i] == predicates[i] {
    }
  }

  lemma OpenUpper(lower: Id, upper: Id, id: Id)
    requires lower.Valid() && upper.Valid() && id.Valid() && upper.t == MaxKey
    ensures var r := GetExplicitTypeCheckPredicates(lower, upper);
      && r.Ok? && (forall p | p in r.value :: WellFormed(p))
      && (Selects(r.value, id) <==> InRange(lower, upper, id) && !LosesMinKey(lower, upper, id))
  {
    ExcludedTypesAreOtherBrackets(lower.t, id.t);
    LowestIsMinKey(upper, id);
    LowestIsMinKey(lower, id);
    LowestIsMinKey(id, lower);
    OrWithTypes(LowerPredicate(lower), TypeBracketExcludedTypes(lower.t).value.later, id);
    if lower.t != MinKey {
      assert LowerPredicate(lower)[0] == Gte(lower);
    }
  }

  lemma AndFormOf(lower: Id, upper: Id)
    requires lower.Valid() && upper.Valid() && upper.t != MaxKey && Rank(lower.t) == Rank(upper.t)
    ensures GetExplicitTypeCheckPredicates(lower, upper) == Ok(LowerPredicate(lower) + [Lte(upper)])
  {
    ExcludedTypesAreOtherBrackets(upper.t, lower.t);
    ExcludedTypesAreOtherBrackets(lower.t, lower.t);
  }

  lemma {:induction false} BothLimits(lower: Id, upper: Id, id: Id)
    requires lower.Valid() && upper.Valid() && id.Valid()
    ensures var both := LowerPredicate(lower) + [Lte(upper)];
      && (forall p | p in both :: WellFormed(p))
      && (Selects(both, id) <==> (lower.t == MinKey || Matches(Gte(lower), id)) && Matches(Lte(upper), id))
  {
    var both := LowerPredicate(lower) + [Lte(upper)];
    if lower.t == MinKey {
      assert both == [Lte(upper)];
      assert Selects(both, id) <==> Matches(both[0], id);
    } else {
      assert both == [Gte(lower), Lte(upper)];
      assert Selects(both, id) <==> Matches(both[0], id) && Matches(both[1], id);
    }
  }

  lemma SameBracket(lower: Id, upper: Id, id: Id)
    requires lower.Valid() && upper.Valid() && id.Valid() && upper.t != MaxKey && Rank(lower.t) == Rank(upper.t)
    ensures var r := GetExplicitTypeCheckPredicates(lower, upper);
      && r.Ok? && (forall p | p in r.value :: WellFormed(p))
      && (Selects(r.value, id) <==> InRange(lower, upper, id) && !LosesMinKey(lower, upper, id))
  {
    AndFormOf(lower, upper);
    BothLimits(lower, upper, id);
    LimitsMean(lower, upper, id);
  }

  lemma LimitsMean(lower: Id, upper: Id, id: Id)
    requires lower.Valid() && upper.Valid() && id.Valid() && upper.t != MaxKey && Rank(lower.t) == Rank(upper.t)
    ensures (lower.t == MinKey || Matches(Gte(lower), id)) && Matches(Lte(upper), id) <==>
      InRange(lower, upper, id) && !LosesMinKey(lower, upper, id)
  {
    LowestIsMinKey(lower, id);
    LowestIsMinKey(upper, id);
  }

  /** The types strictly between two bounds. */
  function Between(lower: BsonType, upper: BsonType): seq<BsonType>
    requires Position(lower).Some? && Position(upper).Some?
  {
    ExcludedTypesAreOtherBrackets(lower, lower);
    ExcludedTypesAreOtherBrackets(upper, upper);
    Intersect(TypeBracketExcludedTypes(lower).value.later, TypeBracketExcludedTypes(upper).value.earlier)
  }

  lemma BetweenIsBetween(lower: BsonType, upper: BsonType, t: BsonType)
    requires Position(lower).Some? && Position(upper).Some? && Position(t).Some?
    ensures t in Between(lower, upper) <==> Rank(lower) < Rank(t) < Rank(upper)
  {
    ExcludedTypesAreOtherBrackets(lower, t);
    ExcludedTypesAreOtherBrackets(upper, t);
  }

  lemma OrFormOf(lower: Id, upper: Id)
    requires lower.Valid() && upper.Valid() && upper.t != MaxKey && Rank(lower.t) < Rank(upper.t)
    ensures GetExplicitTypeCheckPredicates(lower, upper)
         == Ok([Or(WithTypes(LowerPredicate(lower) + [Lte(upper)], Between(lower.t, upper.t)))])
  {
    ExcludedTypesAreOtherBrackets(upper.t, lower.t);
    ExcludedTypesAreOtherBrackets(lower.t, lower.t);
  }

  lemma DifferentBrackets(lower: Id, upper: Id, id: Id)
    requires lower.Valid() && upper.Valid() && id.Valid() && upper.t != MaxKey && Rank(lower.t) < Rank(upper.t)
    ensures var r := GetExplicitTypeCheckPredicates(lower, upper);
      && r.Ok? && (forall p | p in r.value :: WellFormed(p))
      && (Selects(r.value, id) <==> InRange(lower, upper, id) && !LosesMinKey(lower, upper, id))
  {
    OrFormOf(lower, upper);
    BetweenIsBetween(lower.t, upper.t, id.t);
    LowestIsMinKey(lower, id);
    LowestIsMinKey(id, lower);
    EitherLimit(lower, upper, id);
    OrWithTypes(LowerPredicate(lower) + [Lte(upper)], Between(lower.t, upper.t), id);
  }

  lemma {:induction false} EitherLimit(lower: Id, upper: Id, id: Id)
    requires lower.Valid() && upper.Valid() && id.Valid()
    ensures var both := LowerPredicate(lower) + [Lte(upper)];
      && (forall p | p in both :: WellFormed(p))
      && ((exists i :: 0 <= i < |both| && Matches(both[i], id)) <==>
          (lower.t != MinKey && Matches(Gte(lower), id)) || Matches(Lte(upper), id))
  {
    var both := LowerPredicate(lower) + [Lte(upper)];
    if lower.t == MinKey {
      assert both == [Lte(upper)] && both[0] == Lte(upper);
    } else {
      assert both == [Gte(lower), Lte(upper)] && both[0] == Gte(lower) && both[1] == Lte(upper);
    }
  }

  /** The explicit type checks mean what the `$expr` form means, on every `_id` but one: with a
      MinKey lower bound and another upper bound they lose a document whose `_id` is MinKey. They
      fail exactly if the lower bound's type sorts after the upper bound's, and then no `_id` is
      in the range. */
  lemma ExplicitMeansExpr(lower: Id, upper: Id, id: Id)
    requires lower.Valid() && upper.Valid() && id.Valid()
    ensures var r := GetExplicitTypeCheckPredicates(lower, upper);
      && (r.Err? <==> Rank(lower.t) > Rank(upper.t))
      && (r.Err? ==> r.error == LowerSortsAfterUpper && !Selects(GetExprPredicates(lower, upper), id))
      && (r.Ok? ==> forall p | p in r.value :: WellFormed(p))
      && (r.Ok? ==> (Selects(r.value, id) <==>
            Selects(GetExprPredicates(lower, upper), id) && !LosesMinKey(lower, upper, id)))
  {
    ExprSelectsRange(lower, upper, id);
    LowestIsMinKey(upper, lower);
    if upper.t == MaxKey {
      LowestIsMinKey(lower, upper);
      OpenUpper(lower, upper, id);
    } else if Rank(lower.t) == Rank(upper.t) {
      SameBracket(lower, upper, id);
    } else if Rank(lower.t) < Rank(upper.t) {
      DifferentBrackets(lower, upper, id);
    } else {
      ExcludedTypesAreOtherBrackets(upper.t, lower.t);
      ExcludedTypesAreOtherBrackets(lower.t, lower.t);
    }
  }

  /** Bounds that cannot be an `_id` are refused, unless a MaxKey upper bound is not looked at. */
  lemma InvalidBoundsAreRefused(lower: Id, upper: Id)
    ensures Position(lower.t).None? ==> GetExplicitTypeCheckPredicates(lower, upper) == Err(InvalidType(lower.t))
    ensures Position(lower.t).Some? && Position(upper.t).None? ==>
      GetExplicitTypeCheckPredicates(lower, upper) == Err(InvalidType(upper.t))
  {
    ExcludedTypesAreOtherBrackets(lower.t, upper.t);
    ExcludedTypesAreOtherBrackets(upper.t, lower.t);
  }

  /** Whichever version is known, a filter selects exactly the range, if no `_id` is MinKey. */
  lemma FilterSelectsRange(cluster: ClusterInfo, lower: Id, upper: Id, id: Id)
    requires lower.Valid() && upper.Valid() && id.Valid() && id.t != MinKey
    ensures var r := FilterIdBounds(cluster, lower, upper);
      if r.Ok? then
        (forall p | p in r.value :: WellFormed(p)) && (Selects(r.value, id) <==> InRange(lower, upper, id))
      else !InRange(lower, upper, id)
  {
    ExprSelectsRange(lower, upper, id);
    ExplicitMeansExpr(lower, upper, id);
  }

  // ---- Plain ranges ----------------------------------------------------------------------

  /** The types of a collection's lowest and highest `_id`, if it has any. */
  ghost predicate TrueExtremes(ids: set<Id>, extremes: Option<Extremes>) {
    match extremes
    case None => ids == {}
    case Some(e) =>
      && (forall id | id in ids :: id.Valid())
      && (exists low | low in ids :: low.t == e.lowest && forall id | id in ids :: AtMost(low, id))
      && (exists high | high in ids :: high.t == e.highest && forall id | id in ids :: AtMost(id, high))
  }

  lemma {:induction false} RangeSelects(lower: Id, upper: Id, id: Id)
    requires lower.Valid() && upper.Valid() && id.Valid()
    ensures (forall p | p in RangeIdPredicates(lower, upper) :: WellFormed(p))
    ensures Selects(RangeIdPredicates(lower, upper), id) <==>
      (lower.t == MinKey || Matches(Gte(lower), id)) && (upper.t == MaxKey || Matches(Lte(upper), id))
  {
    var ps := RangeIdPredicates(lower, upper);
    var a, b := LowerPredicate(lower), if upper.t == MaxKey then [] else [Lte(upper)];
    assert ps == a + b;
    assert Selects(ps, id) <==> Selects(a, id) && Selects(b, id) by {
      forall i | 0 <= i < |a| ensures ps[i] == a[i] {}
      forall i | 0 <= i < |b| ensures ps[|a| + i] == b[i] {}
    }
    assert a != [] ==> (Selects(a, id) <==> Matches(a[0], id));
    assert b != [] ==> (Selects(b, id) <==> Matches(b[0], id));
  }

  /** Whenever plain ranges are judged exact they select, in the collection whose extremes were
      looked up, the very documents that the `$expr` form selects. */
  lemma ExactRangeSelectsSame(lower: Id, upper: Id, ids: set<Id>, extremes: Option<Extremes>, id: Id)
    requires lower.Valid() && upper.Valid() && id in ids && id.Valid()
    requires TrueExtremes(ids, extremes) && IdRangeFilterIsExact(lower.t, upper.t, extremes)
    ensures Selects(RangeIdPredicates(lower, upper), id) <==> Selects(GetExprPredicates(lower, upper), id)
  {
    RangeSelects(lower, upper, id);
    ExprSelectsRange(lower, upper, id);
    LowestIsMinKey(lower, id);
    LowestIsMinKey(upper, id);
    if lower.t != MinKey && upper.t != MaxKey {
      RanksAndPositions(lower.t, upper.t);
    } else if lower.t != MinKey {
      var high :| high in ids && high.t == extremes.value.highest && forall i | i in ids :: AtMost(i, high);
      RanksAndPositions(high.t, lower.t);
      assert AtMost(id, high);
    } else if upper.t != MaxKey {
      var low :| low in ids && low.t == extremes.value.lowest && forall i | i in ids :: AtMost(low, i);
      RanksAndPositions(low.t, upper.t);
      assert AtMost(low, id);
    }
  }

  /** And with two closed bounds the judgment is not too cautious: if it is no and the range is
      not backwards, a document whose `_id` is the lower bound would be missed. */
  lemma InexactRangeMisses(lower: Id, upper: Id, extremes: Option<Extremes>)
    requires lower.Valid() && upper.Valid() && lower.t != MinKey && upper.t != MaxKey
    requires !IdRangeFilterIsExact(lower.t, upper.t, extremes) && AtMost(lower, upper)
    ensures Selects(GetExprPredicates(lower, upper), lower) && !Selects(RangeIdPredicates(lower, upper), lower)
  {
    RangeSelects(lower, upper, lower);
    ExprSelectsRange(lower, upper, lower);
    RanksAndPositions(lower.t, upper.t);
  }

  /** Plain ranges and the `$expr` form select different documents of the collection. */
  ghost predicate MissesSome(lower: Id, upper: Id, ids: set<Id>)
    requires lower.Valid() && upper.Valid()
  {
    exists id :: id in ids && id.Valid() && Differ(lower, upper, id)
  }

  predicate Differ(lower: Id, upper: Id, id: Id)
    requires lower.Valid() && upper.Valid() && id.Valid()
  {
    RangeSelects(lower, upper, id);
    ExprSelectsRange(lower, upper, id);
    Selects(RangeIdPredicates(lower, upper), id) != Selects(GetExprPredicates(lower, upper), id)
  }

  /** With an open upper bound, plain ranges would be wrong exactly if the highest `_id` sorts in a
      later bracket than the lower bound; then the judgment is no. (If it sorts in an earlier one
      the judgment is no as well, and neither form selects anything.) */
  lemma OpenUpperMissesIff(lower: Id, upper: Id, ids: set<Id>, e: Extremes)
    requires lower.Valid() && upper.Valid() && lower.t != MinKey && upper.t == MaxKey
    requires TrueExtremes(ids, Some(e))
    ensures MissesSome(lower, upper, ids) <==> Rank(e.highest) > Rank(lower.t)
    ensures MissesSome(lower, upper, ids) ==> !IdRangeFilterIsExact(lower.t, upper.t, Some(e))
    ensures IdRangeFilterIsExact(lower.t, upper.t, Some(e)) <==> Rank(e.highest) == Rank(lower.t)
  {
    var high :| high in ids && high.t == e.highest && forall i | i in ids :: AtMost(i, high);
    RanksAndPositions(high.t, lower.t);
    if Rank(high.t) > Rank(lower.t) {
      RangeSelects(lower, upper, high);
      ExprSelectsRange(lower, upper, high);
      LowestIsMinKey(upper, high);
      assert Differ(lower, upper, high);
    } else {
      forall id | id in ids && id.Valid() ensures !Differ(lower, upper, id) {
        RangeSelects(lower, upper, id);
        ExprSelectsRange(lower, upper, id);
        LowestIsMinKey(upper, id);
        assert AtMost(id, high);
      }
    }
  }

  /** And with an open lower bound, exactly if the lowest one sorts in an earlier bracket than the
      upper bound. */
  lemma OpenLowerMissesIff(lower: Id, upper: Id, ids: set<Id>, e: Extremes)
    requires lower.Valid() && upper.Valid() && lower.t == MinKey && upper.t != MaxKey
    requires TrueExtremes(ids, Some(e))
    ensures MissesSome(lower, upper, ids) <==> Rank(e.lowest) < Rank(upper.t)
    ensures MissesSome(lower, upper, ids) ==> !IdRangeFilterIsExact(lower.t, upper.t, Some(e))
    ensures IdRangeFilterIsExact(lower.t, upper.t, Some(e)) <==> Rank(e.lowest) == Rank(upper.t)
  {
    var low :| low in ids && low.t == e.lowest && forall i | i in ids :: AtMost(low, i);
    RanksAndPositions(low.t, upper.t);
    if Rank(low.t) < Rank(upper.t) {
      RangeSelects(lower, upper, low);
      ExprSelectsRange(lower, upper, low);
      LowestIsMinKey(lower, low);
      assert Differ(lower, upper, low);
    } else {
      forall id | id in ids && id.Valid() ensures !Differ(lower, upper, id) {
        RangeSelects(lower, upper, id);
        ExprSelectsRange(lower, upper, id);
        LowestIsMinKey(lower, id);
        assert AtMost(low, id);
      }
    }
  }

  /** For instance: a document whose `_id` is MinKey, in the range from MinKey to the integer 5. */
  lemma ExplicitLosesMinKey()
    ensures var lower, upper := Id(MinKey, 0.0), Id(Int32, 5.0);
      var r := GetExplicitTypeCheckPredicates(lower, upper);
      && Selects(GetExprPredicates(lower, upper), lower)
      && r.Ok? && (forall p | p in r.value :: WellFormed(p)) && !Selects(r.value, lower)
  {
    var lower, upper := Id(MinKey, 0.0), Id(Int32, 5.0);
    ExplicitMeansExpr(lower, upper, lower);
    ExprSelectsRange(lower, upper, lower);
  }

  /** The `$expr` form is used from major version 5 on, and where nothing is known of the cluster. */
  lemma WhichForm(major: nat, lower: Id, upper: Id)
    ensures FilterIdBounds(Unknown, lower, upper) == Ok(GetExprPredicates(lower, upper))
    ensures FilterIdBounds(NoVersion, lower, upper) == GetExplicitTypeCheckPredicates(lower, upper)
    ensures major >= 5 ==> FilterIdBounds(Version(major), lower, upper) == Ok(GetExprPredicates(lower, upper))
    ensures major < 5 ==> FilterIdBounds(Version(major), lower, upper) == GetExplicitTypeCheckPredicates(lower, upper)
  {
  }

  /** Plain ranges are judged exact where they are the whole collection, and never without bounds
      or, if one is open, without a look at the collection. */
  lemma PlainJudgments(lower: BsonType, upper: BsonType, extremes: Option<Extremes>)
    ensures IdRangeFilterIsExact(MinKey, MaxKey, extremes)
    ensures !IdRangeFilterIsExact(Absent, upper, extremes) && !IdRangeFilterIsExact(lower, Absent, extremes)
    ensures (lower == MinKey) != (upper == MaxKey) && extremes.None? ==> !IdRangeFilterIsExact(lower, upper, extremes)
  {
  }
}
