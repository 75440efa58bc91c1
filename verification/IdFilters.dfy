/** The three forms of a range filter on `_id`, and when they mean the same. */
module IdFilters {
  import opened Bson
  import opened IdOrder

  datatype Error = InvalidType(t: BsonType) | LowerSortsAfterUpper

  datatype Result<+T> = Ok(value: T) | Err(error: Error)

  // ---- Types around a value --------------------------------------------------------------

  function IndexOf(types: seq<BsonType>, t: BsonType): (r: Option<nat>)
    ensures r.Some? ==> r.value < |types| && types[r.value] == t
    ensures r.None? ==> t !in types
  {
    if types == [] then None
    else if types[0] == t then Some(0)
    else
      match IndexOf(types[1..], t)
      case None => None
      case Some(i) => Some(i + 1)
  }

  function Without(types: seq<BsonType>, dropped: seq<BsonType>): (r: seq<BsonType>)
    ensures forall t :: t in r <==> t in types && t !in dropped
  {
    if types == [] then []
    else if types[0] in dropped then Without(types[1..], dropped)
    else [types[0]] + Without(types[1..], dropped)
  }

  function Intersect(a: seq<BsonType>, b: seq<BsonType>): (r: seq<BsonType>)
    ensures forall t :: t in r <==> t in a && t in b
  {
    if b == [] then []
    else if b[0] in a then [b[0]] + Intersect(a, b[1..])
    else Intersect(a, b[1..])
  }

  datatype Around = Around(earlier: seq<BsonType>, later: seq<BsonType>)

  /** The types that bracketing excludes when matching against a value of the given type. */
  function TypeBracketExcludedTypes(t: BsonType): Result<Around> { ExcludedTypes(SORT_ORDER, t) }

  function ExcludedTypes(order: seq<BsonType>, t: BsonType): Result<Around> {
    match IndexOf(order, t)
    case None => Err(InvalidType(t))
    case Some(i) =>
      var earlier, later := order[..i], order[i + 1..];
      if t in NUMERIC_TYPES then Ok(Around(Without(earlier, NUMERIC_TYPES), Without(later, NUMERIC_TYPES)))
      else if t in STRING_TYPES then Ok(Around(Without(earlier, STRING_TYPES), Without(later, STRING_TYPES)))
      else Ok(Around(earlier, later))
  }

  function SortBracket(t: BsonType): BsonType {
    if t in NUMERIC_TYPES then Double else if t in STRING_TYPES then String else t
  }

  predicate SameSortBracket(a: BsonType, b: BsonType) { SortBracket(a) == SortBracket(b) }

  // ---- The filters -----------------------------------------------------------------------

  function GetExprPredicates(lower: Id, upper: Id): seq<Predicate> { [ExprGte(lower), ExprLte(upper)] }

  /** A range predicate for a lower bound; none for MinKey. */
  function LowerPredicate(lower: Id): seq<Predicate> { if lower.t == MinKey then [] else [Gte(lower)] }

  function WithTypes(predicates: seq<Predicate>, types: seq<BsonType>): seq<Predicate> {
    if types == [] then predicates else predicates + [TypeIn(types)]
  }

  function GetExplicitTypeCheckPredicates(lower: Id, upper: Id): Result<seq<Predicate>> {
    match TypeBracketExcludedTypes(lower.t)
    case Err(error) => Err(error)
    case Ok(aroundLower) =>
      if upper.t == MaxKey then Ok([Or(WithTypes(LowerPredicate(lower), aroundLower.later))])
      else
        match TypeBracketExcludedTypes(upper.t)
        case Err(error) => Err(error)
        case Ok(aroundUpper) =>
          var bothLimits := LowerPredicate(lower) + [Lte(upper)];
          if lower.t in aroundUpper.later then Err(LowerSortsAfterUpper)
          else if lower.t in aroundUpper.earlier then
            Ok([Or(WithTypes(bothLimits, Intersect(aroundLower.later, aroundUpper.earlier)))])
          else Ok(bothLimits)
  }

  /** What is known of a server's version. */
  datatype ClusterInfo = Unknown | NoVersion | Version(major: nat)

  function FilterIdBounds(cluster: ClusterInfo, lower: Id, upper: Id): Result<seq<Predicate>> {
    var useExpr := match cluster case Unknown => true case NoVersion => false case Version(n) => n >= 5;
    if useExpr then Ok(GetExprPredicates(lower, upper)) else GetExplicitTypeCheckPredicates(lower, upper)
  }

  /** Plain ranges: a MinKey lower bound or a MaxKey upper bound adds nothing. */
  function RangeIdPredicates(lower: Id, upper: Id): seq<Predicate> {
    LowerPredicate(lower) + if upper.t == MaxKey then [] else [Lte(upper)]
  }

  datatype Extremes = Extremes(lowest: BsonType, highest: BsonType)

  function IdRangeFilterIsExact(lower: BsonType, upper: BsonType, extremes: Option<Extremes>): bool {
    if lower == Absent || upper == Absent then false
    else if lower == MinKey && upper == MaxKey then true
    else if lower != MinKey && upper != MaxKey then SameSortBracket(lower, upper)
    else if extremes.None? then false
    else if lower == MinKey then SameSortBracket(extremes.value.lowest, upper)
    else SameSortBracket(extremes.value.highest, lower)
  }

  // ---- Brackets and ranks ----------------------------------------------------------------

  /** Each type of an `_id` once, at its position. */
  predicate InOrder(order: seq<BsonType>) {
    && |order| == 18
    && (forall i | 0 <= i < 18 :: Position(order[i]) == Some(i))
  }

  lemma SortOrderIsInOrder()
    ensures InOrder(SORT_ORDER)
    ensures forall t :: Position(t).Some? ==> t in SORT_ORDER
  {
    forall i | 0 <= i < |SORT_ORDER| ensures Position(SORT_ORDER[i]) == Some(i) {
      PositionInOrder(i);
    }
    forall t | Position(t).Some? ensures t in SORT_ORDER {
      SortOrderLists(t, Position(t).value);
    }
  }

  lemma {:induction false} FoundAtPosition(order: seq<BsonType>, t: BsonType)
    requires InOrder(order) && (Position(t).Some? ==> t in order)
    ensures IndexOf(order, t) == Position(t)
    ensures Position(t).Some? ==> order[Position(t).value] == t
  {
  }

  lemma InPrefix(order: seq<BsonType>, t: BsonType, i: nat)
    requires InOrder(order) && (Position(t).Some? ==> t in order) && i < 18
    ensures t in order[..i] <==> Position(t).Some? && Position(t).value < i
    ensures t in order[i + 1..] <==> Position(t).Some? && i < Position(t).value
  {
    FoundAtPosition(order, t);
    if Position(t).Some? {
      var p := Position(t).value;
      assert p < i ==> order[..i][p] == t;
      assert p > i ==> order[i + 1..][p - i - 1] == t;
    }
  }

  /** The excluded types are exactly the types of the brackets before and after. */
  lemma ExcludedTypesAreOtherBrackets(t: BsonType, other: BsonType)
    ensures TypeBracketExcludedTypes(t).Err? <==> Position(t).None?
    ensures TypeBracketExcludedTypes(t).Err? ==> TypeBracketExcludedTypes(t).error == InvalidType(t)
    ensures Position(t).Some? ==> var around := TypeBracketExcludedTypes(t).value;
      && (other in around.earlier <==> Position(other).Some? && Rank(other) < Rank(t))
      && (other in around.later <==> Position(other).Some? && Rank(t) < Rank(other))
  {
    SortOrderIsInOrder();
    ExcludedAround(SORT_ORDER, t, other);
  }

  lemma ExcludedAround(order: seq<BsonType>, t: BsonType, other: BsonType)
    requires InOrder(order) && (Position(t).Some? ==> t in order) && (Position(other).Some? ==> other in order)
    ensures ExcludedTypes(order, t).Err? <==> Position(t).None?
    ensures ExcludedTypes(order, t).Err? ==> ExcludedTypes(order, t).error == InvalidType(t)
    ensures Position(t).Some? ==> var around := ExcludedTypes(order, t).value;
      && (other in around.earlier <==> Position(other).Some? && Rank(other) < Rank(t))
      && (other in around.later <==> Position(other).Some? && Rank(t) < Rank(other))
  {
    FoundAtPosition(order, t);
    if Position(t).Some? {
      InPrefix(order, other, Position(t).value);
      BracketOf(t, other);
      if Position(other).Some? {
        RanksAndPositions(t, other);
        RanksAndPositions(other, t);
        if Position(t) == Position(other) { SamePositionSameType(t, other); }
      }
    }
  }

  lemma BracketOf(t: BsonType, other: BsonType)
    ensures t in NUMERIC_TYPES ==> (SameSortBracket(t, other) <==> other in NUMERIC_TYPES)
    ensures t in STRING_TYPES ==> (SameSortBracket(t, other) <==> other in STRING_TYPES)
    ensures t !in NUMERIC_TYPES && t !in STRING_TYPES ==> (SameSortBracket(t, other) <==> other == t)
  {
  }

  lemma SamePositionSameType(t: BsonType, other: BsonType)
    requires Position(t).Some? && Position(t) == Position(other)
    ensures t == other
  {
  }

  lemma RankOf(t: BsonType)
    requires Position(t).Some?
    ensures t in NUMERIC_TYPES ==> Rank(t) == 2 <= Position(t).value <= 5
    ensures t in STRING_TYPES ==> Rank(t) == 6 <= Position(t).value <= 7
    ensures t !in NUMERIC_TYPES && t !in STRING_TYPES ==>
      Rank(t) == Position(t).value && (Rank(t) < 2 || Rank(t) > 7)
  {
    match t { case _ => }
  }

  /** Types of one bracket have one rank, and brackets are in the order of their ranks. */
  lemma RanksAndPositions(t: BsonType, other: BsonType)
    requires Position(t).Some? && Position(other).Some?
    ensures SameSortBracket(t, other) <==> Rank(t) == Rank(other)
    ensures Rank(other) < Rank(t) <==> Position(other).value < Position(t).value && !SameSortBracket(t, other)
  {
    RankOf(t);
    RankOf(other);
    BracketOf(t, other);
    if Position(t) == Position(other) {
      SamePositionSameType(t, other);
    }
  }
}
