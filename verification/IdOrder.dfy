/** The sort order of `_id` values, and queries on it with and without type bracketing. */
module IdOrder {
  import opened Bson

  datatype BsonType =
    | MinKey | Null | Int32 | Int64 | Double | Decimal128 | String | Symbol
    | EmbeddedDocument | Binary | ObjectID | Boolean | DateTime | Timestamp
    | DBPointer | JavaScript | CodeWithScope | MaxKey
    | Array | Undefined | Regex      // which the server forbids as _id
    | Absent                         // no value at all

  const NUMERIC_TYPES: seq<BsonType> := [Int32, Int64, Double, Decimal128]

  const STRING_TYPES: seq<BsonType> := [String, Symbol]

  const SORT_ORDER: seq<BsonType> :=
    [MinKey, Null] + NUMERIC_TYPES + STRING_TYPES
    + [EmbeddedDocument, Binary, ObjectID, Boolean, DateTime, Timestamp,
       DBPointer, JavaScript, CodeWithScope, MaxKey]

  /** A value: its type, and its place among the values its type compares with. */
  datatype Id = Id(t: BsonType, place: real)
  {
    /** Values that can be an `_id`; three types have only one value. */
    predicate Valid() {
      Position(t).Some? && (t == MinKey || t == Null || t == MaxKey ==> place == 0.0)
    }
  }

  /** Where a type stands in the sort order. */
  function Position(t: BsonType): (r: Option<nat>)
    ensures r.Some? ==> r.value < 18
  {
    match t
    case MinKey => Some(0)
    case Null => Some(1)
    case Int32 => Some(2)
    case Int64 => Some(3)
    case Double => Some(4)
    case Decimal128 => Some(5)
    case String => Some(6)
    case Symbol => Some(7)
    case EmbeddedDocument => Some(8)
    case Binary => Some(9)
    case ObjectID => Some(10)
    case Boolean => Some(11)
    case DateTime => Some(12)
    case Timestamp => Some(13)
    case DBPointer => Some(14)
    case JavaScript => Some(15)
    case CodeWithScope => Some(16)
    case MaxKey => Some(17)
    case _ => None
  }

  /** The rank of a type's bracket: all numbers compare with one another, and all strings. */
  function Rank(t: BsonType): nat {
    match t
    case Int32 => 2
    case Int64 => 2
    case Double => 2
    case Decimal128 => 2
    case String => 6
    case Symbol => 6
    case _ => match Position(t) case Some(p) => p case None => 18
  }

  /** The total order of values of all types. */
  predicate AtMost(a: Id, b: Id) {
    Rank(a.t) < Rank(b.t) || (Rank(a.t) == Rank(b.t) && a.place <= b.place)
  }

  lemma Transitive(a: Id, b: Id, c: Id)
    requires AtMost(a, b) && AtMost(b, c)
    ensures AtMost(a, c)
  {
  }

  /** A condition on `_id`. The first two compare by the total order; the others see only values
      that compare with their operand. */
  datatype Predicate =
    | ExprGte(bound: Id)
    | ExprLte(bound: Id)
    | Gte(bound: Id)
    | Lte(bound: Id)
    | TypeIn(types: seq<BsonType>)
    | Or(any: seq<Predicate>)

  predicate WellFormed(p: Predicate) {
    match p
    case TypeIn(_) => true
    case Or(any) => forall q | q in any :: WellFormed(q)
    case _ => p.bound.Valid()
  }

  predicate Matches(p: Predicate, id: Id) {
    match p
    case ExprGte(bound) => AtMost(bound, id)
    case ExprLte(bound) => AtMost(id, bound)
    case Gte(bound) => Rank(bound.t) == Rank(id.t) && AtMost(bound, id)
    case Lte(bound) => Rank(bound.t) == Rank(id.t) && AtMost(id, bound)
    case TypeIn(types) => id.t in types
    case Or(any) => exists i :: 0 <= i < |any| && Matches(any[i], id)
  }

  /** Predicates joined by "and". */
  predicate Selects(ps: seq<Predicate>, id: Id) {
    forall i | 0 <= i < |ps| :: Matches(ps[i], id)
  }

  lemma PositionInOrder(i: nat)
    requires i < |SORT_ORDER|
    ensures Position(SORT_ORDER[i]) == Some(i)
  {
    if i < 8 {
      assert SORT_ORDER[..8] == [MinKey, Null, Int32, Int64, Double, Decimal128, String, Symbol];
      assert SORT_ORDER[i] == SORT_ORDER[..8][i];
    } else {
      assert SORT_ORDER[8..] == [EmbeddedDocument, Binary, ObjectID, Boolean, DateTime, Timestamp,
                                 DBPointer, JavaScript, CodeWithScope, MaxKey];
      assert SORT_ORDER[i] == SORT_ORDER[8..][i - 8];
    }
  }

  /** The sort order lists each type of an `_id` once, at its position, and no other type. */
  lemma SortOrderLists(t: BsonType, i: nat)
    requires i < |SORT_ORDER|
    ensures |SORT_ORDER| == 18
    ensures SORT_ORDER[i] == t <==> Position(t) == Some(i)
  {
    PositionInOrder(i);
    if Position(t) == Some(i) {
      match t { case _ => }
    }
  }

  /** The order is total; two `_id`s are at most each other only if they are of one bracket and at
      one place in it; and it goes by bracket first, then by place. */
  lemma OrderIsTotal(a: Id, b: Id)
    ensures AtMost(a, b) || AtMost(b, a)
    ensures AtMost(a, b) && AtMost(b, a) <==> Rank(a.t) == Rank(b.t) && a.place == b.place
    ensures Rank(a.t) == Rank(b.t) && a.place < b.place ==> AtMost(a, b) && !AtMost(b, a)
    ensures Rank(a.t) < Rank(b.t) ==> AtMost(a, b) && !AtMost(b, a)
  {
  }

  /** The order of the brackets, written out. */
  lemma LowBrackets()
    ensures Rank(MinKey) == 0 && Rank(Null) == 1
    ensures Rank(Int32) == 2 && Rank(Int64) == 2 && Rank(Double) == 2 && Rank(Decimal128) == 2
    ensures Rank(String) == 6 && Rank(Symbol) == 6
  {
  }

  lemma MiddleBrackets()
    ensures Rank(EmbeddedDocument) == 8 && Rank(Binary) == 9 && Rank(ObjectID) == 10 && Rank(Boolean) == 11
    ensures Rank(DateTime) == 12 && Rank(Timestamp) == 13
  {
  }

  lemma HighBrackets()
    ensures Rank(DBPointer) == 14 && Rank(JavaScript) == 15 && Rank(CodeWithScope) == 16 && Rank(MaxKey) == 17
  {
  }
}
