/** What the order-insensitive comparison decides: equality up to the order of fields. */
module BsonEquivalence {
  import opened Bson
  import opened BsonCompare

  predicate NoNameTwice(fields: seq<Field>) {
    forall i, j | 0 <= i < j < |fields| :: fields[i].key != fields[j].key
  }

  /** No document holds a field twice, at any depth, and array elements are named by position. */
  predicate WellFormed(v: Value) {
    match v
    case Leaf(_, _) => true
    case Doc(fields) => NoNameTwice(fields) && forall f | f in fields :: WellFormed(f.value)
    case Arr(elements) =>
      && (forall i | 0 <= i < |elements| :: elements[i].key == Itoa(i))
      && forall f | f in elements :: WellFormed(f.value)
  }

  predicate IsPermutation(p: seq<nat>, n: nat) {
    && |p| == n
    && (forall i | 0 <= i < n :: p[i] < n)
    && (forall i, j | 0 <= i < j < n :: p[i] != p[j])
  }

  /** Equality up to a permutation of the fields of each document at each depth. */
  ghost predicate EqualUpToOrder(s: Value, d: Value)
    decreases d, 1
  {
    match d
    case Leaf(_, _) => s == d
    case Arr(elements) =>
      && s.Arr? && |s.elements| == |elements|
      && forall i | 0 <= i < |elements| ::
        s.elements[i].key == elements[i].key && EqualUpToOrder(s.elements[i].value, elements[i].value)
    case Doc(fields) =>
      && s.Doc? && |s.fields| == |fields|
      && exists p :: IsPermutation(p, |fields|) && EqualWhenPermuted(s.fields, p, d)
  }

  ghost predicate EqualWhenPermuted(src: seq<Field>, p: seq<nat>, d: Value)
    requires d.Doc? && |src| == |d.fields| && IsPermutation(p, |src|)
    decreases d, 0
  {
    forall i | 0 <= i < |src| ::
      src[p[i]].key == d.fields[i].key && EqualUpToOrder(src[p[i]].value, d.fields[i].value)
  }

  /** The same with fields looked up by key instead of permuted. */
  ghost predicate EqualByKey(s: Value, d: Value)
    decreases d
  {
    match d
    case Leaf(_, _) => s == d
    case Arr(elements) =>
      && s.Arr? && |s.elements| == |elements|
      && forall i | 0 <= i < |elements| ::
        s.elements[i].key == elements[i].key && EqualByKey(s.elements[i].value, elements[i].value)
    case Doc(fields) =>
      && s.Doc? && Keys(s.fields) == Keys(fields)
      && forall i | 0 <= i < |fields| ::
        fields[i].key in Keys(s.fields) && EqualByKey(Last(s.fields, fields[i].key), fields[i].value)
  }

  // ---- The comparison decides equality by key --------------------------------------------

  /** On all values: the answer is Same exactly if the values are equal by key. */
  lemma {:induction false} SameIffEqualByKey(s: Value, d: Value)
    ensures MatchValue(s, d) == Same <==> EqualByKey(s, d)
    decreases d, |DocFields(d)| + 1
  {
    if s.Arr? && d.Arr? && |s.elements| == |d.elements| {
      ElementsSame(s.elements, d, 0);
    } else if s.Doc? && d.Doc? {
      FieldsSame(s.fields, d, 0);
    }
  }

  function DocFields(v: Value): seq<Field> {
    match v case Leaf(_, _) => [] case Doc(fields) => fields case Arr(elements) => elements
  }

  lemma {:induction false} ElementsSame(src: seq<Field>, d: Value, i: nat)
    requires d.Arr? && |src| == |d.elements| && i <= |src|
    ensures MatchElements(src, d, i) == Same <==>
      forall j | i <= j < |src| ::
        src[j].key == d.elements[j].key && EqualByKey(src[j].value, d.elements[j].value)
    decreases d, |src| - i
  {
    if i < |src| && src[i].key == d.elements[i].key {
      SameIffEqualByKey(src[i].value, d.elements[i].value);
      ElementsSame(src, d, i + 1);
    }
  }

  lemma {:induction false} FieldsSame(src: seq<Field>, d: Value, i: nat)
    requires d.Doc? && i <= |d.fields|
    ensures MatchFields(src, d, i) == Same <==>
      && Keys(src) <= Keys(d.fields)
      && forall j | i <= j < |d.fields| ::
        d.fields[j].key in Keys(src) && EqualByKey(Last(src, d.fields[j].key), d.fields[j].value)
    decreases d, |d.fields| - i
  {
    if i < |d.fields| && d.fields[i].key in Keys(src) {
      SameIffEqualByKey(Last(src, d.fields[i].key), d.fields[i].value);
      FieldsSame(src, d, i + 1);
    }
  }

  /** Array keys cannot differ when elements are named by position. */
  lemma {:induction false} NoFailure(s: Value, d: Value)
    requires WellFormed(s) && WellFormed(d)
    ensures !MatchValue(s, d).Failed?
    decreases d, |DocFields(d)| + 1
  {
    if s.Arr? && d.Arr? && |s.elements| == |d.elements| {
      ElementsDoNotFail(s, d, 0);
    } else if s.Doc? && d.Doc? {
      FieldsDoNotFail(s, d, 0);
    }
  }

  lemma {:induction false} ElementsDoNotFail(s: Value, d: Value, i: nat)
    requires WellFormed(s) && WellFormed(d)
    requires s.Arr? && d.Arr? && |s.elements| == |d.elements| && i <= |s.elements|
    ensures !MatchElements(s.elements, d, i).Failed?
    decreases d, |d.elements| - i
  {
    if i < |s.elements| {
      NoFailure(s.elements[i].value, d.elements[i].value);
      ElementsDoNotFail(s, d, i + 1);
    }
  }

  lemma {:induction false} FieldsDoNotFail(s: Value, d: Value, i: nat)
    requires WellFormed(s) && WellFormed(d)
    requires s.Doc? && d.Doc? && i <= |d.fields|
    ensures !MatchFields(s.fields, d, i).Failed?
    decreases d, |d.fields| - i
  {
    if i < |d.fields| && d.fields[i].key in Keys(s.fields) {
      LastIsField(s.fields, d.fields[i].key);
      NoFailure(Last(s.fields, d.fields[i].key), d.fields[i].value);
      FieldsDoNotFail(s, d, i + 1);
    }
  }

  // ---- Keys ------------------------------------------------------------------------------

  lemma {:induction false} LastIsField(fields: seq<Field>, key: Name)
    requires key in Keys(fields)
    ensures exists j :: 0 <= j < |fields| && fields[j] == Field(key, Last(fields, key))
    decreases |fields|
  {
    var n := |fields| - 1;
    if fields[n].key != key {
      LastIsField(fields[..n], key);
      var j :| 0 <= j < n && fields[..n][j] == Field(key, Last(fields[..n], key));
      assert fields[j] == Field(key, Last(fields, key));
    }
  }

  lemma {:induction false} OnlyOneField(fields: seq<Field>, j: nat)
    requires NoNameTwice(fields) && j < |fields|
    ensures fields[j].key in Keys(fields) && Last(fields, fields[j].key) == fields[j].value
  {
    LastIsField(fields, fields[j].key);
  }

  lemma {:induction false} AsManyKeys(fields: seq<Field>)
    requires NoNameTwice(fields)
    ensures |Keys(fields)| == |fields|
    decreases |fields|
  {
    if fields != [] {
      var n := |fields| - 1;
      AsManyKeys(fields[..n]);
      KeysOfOneMore(fields, n);
      assert fields[..n + 1] == fields;
    }
  }

  lemma SameCardinality<T>(a: set<T>, b: set<T>)
    requires a <= b && |a| == |b|
    ensures a == b
  {
    assert |b - a| == |b| - |a|;
  }

  // ---- By key or by permutation ----------------------------------------------------------

  function PositionOf(fields: seq<Field>, key: Name): (j: nat)
    requires key in Keys(fields)
    ensures j < |fields| && fields[j].key == key
  {
    if fields[0].key == key then 0 else 1 + PositionOf(fields[1..], key)
  }

  lemma {:induction false} EqualByKeyToPermuted(s: Value, d: Value)
    requires WellFormed(s) && WellFormed(d) && EqualByKey(s, d)
    ensures EqualUpToOrder(s, d)
    decreases d
  {
    match d
    case Leaf(_, _) =>
    case Arr(elements) =>
      forall i | 0 <= i < |elements| ensures EqualUpToOrder(s.elements[i].value, elements[i].value) {
        EqualByKeyToPermuted(s.elements[i].value, elements[i].value);
      }
    case Doc(fields) =>
      AsManyKeys(s.fields);
      AsManyKeys(fields);
      var p := seq(|fields|, i requires 0 <= i < |fields| => PositionOf(s.fields, fields[i].key));
      forall i | 0 <= i < |fields| ensures EqualUpToOrder(s.fields[p[i]].value, fields[i].value) {
        OnlyOneField(s.fields, p[i]);
        EqualByKeyToPermuted(s.fields[p[i]].value, fields[i].value);
      }
      assert IsPermutation(p, |fields|) && EqualWhenPermuted(s.fields, p, d);
  }

  lemma {:induction false} PermutedToEqualByKey(s: Value, d: Value)
    requires WellFormed(s) && WellFormed(d) && EqualUpToOrder(s, d)
    ensures EqualByKey(s, d)
    decreases d
  {
    match d
    case Leaf(_, _) =>
    case Arr(elements) =>
      forall i | 0 <= i < |elements| ensures EqualByKey(s.elements[i].value, elements[i].value) {
        PermutedToEqualByKey(s.elements[i].value, elements[i].value);
      }
    case Doc(fields) =>
      var p :| IsPermutation(p, |fields|) && EqualWhenPermuted(s.fields, p, d);
      forall i | 0 <= i < |fields|
        ensures fields[i].key in Keys(s.fields) && EqualByKey(Last(s.fields, fields[i].key), fields[i].value)
      {
        assert s.fields[p[i]].key == fields[i].key;
        OnlyOneField(s.fields, p[i]);
        PermutedToEqualByKey(s.fields[p[i]].value, fields[i].value);
      }
      AsManyKeys(s.fields);
      AsManyKeys(fields);
      assert Keys(fields) <= Keys(s.fields);
      SameCardinality(Keys(fields), Keys(s.fields));
  }

  /** The comparison finds no mismatch exactly if the values are equal up to field order. */
  lemma {:induction false} SameIffEqualUpToOrder(s: Value, d: Value)
    requires WellFormed(s) && WellFormed(d)
    ensures MatchValue(s, d) == SameIf(EqualUpToOrder(s, d))
  {
    NoFailure(s, d);
    SameIffEqualByKey(s, d);
    if EqualByKey(s, d) {
      EqualByKeyToPermuted(s, d);
    } else if EqualUpToOrder(s, d) {
      PermutedToEqualByKey(s, d);
    }
  }

  // ---- An equivalence relation -----------------------------------------------------------

  lemma {:induction false} Reflexive(v: Value)
    ensures EqualUpToOrder(v, v)
    decreases v
  {
    match v
    case Leaf(_, _) =>
    case Arr(elements) =>
      forall i | 0 <= i < |elements| ensures EqualUpToOrder(elements[i].value, elements[i].value) {
        Reflexive(elements[i].value);
      }
    case Doc(fields) =>
      var p := seq(|fields|, i => i);
      forall i | 0 <= i < |fields| ensures EqualUpToOrder(fields[p[i]].value, fields[i].value) {
        Reflexive(fields[i].value);
      }
      assert IsPermutation(p, |fields|) && EqualWhenPermuted(fields, p, v);
  }

  lemma {:induction false} SymmetricByKey(s: Value, d: Value)
    requires WellFormed(s) && WellFormed(d) && EqualByKey(s, d)
    ensures EqualByKey(d, s)
    decreases d
  {
    match d
    case Leaf(_, _) =>
    case Arr(elements) =>
      forall i | 0 <= i < |elements| ensures EqualByKey(elements[i].value, s.elements[i].value) {
        SymmetricByKey(s.elements[i].value, elements[i].value);
      }
    case Doc(fields) =>
      forall j | 0 <= j < |s.fields|
        ensures s.fields[j].key in Keys(fields) && EqualByKey(Last(fields, s.fields[j].key), s.fields[j].value)
      {
        OnlyOneField(s.fields, j);
        var i := PositionOf(fields, s.fields[j].key);
        OnlyOneField(fields, i);
        SymmetricByKey(s.fields[j].value, fields[i].value);
      }
  }

  lemma {:induction false} TransitiveByKey(a: Value, b: Value, c: Value)
    requires WellFormed(a) && WellFormed(b) && WellFormed(c)
    requires EqualByKey(a, b) && EqualByKey(b, c)
    ensures EqualByKey(a, c)
    decreases c
  {
    match c
    case Leaf(_, _) =>
    case Arr(elements) =>
      forall i | 0 <= i < |elements| ensures EqualByKey(a.elements[i].value, elements[i].value) {
        TransitiveByKey(a.elements[i].value, b.elements[i].value, elements[i].value);
      }
    case Doc(fields) =>
      forall i | 0 <= i < |fields|
        ensures fields[i].key in Keys(a.fields) && EqualByKey(Last(a.fields, fields[i].key), fields[i].value)
      {
        var j := PositionOf(b.fields, fields[i].key);
        OnlyOneField(b.fields, j);
        var h := PositionOf(a.fields, fields[i].key);
        OnlyOneField(a.fields, h);
        TransitiveByKey(a.fields[h].value, b.fields[j].value, fields[i].value);
      }
  }

  /** Equality up to field order is symmetric and transitive; so is the comparison's answer. */
  lemma {:induction false} Equivalence(a: Value, b: Value, c: Value)
    requires WellFormed(a) && WellFormed(b) && WellFormed(c)
    ensures MatchValue(a, a) == Same
    ensures MatchValue(a, b) == MatchValue(b, a)
    ensures MatchValue(a, b) == Same && MatchValue(b, c) == Same ==> MatchValue(a, c) == Same
  {
    Reflexive(a);
    SameIffEqualUpToOrder(a, a);
    NoFailure(a, b);
    NoFailure(b, a);
    SameIffEqualByKey(a, b);
    SameIffEqualByKey(b, a);
    SameIffEqualByKey(b, c);
    SameIffEqualByKey(a, c);
    if EqualByKey(a, b) {
      SymmetricByKey(a, b);
      if EqualByKey(b, c) { TransitiveByKey(a, b, c); }
    } else if EqualByKey(b, a) {
      SymmetricByKey(b, a);
    }
  }
}
