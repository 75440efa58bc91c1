/** Order-insensitive comparison of documents. */
module BsonCompare {
  import opened Bson

  type Name = seq<Byte>

  /** A parsed value. A leaf is of any type but document and array; its bytes decide equality. */
  datatype Value =
    | Leaf(bsonType: Byte, bytes: seq<Byte>)
    | Doc(fields: seq<Field>)
    | Arr(elements: seq<Field>)

  datatype Field = Field(key: Name, value: Value)

  /** The one error of a comparison: array elements at one position with different keys. */
  datatype Error = ArrayKeysDiffer(src: Name, dst: Name)

  /** The answer to whether two values match. */
  datatype Answer = Same | Different | Failed(error: Error)

  datatype Result<+T> = Ok(value: T) | Err(error: Error)

  function SameIf(c: bool): Answer { if c then Same else Different }

  datatype Details = Details(missingOnSrc: seq<Name>, missingOnDst: seq<Name>, differ: seq<Name>)

  function Keys(fields: seq<Field>): set<Name> { set f | f in fields :: f.key }

  /** The value under a key; of several, the last. */
  function Last(fields: seq<Field>, key: Name): Value
    requires key in Keys(fields)
    decreases |fields|
  {
    var n := |fields| - 1;
    if fields[n].key == key then fields[n].value else Last(fields[..n], key)
  }

  // ---- What a comparison answers ---------------------------------------------------------

  function MatchValue(s: Value, d: Value): Answer
    decreases d, 1
  {
    if s.Arr? && d.Arr? then
      if |s.elements| != |d.elements| then Different else MatchElements(s.elements, d, 0)
    else if s.Doc? && d.Doc? then MatchFields(s.fields, d, 0)
    else SameIf(s == d)
  }

  /** Array elements in order, up to the first difference or error. */
  function MatchElements(src: seq<Field>, d: Value, i: nat): Answer
    requires d.Arr? && |src| == |d.elements| && i <= |src|
    decreases d, 0, |src| - i
  {
    if i == |src| then Same
    else if src[i].key != d.elements[i].key then Failed(ArrayKeysDiffer(src[i].key, d.elements[i].key))
    else
      var r := MatchValue(src[i].value, d.elements[i].value);
      if r == Same then MatchElements(src, d, i + 1) else r
  }

  /** Destination fields in order, up to the first difference or error, then the source's keys. */
  function MatchFields(src: seq<Field>, d: Value, i: nat): Answer
    requires d.Doc? && i <= |d.fields|
    decreases d, 0, |d.fields| - i
  {
    if i == |d.fields| then SameIf(Keys(src) <= Keys(d.fields))
    else if d.fields[i].key !in Keys(src) then Different
    else
      var r := MatchValue(Last(src, d.fields[i].key), d.fields[i].value);
      if r == Same then MatchFields(src, d, i + 1) else r
  }

  /** Whether the comparison of destination field `f` with the source's says `answer`. */
  predicate FieldAnswers(src: seq<Field>, f: Field, answer: Answer) {
    f.key in Keys(src) && MatchValue(Last(src, f.key), f.value) == answer
  }

  /** The keys of destination fields without a source field, in the destination's order. */
  function MissingOnSrc(src: seq<Field>, dst: seq<Field>): seq<Name> {
    if dst == [] then []
    else
      var rest, f := MissingOnSrc(src, dst[..|dst| - 1]), dst[|dst| - 1];
      if f.key in Keys(src) then rest else rest + [f.key]
  }

  /** The keys of fields on both sides whose values differ, in the destination's order. */
  function Differing(src: seq<Field>, dst: seq<Field>): seq<Name> {
    if dst == [] then []
    else
      var rest, f := Differing(src, dst[..|dst| - 1]), dst[|dst| - 1];
      if FieldAnswers(src, f, Different) then rest + [f.key] else rest
  }

  /** The details of a comparison that ran to its end. */
  ghost predicate ExactDetails(details: Details, src: seq<Field>, dst: seq<Field>) {
    && details.missingOnSrc == MissingOnSrc(src, dst)
    && details.differ == Differing(src, dst)
    && Lists(details.missingOnDst, Keys(src) - Keys(dst))
  }

  /** A set, listed in some order. */
  ghost predicate Lists<T(!new)>(xs: seq<T>, s: set<T>) {
    && (forall x :: x in xs <==> x in s)
    && (forall i, j | 0 <= i < j < |xs| :: xs[i] != xs[j])
  }

  predicate NoError(src: seq<Field>, dst: seq<Field>) {
    forall f | f in dst && f.key in Keys(src) :: !MatchValue(Last(src, f.key), f.value).Failed?
  }

  const NoDetails := Details([], [], [])

  // ---- The comparison --------------------------------------------------------------------

  method CompareValue(s: Value, d: Value) returns (r: Answer)
    ensures r == MatchValue(s, d)
    decreases d, 1
  {
    if s.Arr? && d.Arr? {
      r := CompareArray(s.elements, d.elements);
    } else if s.Doc? && d.Doc? {
      var mismatch := CompareElements(s.fields, d.fields, true);
      r := AnswerOf(mismatch);
    } else {
      r := SameIf(s == d);
    }
  }

  method CompareArray(src: seq<Field>, dst: seq<Field>) returns (r: Answer)
    ensures r == MatchValue(Arr(src), Arr(dst))
    decreases Arr(dst), 0
  {
    if |src| != |dst| {
      return Different;
    }
    for i := 0 to |src|
      invariant MatchElements(src, Arr(dst), i) == MatchElements(src, Arr(dst), 0)
    {
      if src[i].key != dst[i].key {
        return Failed(ArrayKeysDiffer(src[i].key, dst[i].key));
      }
      var matches := CompareValue(src[i].value, dst[i].value);
      if matches != Same {
        return matches;
      }
    }
    return Same;
  }

  /** The source fields by key; a later field with the same key replaces an earlier one. */
  method IndexFields(src: seq<Field>) returns (srcMap: map<Name, Value>)
    ensures srcMap.Keys == Keys(src)
    ensures forall k | k in srcMap :: srcMap[k] == Last(src, k)
  {
    srcMap := map[];
    for i := 0 to |src|
      invariant srcMap.Keys == Keys(src[..i])
      invariant forall k | k in srcMap :: srcMap[k] == Last(src[..i], k)
    {
      KeysOfOneMore(src, i);
      assert src[..i + 1][..i] == src[..i];
      srcMap := srcMap[src[i].key := src[i].value];
    }
    assert src[..|src|] == src;
  }

  lemma KeysOfOneMore(fields: seq<Field>, i: nat)
    requires i < |fields|
    ensures Keys(fields[..i + 1]) == Keys(fields[..i]) + {fields[i].key}
  {
    assert fields[..i + 1] == fields[..i] + [fields[i]];
  }

  /** What a pass over the destination's fields gathers. */
  datatype Scan = Scan(missingOnSrc: seq<Name>, differ: seq<Name>, used: set<Name>)
  {
    predicate Clean() { missingOnSrc == [] && differ == [] }
  }

  ghost predicate Scanned(scan: Scan, src: seq<Field>, dst: seq<Field>) {
    && scan.used == Keys(dst) * Keys(src)
    && scan.missingOnSrc == MissingOnSrc(src, dst)
    && scan.differ == Differing(src, dst)
    && NoError(src, dst)
  }

  method ScanField(src: seq<Field>, srcMap: map<Name, Value>, dst: seq<Field>, i: nat, scan: Scan)
    returns (r: Result<Scan>)
    requires i < |dst| && Scanned(scan, src, dst[..i])
    requires srcMap.Keys == Keys(src) && forall k | k in srcMap :: srcMap[k] == Last(src, k)
    ensures r.Ok? ==> Scanned(r.value, src, dst[..i + 1])
    ensures !r.Ok? ==> FieldAnswers(src, dst[i], Failed(r.error))
    decreases Doc(dst), 0, 0
  {
    var key, dstValue := dst[i].key, dst[i].value;
    KeysOfOneMore(dst, i);
    assert dst[..i + 1][..i] == dst[..i];
    if key !in srcMap {
      return Ok(scan.(missingOnSrc := scan.missingOnSrc + [key]));
    }
    var result := CompareValue(srcMap[key], dstValue);
    match result
    case Failed(error) => return Err(error);
    case Same => return Ok(scan.(used := scan.used + {key}));
    case Different => return Ok(scan.(used := scan.used + {key}, differ := scan.differ + [key]));
  }

  lemma CleanStep(scan: Scan, src: seq<Field>, dst: seq<Field>, i: nat)
    requires i < |dst| && Scanned(scan, src, dst[..i + 1])
    ensures scan.Clean() ==> MatchFields(src, Doc(dst), i) == MatchFields(src, Doc(dst), i + 1)
    ensures !scan.Clean() && MissingOnSrc(src, dst[..i]) == [] && Differing(src, dst[..i]) == []
        ==> MatchFields(src, Doc(dst), i) == Different
  {
    var upTo, f := dst[..i + 1], dst[i];
    assert upTo[..|upTo| - 1] == dst[..i] && f in upTo;
    if scan.Clean() {
      assert f.key in Keys(src) && !MatchValue(Last(src, f.key), f.value).Failed?;
      assert !FieldAnswers(src, f, Different);
    }
  }

  method ScanFields(src: seq<Field>, srcMap: map<Name, Value>, dst: seq<Field>, stopOnMismatch: bool)
    returns (r: Result<Scan>)
    requires srcMap.Keys == Keys(src) && forall k | k in srcMap :: srcMap[k] == Last(src, k)
    ensures !stopOnMismatch && r.Ok? ==> Scanned(r.value, src, dst)
    ensures !r.Ok? ==> !NoError(src, dst)
    ensures stopOnMismatch && !r.Ok? ==> MatchFields(src, Doc(dst), 0) == Failed(r.error)
    ensures stopOnMismatch && r.Ok? && !r.value.Clean() ==> MatchFields(src, Doc(dst), 0) == Different
    ensures stopOnMismatch && r.Ok? && r.value.Clean() ==>
      Scanned(r.value, src, dst) && MatchFields(src, Doc(dst), 0) == SameIf(Keys(src) <= Keys(dst))
    decreases Doc(dst), 0, 1
  {
    var scan := Scan([], [], {});
    for i := 0 to |dst|
      invariant Scanned(scan, src, dst[..i])
      invariant stopOnMismatch ==> scan.Clean() && MatchFields(src, Doc(dst), i) == MatchFields(src, Doc(dst), 0)
    {
      var next := ScanField(src, srcMap, dst, i, scan);
      if !next.Ok? {
        return next;
      }
      scan := next.value;
      CleanStep(scan, src, dst, i);
      if stopOnMismatch && !scan.Clean() {
        return Ok(scan);
      }
    }
    assert dst[..|dst|] == dst;
    return Ok(scan);
  }

  /** Compares fields regardless of order: all of them, or up to the first mismatch. */
  method CompareElements(src: seq<Field>, dst: seq<Field>, stopOnMismatch: bool) returns (r: Result<Option<Details>>)
    ensures stopOnMismatch ==> MatchFields(src, Doc(dst), 0) == AnswerOf(r)
    ensures !stopOnMismatch ==> (r.Ok? <==> NoError(src, dst))
    ensures !stopOnMismatch && r.Ok? ==> Explains(r.value, src, dst)
    decreases Doc(dst), 0, 2
  {
    var srcMap := IndexFields(src);
    var scanned := ScanFields(src, srcMap, dst, stopOnMismatch);
    if !scanned.Ok? {
      return Err(scanned.error);
    }
    var scan := scanned.value;
    if stopOnMismatch && !scan.Clean() {
      return Ok(Some(Details(scan.missingOnSrc, [], scan.differ)));
    }
    var missingOnDst := ListSet(srcMap.Keys - scan.used);
    assert srcMap.Keys - scan.used == Keys(src) - Keys(dst);
    NothingToList(missingOnDst, Keys(src), Keys(dst));
    if stopOnMismatch && missingOnDst != [] {
      return Ok(Some(Details([], missingOnDst[..1], [])));
    }
    if scan.Clean() && missingOnDst == [] {
      return Ok(None);
    }
    return Ok(Some(Details(scan.missingOnSrc, missingOnDst, scan.differ)));
  }

  lemma NothingToList<T(!new)>(xs: seq<T>, a: set<T>, b: set<T>)
    requires Lists(xs, a - b)
    ensures xs == [] <==> a <= b
  {
    if xs == [] {
      forall x | x in a ensures x in b {
        assert x in a - b ==> x in xs;
      }
    } else {
      assert xs[0] in a - b;
    }
  }

  /** The answer that details stand for. */
  function AnswerOf(r: Result<Option<Details>>): Answer {
    if r.Ok? then SameIf(r.value.None?) else Failed(r.error)
  }

  /** Details of a whole comparison: none if there is nothing to say, and exact otherwise. */
  ghost predicate Explains(found: Option<Details>, src: seq<Field>, dst: seq<Field>) {
    var details := if found.Some? then found.value else NoDetails;
    ExactDetails(details, src, dst) && (found.None? <==> details == NoDetails)
  }

  /** A set's elements, in whatever order a map is iterated. */
  method ListSet(s: set<Name>) returns (xs: seq<Name>)
    ensures Lists(xs, s)
  {
    xs := [];
    var rest := s;
    while rest != {}
      invariant rest <= s && Lists(xs, s - rest)
    {
      var x :| x in rest;
      xs, rest := xs + [x], rest - {x};
    }
  }
}
