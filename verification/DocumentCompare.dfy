/** The comparison of two documents with the same key, and the findings it yields. */
module DocumentCompare {
  import opened Bson
  import opened BsonCompare
  import opened BsonEquivalence

  datatype How = Binary | IgnoreOrder | ToHashedIndexKey

  datatype What = Missing | Mismatch | TypeMismatch(src: Byte, dst: Byte) | OnlyFieldOrder

  datatype Finding = Finding(id: Value, field: Name, what: What, cluster: Cluster, dataSize: nat)

  datatype Outcome = Found(findings: seq<Finding>) | NoId | CannotCompare(error: Error)

  const ID: Name := [95, 105, 100]
  const DOC_KEY: Name := [107]

  /** A lookup by key yields the first such field. */
  function First(fields: seq<Field>, key: Name): Option<Value> {
    if fields == [] then None
    else if fields[0].key == key then Some(fields[0].value)
    else First(fields[1..], key)
  }

  /** A document's `_id`; with hashed comparison it is inside the projected document key. */
  function IdOf(how: How, doc: Value): Option<Value> {
    if how.ToHashedIndexKey? then
      var k := First(DocFields(doc), DOC_KEY);
      if k.None? then None else First(DocFields(k.value), ID)
    else First(DocFields(doc), ID)
  }

  function TypeOf(v: Value): Byte {
    match v case Leaf(t, _) => t case Doc(_) => 3 case Arr(_) => 4
  }

  /** The length of a value's encoding. */
  function Len(v: Value): nat {
    match v
    case Leaf(_, bytes) => |bytes|
    case Doc(fields) => 4 + FieldsLen(v, |fields|) + 1
    case Arr(elements) => 4 + FieldsLen(v, |elements|) + 1
  }

  function FieldsLen(v: Value, n: nat): nat
    requires n <= |DocFields(v)|
    decreases v, 0, n
  {
    if n == 0 then 0
    else FieldsLen(v, n - 1) + 1 + |DocFields(v)[n - 1].key| + 1 + Len(DocFields(v)[n - 1].value)
  }

  function Max(a: nat, b: nat): nat { if a >= b then a else b }

  function MissingRows(names: seq<Name>, id: Value, cluster: Cluster): (r: seq<Finding>)
    ensures |r| == |names|
  {
    seq(|names|, i requires 0 <= i < |names| => Finding(id, names[i], Missing, cluster, 0))
  }

  /** How two values under one key differ: by type, or by content alone. */
  function DifferRow(name: Name, s: Value, d: Value, id: Value): Finding {
    var sv, dv := First(DocFields(s), name), First(DocFields(d), name);
    var st, dt := if sv.Some? then TypeOf(sv.value) else 0, if dv.Some? then TypeOf(dv.value) else 0;
    Finding(id, name, if st != dt then TypeMismatch(st, dt) else Mismatch, Dst, 0)
  }

  function DifferRows(names: seq<Name>, s: Value, d: Value, id: Value): (r: seq<Finding>)
    ensures |r| == |names|
  {
    seq(|names|, i requires 0 <= i < |names| => DifferRow(names[i], s, d, id))
  }

  function DetailRows(details: Details, s: Value, d: Value, id: Value): seq<Finding> {
    MissingRows(details.missingOnSrc, id, Src)
    + MissingRows(details.missingOnDst, id, Dst)
    + DifferRows(details.differ, s, d, id)
  }

  /** The findings about two documents that are not equal byte by byte. */
  function Findings(how: How, found: Option<Details>, s: Value, d: Value, id: Value): seq<Finding> {
    match found
    case Some(details) => DetailRows(details, s, d, id)
    case None =>
      if how.IgnoreOrder? then [] else [Finding(id, [], OnlyFieldOrder, Dst, Max(Len(s), Len(d)))]
  }

  method ListMissing(names: seq<Name>, id: Value, cluster: Cluster) returns (rows: seq<Finding>)
    ensures rows == MissingRows(names, id, cluster)
  {
    rows := [];
    for i := 0 to |names|
      invariant rows == MissingRows(names, id, cluster)[..i]
    {
      rows := rows + [Finding(id, names[i], Missing, cluster, 0)];
    }
  }

  method ListDiffering(names: seq<Name>, s: Value, d: Value, id: Value) returns (rows: seq<Finding>)
    ensures rows == DifferRows(names, s, d, id)
  {
    rows := [];
    for i := 0 to |names|
      invariant rows == DifferRows(names, s, d, id)[..i]
    {
      rows := rows + [DifferRow(names[i], s, d, id)];
    }
  }

  method ToFindings(details: Details, s: Value, d: Value, id: Value) returns (rows: seq<Finding>)
    ensures rows == DetailRows(details, s, d, id)
  {
    var onSrc := ListMissing(details.missingOnSrc, id, Src);
    var onDst := ListMissing(details.missingOnDst, id, Dst);
    var differing := ListDiffering(details.differ, s, d, id);
    rows := onSrc + onDst + differing;
  }

  /** What a comparison of two documents comes to. */
  ghost predicate Answers(how: How, s: Value, d: Value, r: Outcome, found: Option<Details>)
    requires s.Doc? && d.Doc?
  {
    && (s == d ==> r == Found([]))
    && (s != d && IdOf(how, s).None? ==> r == NoId)
    && (s != d && IdOf(how, s).Some? && how.ToHashedIndexKey? ==>
          r == Found([Finding(IdOf(how, s).value, [], Mismatch, Dst, 0)]))
    && (s != d && IdOf(how, s).Some? && !how.ToHashedIndexKey? ==>
          && (r.CannotCompare? <==> !NoError(s.fields, d.fields))
          && (NoError(s.fields, d.fields) ==>
                Explains(found, s.fields, d.fields) && r == Found(Findings(how, found, s, d, IdOf(how, s).value))))
    && (WellFormed(s) && WellFormed(d) && IdOf(how, s).Some? ==>
          r.Found? && (r.findings == [] <==> SameDocument(how, s, d)))
  }

  /** What counts as the same document. */
  ghost predicate SameDocument(how: How, s: Value, d: Value) {
    s == d || (how.IgnoreOrder? && EqualUpToOrder(s, d))
  }

  /** Compares two documents. Whatever the findings, with the ids in place there are none
      exactly if the documents are equal, or equal up to field order where order is ignored. */
  method CompareOneDocument(how: How, s: Value, d: Value) returns (r: Outcome, ghost found: Option<Details>)
    requires s.Doc? && d.Doc?
    ensures Answers(how, s, d, r, found)
  {
    found := None;
    if s == d {
      return Found([]), None;
    }
    var docId := IdOf(how, s);
    if docId.None? {
      return NoId, None;
    }
    if how.ToHashedIndexKey? {
      return Found([Finding(docId.value, [], Mismatch, Dst, 0)]), None;
    }
    var mismatch := CompareElements(s.fields, d.fields, false);
    if !mismatch.Ok? {
      NoErrorIfWellFormed(s, d);
      return CannotCompare(mismatch.error), None;
    }
    found := mismatch.value;
    NoDetailsIffSame(s.fields, d.fields, found);
    if WellFormed(s) && WellFormed(d) { SameIffEqualUpToOrder(s, d); }
    if mismatch.value.None? {
      if how.IgnoreOrder? {
        return Found([]), found;
      }
      return Found([Finding(docId.value, [], OnlyFieldOrder, Dst, Max(Len(s), Len(d)))]), found;
    }
    var rows := ToFindings(mismatch.value.value, s, d, docId.value);
    return Found(rows), found;
  }

  lemma {:induction false} NoErrorIfWellFormed(s: Value, d: Value)
    requires s.Doc? && d.Doc?
    ensures WellFormed(s) && WellFormed(d) ==> NoError(s.fields, d.fields)
  {
    if WellFormed(s) && WellFormed(d) {
      forall f | f in d.fields && f.key in Keys(s.fields)
        ensures !MatchValue(Last(s.fields, f.key), f.value).Failed?
      {
        LastIsField(s.fields, f.key);
        NoFailure(Last(s.fields, f.key), f.value);
      }
    }
  }

  /** The stopping comparison and the detailed one agree: no details exactly if all match. */
  lemma {:induction false} NoDetailsIffSame(src: seq<Field>, dst: seq<Field>, found: Option<Details>)
    requires NoError(src, dst) && Explains(found, src, dst)
    ensures found.None? <==> MatchFields(src, Doc(dst), 0) == Same
    ensures found.Some? ==> MatchFields(src, Doc(dst), 0) == Different
  {
    MatchUpTo(src, dst, |dst|);
    assert dst[..|dst|] == dst;
    var details := if found.Some? then found.value else NoDetails;
    NothingToList(details.missingOnDst, Keys(src), Keys(dst));
  }

  lemma {:induction false} MatchUpTo(src: seq<Field>, dst: seq<Field>, i: nat)
    requires NoError(src, dst) && i <= |dst|
    ensures MatchFields(src, Doc(dst), 0) ==
      if MissingOnSrc(src, dst[..i]) == [] && Differing(src, dst[..i]) == [] then MatchFields(src, Doc(dst), i)
      else Different
  {
    if i > 0 {
      MatchUpTo(src, dst, i - 1);
      var upTo, f := dst[..i], dst[i - 1];
      assert upTo[..|upTo| - 1] == dst[..i - 1] && f in dst;
    }
  }

  /** What the details list: the exact differences of the two key sets, and exactly the shared
      keys whose values are not equal up to field order. */
  lemma {:induction false} DetailsAreExact(s: Value, d: Value, details: Details, key: Name)
    requires s.Doc? && d.Doc? && WellFormed(s) && WellFormed(d)
    requires ExactDetails(details, s.fields, d.fields)
    ensures key in details.missingOnSrc <==> key in Keys(d.fields) - Keys(s.fields)
    ensures key in details.missingOnDst <==> key in Keys(s.fields) - Keys(d.fields)
    ensures key in details.differ <==>
      && key in Keys(s.fields) && key in Keys(d.fields)
      && !EqualUpToOrder(Last(s.fields, key), Last(d.fields, key))
  {
    MissingOnSrcLists(s.fields, d.fields, key);
    DifferingLists(s.fields, d.fields, key);
    if key in Keys(s.fields) && key in Keys(d.fields) {
      LastIsField(s.fields, key);
      LastIsField(d.fields, key);
      SameIffEqualUpToOrder(Last(s.fields, key), Last(d.fields, key));
      forall f | f in d.fields && f.key == key ensures f.value == Last(d.fields, key) {
        var j :| 0 <= j < |d.fields| && d.fields[j] == f;
        OnlyOneField(d.fields, j);
      }
    }
  }

  lemma {:induction false} MissingOnSrcLists(src: seq<Field>, dst: seq<Field>, key: Name)
    ensures key in MissingOnSrc(src, dst) <==> key in Keys(dst) - Keys(src)
    decreases |dst|
  {
    if dst != [] {
      MissingOnSrcLists(src, dst[..|dst| - 1], key);
      KeysOfOneMore(dst, |dst| - 1);
      assert dst[..|dst| - 1 + 1] == dst;
    }
  }

  lemma {:induction false} DifferingLists(src: seq<Field>, dst: seq<Field>, key: Name)
    ensures key in Differing(src, dst) <==> exists f :: f in dst && f.key == key && FieldAnswers(src, f, Different)
    decreases |dst|
  {
    if dst != [] {
      var first, last := dst[..|dst| - 1], dst[|dst| - 1];
      DifferingLists(src, first, key);
      assert forall f :: f in dst <==> f in first || f == last;
    }
  }

  /** What the findings say of a key, in the document's own terms: missing on the source if only
      the destination has it, missing on the target if only the source has it, and different if
      both have it and the values are not equal up to order. */
  lemma {:induction false} FindingsAreExact(s: Value, d: Value, details: Details, id: Value, key: Name)
    requires s.Doc? && d.Doc? && WellFormed(s) && WellFormed(d)
    requires ExactDetails(details, s.fields, d.fields)
    ensures var rows := DetailRows(details, s, d, id);
      && (Finding(id, key, Missing, Src, 0) in rows <==> key in Keys(d.fields) - Keys(s.fields))
      && (Finding(id, key, Missing, Dst, 0) in rows <==> key in Keys(s.fields) - Keys(d.fields))
      && (DifferRow(key, s, d, id) in rows <==>
          && key in Keys(s.fields) && key in Keys(d.fields)
          && !EqualUpToOrder(Last(s.fields, key), Last(d.fields, key)))
  {
    DetailsAreExact(s, d, details, key);
    RowsListed(details, s, d, id, key);
  }

  lemma RowsListed(details: Details, s: Value, d: Value, id: Value, key: Name)
    ensures var rows := DetailRows(details, s, d, id);
      && (Finding(id, key, Missing, Src, 0) in rows <==> key in details.missingOnSrc)
      && (Finding(id, key, Missing, Dst, 0) in rows <==> key in details.missingOnDst)
      && (DifferRow(key, s, d, id) in rows <==> key in details.differ)
  {
    var onSrc, onDst := MissingRows(details.missingOnSrc, id, Src), MissingRows(details.missingOnDst, id, Dst);
    var differing := DifferRows(details.differ, s, d, id);
    MissingRowsList(details.missingOnSrc, id, Src, key);
    MissingRowsList(details.missingOnDst, id, Dst, key);
    DifferRowsList(details.differ, s, d, id, key);
    assert forall f :: f in onSrc + onDst + differing <==> f in onSrc || f in onDst || f in differing;
  }

  lemma MissingRowsList(names: seq<Name>, id: Value, cluster: Cluster, key: Name)
    ensures Finding(id, key, Missing, cluster, 0) in MissingRows(names, id, cluster) <==> key in names
    ensures forall f | f in MissingRows(names, id, cluster) :: f.what == Missing && f.cluster == cluster
  {
    if key in names {
      var i :| 0 <= i < |names| && names[i] == key;
      assert MissingRows(names, id, cluster)[i] == Finding(id, key, Missing, cluster, 0);
    }
  }

  lemma DifferRowsList(names: seq<Name>, s: Value, d: Value, id: Value, key: Name)
    ensures DifferRow(key, s, d, id) in DifferRows(names, s, d, id) <==> key in names
    ensures forall f | f in DifferRows(names, s, d, id) :: f.what != Missing
  {
    if key in names {
      var i :| 0 <= i < |names| && names[i] == key;
      assert DifferRows(names, s, d, id)[i] == DifferRow(key, s, d, id);
    }
  }

  // ---- Whose findings they are -----------------------------------------------------------

  /** Field `j` is the first with its name. */
  predicate IsFirstNamed(fields: seq<Field>, name: Name, j: nat) {
    j < |fields| && fields[j].key == name && forall i | 0 <= i < j :: fields[i].key != name
  }

  lemma {:induction false} FirstIsFirst(fields: seq<Field>, name: Name)
    ensures First(fields, name).None? <==> forall f | f in fields :: f.key != name
    ensures forall j: nat :: IsFirstNamed(fields, name, j) ==> First(fields, name) == Some(fields[j].value)
  {
    if fields != [] {
      FirstIsFirst(fields[1..], name);
      forall j: nat | IsFirstNamed(fields, name, j) ensures First(fields, name) == Some(fields[j].value) {
        if j > 0 {
          assert fields[0].key != name;
          assert IsFirstNamed(fields[1..], name, j - 1) by {
            assert forall i | 0 <= i < j - 1 :: fields[1..][i] == fields[i + 1];
          }
        }
      }
    }
  }

  /** Under the binary and the order-ignoring comparison the findings are about the value of the
      first field named `_id`; if no field is, documents that differ cannot be reported. */
  lemma FindingsBearTheId(how: How, s: Value, d: Value, r: Outcome, found: Option<Details>, j: nat)
    requires s.Doc? && d.Doc? && Answers(how, s, d, r, found) && !how.ToHashedIndexKey?
    ensures IsFirstNamed(s.fields, [0x5F, 0x69, 0x64], j) ==>
      r != NoId && (r.Found? ==> forall f | f in r.findings :: f.id == s.fields[j].value)
    ensures r == NoId <==> s != d && forall f | f in s.fields :: f.key != [0x5F, 0x69, 0x64]
  {
    FirstIsFirst(s.fields, [0x5F, 0x69, 0x64]);
  }

  /** Under the hashed comparison, about the `_id` inside the first field named `k`. */
  lemma HashedFindingsBearTheId(s: Value, d: Value, r: Outcome, found: Option<Details>, j: nat, m: nat)
    requires s.Doc? && d.Doc? && Answers(ToHashedIndexKey, s, d, r, found)
    requires IsFirstNamed(s.fields, [0x6B], j)
    ensures var key := DocFields(s.fields[j].value);
      && (IsFirstNamed(key, [0x5F, 0x69, 0x64], m) ==>
            r != NoId && (r.Found? ==> forall f | f in r.findings :: f.id == key[m].value))
      && (r == NoId <==> s != d && forall f | f in key :: f.key != [0x5F, 0x69, 0x64])
  {
    FirstIsFirst(s.fields, [0x6B]);
    FirstIsFirst(DocFields(s.fields[j].value), [0x5F, 0x69, 0x64]);
  }

  lemma NoKeyNoId(s: Value, d: Value, r: Outcome, found: Option<Details>)
    requires s.Doc? && d.Doc? && s != d && Answers(ToHashedIndexKey, s, d, r, found)
    requires forall f | f in s.fields :: f.key != [0x6B]
    ensures r == NoId
  {
    FirstIsFirst(s.fields, [0x6B]);
  }

  // ---- What a finding says ---------------------------------------------------------------

  /** A value's encoding; documents and arrays (types 3 and 4) hold elements of type, name, value. */
  function Encode(v: Value): seq<Byte> {
    match v
    case Leaf(_, bytes) => bytes
    case Doc(fields) => Framed(EncodeFields(v, |fields|))
    case Arr(elements) => Framed(EncodeFields(v, |elements|))
  }

  function EncodeFields(v: Value, n: nat): seq<Byte>
    requires n <= |DocFields(v)|
    decreases v, 0, n
  {
    if n == 0 then []
    else
      var f := DocFields(v)[n - 1];
      EncodeFields(v, n - 1)
      + Element(match f.value case Leaf(t, _) => t case Doc(_) => 3 case Arr(_) => 4, f.key, Encode(f.value))
  }

  lemma {:induction false} LenIsEncodedLen(v: Value)
    ensures Len(v) == |Encode(v)|
    decreases v, 1
  {
    match v
    case Leaf(_, _) =>
    case Doc(fields) => FieldsLenIsEncodedLen(v, |fields|);
    case Arr(elements) => FieldsLenIsEncodedLen(v, |elements|);
  }

  lemma {:induction false} FieldsLenIsEncodedLen(v: Value, n: nat)
    requires n <= |DocFields(v)|
    ensures FieldsLen(v, n) == |EncodeFields(v, n)|
    decreases v, 0, n
  {
    if n > 0 {
      FieldsLenIsEncodedLen(v, n - 1);
      LenIsEncodedLen(DocFields(v)[n - 1].value);
    }
  }

  /** Documents that differ in field order alone, where order counts: one finding, about the whole
      document on the target, of the size of the longer encoding. */
  lemma {:induction false} OrderFindingIs(s: Value, d: Value, id: Value)
    ensures var found := Findings(Binary, None, s, d, id);
      && |found| == 1 && found[0].id == id && found[0].field == [] && found[0].what == OnlyFieldOrder
      && found[0].cluster == Dst
      && found[0].dataSize >= |Encode(s)| && found[0].dataSize >= |Encode(d)|
      && (found[0].dataSize == |Encode(s)| || found[0].dataSize == |Encode(d)|)
  {
    LenIsEncodedLen(s);
    LenIsEncodedLen(d);
  }

  /** A differing field: its types if those differ, document and array being types 3 and 4. */
  lemma DifferFindingIs(key: Name, s: Value, d: Value, id: Value, i: nat, j: nat)
    requires s.Doc? && d.Doc? && IsFirstNamed(s.fields, key, i) && IsFirstNamed(d.fields, key, j)
    ensures var f, sv, dv := DifferRow(key, s, d, id), s.fields[i].value, d.fields[j].value;
      && f.id == id && f.field == key && f.cluster == Dst && f.dataSize == 0
      && (f.what.TypeMismatch? || f.what == Mismatch)
      && (sv.Leaf? && dv.Leaf? ==>
            f.what == if sv.bsonType != dv.bsonType then TypeMismatch(sv.bsonType, dv.bsonType) else Mismatch)
      && (sv.Doc? && dv.Arr? ==> f.what == TypeMismatch(3, 4))
      && (sv.Arr? && dv.Doc? ==> f.what == TypeMismatch(4, 3))
      && (sv.Doc? && dv.Leaf? ==> f.what == if dv.bsonType != 3 then TypeMismatch(3, dv.bsonType) else Mismatch)
      && (sv.Doc? && dv.Doc? ==> f.what == Mismatch)
      && (sv.Arr? && dv.Arr? ==> f.what == Mismatch)
  {
    FirstIsFirst(s.fields, key);
    FirstIsFirst(d.fields, key);
  }
}
