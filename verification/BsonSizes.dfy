/** Computing BSON array sizes without encoding. */
module BsonSizes {
  import opened Bson

  // ------------------------------------------------------------------
  // mbson/array.go
  // ------------------------------------------------------------------

  /** The total length of the names "0", "1", … of the first `n` array elements. */
  function NamesLen(n: nat): nat { if n == 0 then 0 else NamesLen(n - 1) + Digits(n - 1) }

  /** One past the largest array length the closed form covers; the source panics beyond. */
  const NAMES_LIMIT := 1_000_000

  method GetBSONArrayTotalFieldNamesSize(arrayLen: nat) returns (bytes: nat)
    requires arrayLen < NAMES_LIMIT
    ensures bytes == NamesLen(arrayLen)
  {
    NamesLenClosedForm(arrayLen);
    if arrayLen < 10 { return arrayLen; }
    bytes := 10;
    if arrayLen < 100 { return bytes + 2 * (arrayLen - 10); }
    bytes := bytes + 90 * 2;
    if arrayLen < 1000 { return bytes + 3 * (arrayLen - 100); }
    bytes := bytes + 900 * 3;
    if arrayLen < 10000 { return bytes + 4 * (arrayLen - 1000); }
    bytes := bytes + 9000 * 4;
    if arrayLen < 100000 { return bytes + 5 * (arrayLen - 10000); }
    bytes := bytes + 90000 * 5;
    return bytes + 6 * (arrayLen - 100000);
  }

  function ClosedForm(n: nat): nat {
    if n < 10 then n
    else if n < 100 then 10 + 2 * (n - 10)
    else if n < 1000 then 190 + 3 * (n - 100)
    else if n < 10000 then 2890 + 4 * (n - 1000)
    else if n < 100000 then 38890 + 5 * (n - 10000)
    else if n < NAMES_LIMIT then 488890 + 6 * (n - 100000)
    else 0
  }

  lemma {:induction false} DigitsBelowLimit(n: nat)
    requires n < NAMES_LIMIT
    ensures Digits(n) == if n < 10 then 1 else if n < 100 then 2 else if n < 1000 then 3
                         else if n < 10000 then 4 else if n < 100000 then 5 else 6
  {
    var a, b, c, d, e := n / 10, n / 100, n / 1000, n / 10000, n / 100000;
    assert a / 10 == b && b / 10 == c && c / 10 == d && d / 10 == e;
    assert Digits(e) == 1;
    assert d >= 10 ==> Digits(d) == 2;
    assert c >= 10 ==> Digits(c) == 1 + Digits(d);
    assert b >= 10 ==> Digits(b) == 1 + Digits(c);
    assert a >= 10 ==> Digits(a) == 1 + Digits(b);
  }

  /** The closed form is the sum of the decimal digit counts. */
  lemma {:induction false} NamesLenClosedForm(n: nat)
    requires n < NAMES_LIMIT
    ensures NamesLen(n) == ClosedForm(n)
  {
    if n > 0 {
      NamesLenClosedForm(n - 1);
      DigitsBelowLimit(n - 1);
    }
  }

  function ValuesLen(els: seq<RawValue>): nat {
    if els == [] then 0 else ValuesLen(els[..|els| - 1]) + |els[|els| - 1].value|
  }

  lemma {:induction false} ArrayElementsLen(els: seq<RawValue>)
    ensures |ArrayElements(els, 0)| == NamesLen(|els|) + 2 * |els| + ValuesLen(els)
    decreases |els|
  {
    if els != [] {
      var init, el := els[..|els| - 1], els[|els| - 1];
      ArrayElementsLen(init);
      ArrayElementsAppend(init, 0, el);
      assert els == init + [el];
    }
  }

  method GetBSONArraySize(els: seq<RawValue>) returns (size: nat)
    requires |els| < NAMES_LIMIT
    ensures size == ArrayLen(els)
  {
    var totalBytes := 0;
    for i := 0 to |els|
      invariant totalBytes == ValuesLen(els[..i])
    {
      totalBytes := totalBytes + |els[i].value|;
      assert els[..i + 1][..i] == els[..i];
    }
    var names := GetBSONArrayTotalFieldNamesSize(|els|);
    size := 4 + names + 2 * |els| + totalBytes + 1;
    assert els[..|els|] == els;
    ArrayElementsLen(els);
  }

  // ------------------------------------------------------------------
  // internal/util/bson.go
  // ------------------------------------------------------------------

  class BSONArraySizer {
    var elemsSize: nat
    var count: nat
    ghost var Added: seq<RawValue>

    ghost predicate Valid()
      reads this
    {
      count == |Added| && elemsSize == |ArrayElements(Added, 0)|
    }

    constructor ()
      ensures Valid() && Added == []
    {
      elemsSize, count, Added := 0, 0, [];
    }

    method Add(el: RawValue)
      requires Valid()
      modifies this
      ensures Valid() && Added == old(Added) + [el]
    {
      var newElIndex := Itoa(count);
      elemsSize := elemsSize + 1 + |newElIndex| + 1 + |el.value|;
      count := count + 1;
      ArrayElementsAppend(Added, 0, el);
      Added := Added + [el];
    }

    /** The length of the array of everything added. */
    method Len() returns (n: nat)
      requires Valid()
      ensures n == ArrayLen(Added)
    {
      n := 5 + elemsSize;
    }
  }

  // ------------------------------------------------------------------
  // internal/verifier/recheck.go: buildRequestBSON
  // ------------------------------------------------------------------

  const TYPE_STRING: Byte := 0x02
  const TYPE_DOCUMENT: Byte := 0x03
  const TYPE_ARRAY: Byte := 0x04

  /** A string value: its length with the final NUL, the bytes, the NUL. */
  function StringValue(s: seq<Byte>): seq<Byte> { Uint32LE(|s| + 1) + s + [0] }

  function DocumentValues(docs: seq<seq<Byte>>): seq<RawValue> {
    seq(|docs|, i requires 0 <= i < |docs| => RawValue(TYPE_DOCUMENT, docs[i]))
  }

  /** The request to insert the given documents: what `buildRequestBSON` should return. */
  function InsertRequest(insert: seq<Byte>, documents: seq<Byte>, ordered: seq<Byte>, writeConcern: seq<Byte>,
                         collName: seq<Byte>, docs: seq<seq<Byte>>): seq<Byte>
  {
    Framed(Element(TYPE_STRING, insert, StringValue(collName))
           + Element(TYPE_ARRAY, documents, EncodedArray(DocumentValues(docs)))
           + ordered + writeConcern)
  }

  /** Builds the request piece by piece. Neither length check can fail, whatever the collection
      name, the documents, and the four constant pieces. `insert` and `documents` are the two
      field names; `ordered` and `writeConcern` are whole elements. */
  method BuildRequestBSON(insert: seq<Byte>, documents: seq<Byte>, ordered: seq<Byte>, writeConcern: seq<Byte>,
                          collName: seq<Byte>, rechecks: seq<seq<Byte>>)
    returns (request: seq<Byte>, panicked: bool)
    requires |rechecks| < NAMES_LIMIT
    ensures !panicked
    ensures request == InsertRequest(insert, documents, ordered, writeConcern, collName, rechecks)
  {
    var values := DocumentValues(rechecks);
    var rechecksBSONSize := GetBSONArraySize(values);
    var elements: seq<Byte> := [];
    for i := 0 to |rechecks|
      invariant elements == ArrayElements(values[..i], 0)
    {
      elements := elements + Element(TYPE_DOCUMENT, Itoa(i), rechecks[i]);
      ArrayElementsAppend(values[..i], 0, values[i]);
      assert values[..i + 1] == values[..i] + [values[i]];
    }
    assert values[..|values|] == values;
    var rechecksBSON := Uint32LE(rechecksBSONSize) + elements + [0];
    panicked := |rechecksBSON| != rechecksBSONSize;
    assert rechecksBSON == EncodedArray(values);

    var insertBaseLen, documentsBaseLen := |Element(TYPE_STRING, insert, StringValue([]))|,
                                           |Element(TYPE_ARRAY, documents, [])|;
    var expectedBSONSize := 4 + insertBaseLen + |collName| + documentsBaseLen + rechecksBSONSize
                            + |ordered| + |writeConcern| + 1;
    var body := Element(TYPE_STRING, insert, StringValue(collName));
    body := body + Element(TYPE_ARRAY, documents, rechecksBSON);
    body := body + ordered;
    body := body + writeConcern;
    var len := 4 + |body| + 1;
    panicked := panicked || len != expectedBSONSize;
    request := Uint32LE(len) + body + [0];
  }

  // ---- The bytes written out -------------------------------------------------------------

  /** The request, byte by byte: its length, a string element (type 2), an array element (type 4)
      whose values are documents (type 3), the two given elements, and a NUL; lengths and the
      strings' and names' ends as the BSON grammar has them (BSON Specification version 1.1). */
  lemma {:induction false} RequestLayout(insert: seq<Byte>, documents: seq<Byte>, ordered: seq<Byte>,
                                         writeConcern: seq<Byte>, collName: seq<Byte>, docs: seq<seq<Byte>>)
    ensures var body := [2] + insert + [0] + (Uint32LE(|collName| + 1) + collName + [0])
                        + ([4] + documents + [0] + EncodedArray(DocumentValues(docs))) + ordered + writeConcern;
      InsertRequest(insert, documents, ordered, writeConcern, collName, docs)
      == Uint32LE(4 + |body| + 1) + body + [0]
  {
  }

  lemma {:induction false} ValuesAreDocuments(docs: seq<seq<Byte>>, i: nat)
    requires i < |docs|
    ensures DocumentValues(docs)[i] == RawValue(3, docs[i])
  {
  }

  /** An array of one value: its length, the value's type, the name "0" and its NUL, the value, a NUL. */
  lemma {:induction false} OneValueArray(v: RawValue)
    ensures EncodedArray([v]) == Uint32LE(4 + (3 + |v.value|) + 1) + ([v.bsonType] + [0x30] + [0] + v.value) + [0]
  {
    assert [v][1..] == [] && Itoa(0) == [0x30];
    assert ArrayElements([v], 0) == Element(v.bsonType, Itoa(0), v.value) + [];
  }
}
