/** The byte string under which the comparator caches a document: the values of its key fields,
    each a type byte and the encoded value, without separators. */
module MapKey {
  import opened Bson
  import opened BsonSizes

  const INT32_LIMIT := 0x8000_0000

  /** The four-byte little-endian length at the start of `bytes`, if it is there and not negative. */
  function LengthPrefix(bytes: seq<Byte>): Option<nat> {
    if |bytes| < 4 then None
    else
      var n: int := bytes[0] as int + 0x100 * bytes[1] as int + 0x1_0000 * bytes[2] as int + 0x100_0000 * bytes[3] as int;
      if n < INT32_LIMIT then Some(n) else None
  }

  function Plus(a: Option<nat>, b: nat): Option<nat> { if a.Some? then Some(a.value + b) else None }

  /** The length of a NUL-terminated string, with its NUL. */
  function CStringLen(bytes: seq<Byte>): (r: Option<nat>)
    ensures r.Some? ==> 0 < r.value <= |bytes|
  {
    if bytes == [] then None
    else if bytes[0] == 0 then Some(1)
    else Plus(CStringLen(bytes[1..]), 1)
  }

  /** How many bytes a value of the given type takes at the start of `bytes`, as the value
      productions of the BSON grammar have it (BSON Specification version 1.1). */
  function ValueLen(bsonType: Byte, bytes: seq<Byte>): Option<nat> {
    match bsonType
    case 0x01 => Some(8)                              // double
    case 0x02 => Plus(LengthPrefix(bytes), 4)         // string
    case 0x03 => LengthPrefix(bytes)                  // document
    case 0x04 => LengthPrefix(bytes)                  // array
    case 0x05 => Plus(LengthPrefix(bytes), 5)         // binary: length, subtype, data
    case 0x06 => Some(0)                              // undefined
    case 0x07 => Some(12)                             // object id
    case 0x08 => Some(1)                              // boolean
    case 0x09 => Some(8)                              // date
    case 0x0A => Some(0)                              // null
    case 0x0B => RegexLen(bytes)                      // pattern and options
    case 0x0C => Plus(LengthPrefix(bytes), 16)        // DBPointer: string, object id
    case 0x0D => Plus(LengthPrefix(bytes), 4)         // code
    case 0x0E => Plus(LengthPrefix(bytes), 4)         // symbol
    case 0x0F => LengthPrefix(bytes)                  // code with scope
    case 0x10 => Some(4)                              // int32
    case 0x11 => Some(8)                              // timestamp
    case 0x12 => Some(8)                              // int64
    case 0x13 => Some(16)                             // decimal128
    case 0x7F => Some(0)                              // max key
    case 0xFF => Some(0)                              // min key
    case _ => None
  }

  function RegexLen(bytes: seq<Byte>): Option<nat> {
    var pattern := CStringLen(bytes);
    if pattern.None? then None else Plus(CStringLen(bytes[pattern.value..]), pattern.value)
  }

  /** The bytes of the value are exactly those its type and their start call for. */
  predicate WellFormed(v: RawValue) {
    ValueLen(v.bsonType, v.value) == Some(|v.value|) && (IsPrefixed(v.bsonType) ==> |v.value| >= 4)
  }

  predicate IsPrefixed(bsonType: Byte) {
    bsonType in {0x02, 0x03, 0x04, 0x05, 0x0C, 0x0D, 0x0E, 0x0F}
  }

  function Encoded(v: RawValue): seq<Byte> { [v.bsonType] + v.value }

  /** The values' encodings one after the other. */
  function KeyOf(values: seq<RawValue>): seq<Byte> {
    if values == [] then [] else Encoded(values[0]) + KeyOf(values[1..])
  }

  method RvToMapKey(buf: seq<Byte>, rv: RawValue) returns (r: seq<Byte>)
    ensures r == buf + Encoded(rv)
  {
    r := buf + [rv.bsonType];
    r := r + rv.value;
  }

  method GetMapKey(buf: seq<Byte>, docKeyValues: seq<RawValue>) returns (key: seq<Byte>)
    ensures key == buf + KeyOf(docKeyValues)
  {
    key := buf;
    for i := 0 to |docKeyValues|
      invariant key + KeyOf(docKeyValues[i..]) == buf + KeyOf(docKeyValues)
    {
      assert docKeyValues[i..][0] == docKeyValues[i] && docKeyValues[i..][1..] == docKeyValues[i + 1..];
      ghost var before := key;
      key := RvToMapKey(key, docKeyValues[i]);
      assert key + KeyOf(docKeyValues[i + 1..]) == before + KeyOf(docKeyValues[i..]);
    }
  }

  lemma {:induction false} CStringDelimitsItself(bytes: seq<Byte>, more: seq<Byte>)
    requires CStringLen(bytes).Some?
    ensures CStringLen(bytes + more) == CStringLen(bytes)
    decreases |bytes|
  {
    if bytes[0] != 0 {
      CStringDelimitsItself(bytes[1..], more);
      assert (bytes + more)[1..] == bytes[1..] + more;
    }
  }

  /** A well-formed value's length does not depend on what follows it. */
  lemma DelimitsItself(v: RawValue, more: seq<Byte>)
    requires WellFormed(v)
    ensures ValueLen(v.bsonType, v.value + more) == Some(|v.value|)
  {
    if v.bsonType == 0x0B {
      var pattern := CStringLen(v.value).value;
      CStringDelimitsItself(v.value, more);
      CStringDelimitsItself(v.value[pattern..], more);
      assert (v.value + more)[pattern..] == v.value[pattern..] + more;
    }
  }

  /** Equal keys come from equal values: types and bytes, field by field, for any numbers of
      well-formed values. */
  lemma {:induction false} KeysAreInjective(xs: seq<RawValue>, ys: seq<RawValue>)
    requires forall v | v in xs || v in ys :: WellFormed(v)
    requires KeyOf(xs) == KeyOf(ys)
    ensures xs == ys
  {
    if xs == [] || ys == [] {
      assert |KeyOf(xs)| == 0;
    } else {
      var x, y, restX, restY := xs[0], ys[0], KeyOf(xs[1..]), KeyOf(ys[1..]);
      assert KeyOf(xs) == Encoded(x) + restX && KeyOf(ys) == Encoded(y) + restY;
      assert x.bsonType == KeyOf(xs)[0] == KeyOf(ys)[0] == y.bsonType;
      assert KeyOf(xs)[1..] == x.value + restX && KeyOf(ys)[1..] == y.value + restY;
      DelimitsItself(x, restX);
      DelimitsItself(y, restY);
      assert |x.value| == |y.value|;
      assert x.value == KeyOf(xs)[1..][..|x.value|] == y.value;
      assert restX == KeyOf(xs)[1..][|x.value|..] == restY;
      KeysAreInjective(xs[1..], ys[1..]);
      assert xs == [x] + xs[1..] && ys == [y] + ys[1..];
    }
  }

  // ---- The encodings are well-formed -----------------------------------------------------

  /** A length is read back from the four bytes it is written in. */
  lemma {:induction false} LengthIsReadBack(n: nat, more: seq<Byte>)
    requires n < INT32_LIMIT
    ensures LengthPrefix(Uint32LE(n) + more) == Some(n)
  {
    FourDigits(n);
    assert (Uint32LE(n) + more)[..4] == Uint32LE(n);
  }

  /** A length from 2 to the 31 on, which as a signed number is negative, is refused. */
  lemma {:induction false} NegativeLength(n: nat, more: seq<Byte>)
    requires 0x8000_0000 <= n < 0x1_0000_0000
    ensures LengthPrefix(Uint32LE(n) + more) == None
  {
    FourDigits(n);
    assert (Uint32LE(n) + more)[..4] == Uint32LE(n);
  }

  lemma {:induction false} FourDigits(n: nat)
    requires n < 0x1_0000_0000
    ensures n % 256 + 0x100 * (n / 0x100 % 256) + 0x1_0000 * (n / 0x1_0000 % 256) + 0x100_0000 * (n / 0x100_0000 % 256) == n
  {
    var a, b, c := n / 0x100, n / 0x1_0000, n / 0x100_0000;
    assert n == 0x100 * a + n % 0x100 && a == 0x100 * b + a % 0x100 && b == 0x100 * c + b % 0x100;
    assert c < 0x100;
  }

  /** An array's encoding is a well-formed value, and so is a string's. */
  lemma {:induction false} EncodedArrayIsWellFormed(els: seq<RawValue>)
    requires ArrayLen(els) < INT32_LIMIT
    ensures WellFormed(RawValue(0x04, EncodedArray(els)))
  {
    LengthIsReadBack(4 + |ArrayElements(els, 0)| + 1, ArrayElements(els, 0) + [0]);
    assert EncodedArray(els) == Uint32LE(4 + |ArrayElements(els, 0)| + 1) + (ArrayElements(els, 0) + [0]);
  }

  lemma {:induction false} StringValueIsWellFormed(s: seq<Byte>)
    requires |s| + 1 < INT32_LIMIT
    ensures WellFormed(RawValue(0x02, StringValue(s)))
  {
    LengthIsReadBack(|s| + 1, s + [0]);
    assert StringValue(s) == Uint32LE(|s| + 1) + (s + [0]);
  }

  /** What a numeral stands for. */
  function NumeralValue(digits: seq<Byte>): int {
    if digits == [] then 0 else 10 * NumeralValue(digits[..|digits| - 1]) + digits[|digits| - 1] as int - 0x30
  }

  /** An array position's name is its decimal numeral: digits, no leading zero, and its value. */
  lemma {:induction false} NumeralOf(n: nat)
    ensures NumeralValue(Itoa(n)) == n
    ensures forall i | 0 <= i < |Itoa(n)| :: 0x30 <= Itoa(n)[i] <= 0x39
    ensures n > 0 ==> Itoa(n)[0] != 0x30
  {
    if n < 10 {
      assert Itoa(n)[..0] == [];
    } else {
      NumeralOf(n / 10);
      assert Itoa(n)[..|Itoa(n)| - 1] == Itoa(n / 10);
    }
  }

  // ---- Values of the grammar -------------------------------------------------------------

  /** The values of fixed width: none for undefined, null and the two keys; one byte, four, eight,
      twelve or sixteen for the others. */
  lemma FixedWidthValues(t: Byte, bytes: seq<Byte>)
    ensures t in {0x06, 0x0A, 0x7F, 0xFF} ==> (WellFormed(RawValue(t, bytes)) <==> |bytes| == 0)
    ensures t == 0x08 ==> (WellFormed(RawValue(t, bytes)) <==> |bytes| == 1)
    ensures t == 0x10 ==> (WellFormed(RawValue(t, bytes)) <==> |bytes| == 4)
    ensures t in {0x01, 0x09, 0x11, 0x12} ==> (WellFormed(RawValue(t, bytes)) <==> |bytes| == 8)
    ensures t == 0x07 ==> (WellFormed(RawValue(t, bytes)) <==> |bytes| == 12)
    ensures t == 0x13 ==> (WellFormed(RawValue(t, bytes)) <==> |bytes| == 16)
  {
  }

  /** The values that start with their length: of the bytes after it and a subtype for binaries, of
      the string with its NUL for strings, code, symbols and database pointers (before an object id),
      and of themselves for documents, arrays and code with scope. */
  lemma {:induction false} PrefixedValues(n: nat, bytes: seq<Byte>)
    requires n < 0x8000_0000
    ensures WellFormed(RawValue(0x05, Uint32LE(n) + bytes)) <==> |bytes| == n + 1
    ensures forall t: Byte | t in {0x02, 0x0D, 0x0E} :: WellFormed(RawValue(t, Uint32LE(n) + bytes)) <==> |bytes| == n
    ensures WellFormed(RawValue(0x0C, Uint32LE(n) + bytes)) <==> |bytes| == n + 12
    ensures forall t: Byte | t in {0x03, 0x04, 0x0F} :: WellFormed(RawValue(t, Uint32LE(n) + bytes)) <==> 4 + |bytes| == n
  {
    LengthIsReadBack(n, bytes);
  }

  /** A regular expression is two NUL-terminated strings. */
  lemma {:induction false} RegexValues(pattern: seq<Byte>, options: seq<Byte>)
    requires 0 !in pattern && 0 !in options
    ensures WellFormed(RawValue(0x0B, pattern + [0] + (options + [0])))
  {
    CStringEnds(pattern, options + [0]);
    CStringEnds(options, []);
    assert options + [0] + [] == options + [0];
    assert (pattern + [0] + (options + [0]))[|pattern| + 1..] == options + [0];
  }

  lemma {:induction false} CStringEnds(s: seq<Byte>, more: seq<Byte>)
    requires 0 !in s
    ensures CStringLen(s + [0] + more) == Some(|s| + 1)
  {
    if s != [] {
      assert s[0] in s;
      CStringEnds(s[1..], more);
      assert (s + [0] + more)[0] == s[0] && (s + [0] + more)[1..] == s[1..] + [0] + more;
    }
  }
}
