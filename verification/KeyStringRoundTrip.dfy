/** An encoder of version 1 key strings, and the proof that the decoder inverts it. */
module KeyStringRoundTrip {
  import opened Bson
  import opened KeyString

  // ---- Integers --------------------------------------------------------------------------

  function Pow256(k: nat): (r: nat)
    ensures r > 0
  {
    if k == 0 then 1 else 256 * Pow256(k - 1)
  }

  /** The last `k` bytes of a number, most significant first. */
  function BigEndian(n: nat, k: nat): (r: Bytes)
    ensures |r| == k
  {
    if k == 0 then [] else BigEndian(n / 256, k - 1) + [n % 256]
  }

  /** How many bytes a number needs. */
  function ByteCount(n: nat): (k: nat)
    ensures k >= 1
  {
    if n < 256 then 1 else 1 + ByteCount(n / 256)
  }

  lemma {:induction false} BigEndianValue(n: nat, k: nat)
    requires n < Pow256(k)
    ensures Accumulate(0, BigEndian(n, k)) == n
    decreases k
  {
    if k > 0 {
      BigEndianValue(n / 256, k - 1);
      AccumulateParts(0, BigEndian(n / 256, k - 1), [n % 256]);
      assert Accumulate(n / 256, [n % 256]) == n / 256 * 256 + n % 256 by { assert [n % 256][1..] == []; }
    }
  }

  lemma {:induction false} ByteCountFits(n: nat, k: nat)
    requires n < Pow256(k) && k >= 1
    ensures ByteCount(n) <= k && n < Pow256(ByteCount(n))
    decreases k
  {
    if n >= 256 {
      assert k >= 2;
      ByteCountFits(n / 256, k - 1);
    }
  }

  lemma EightBytes()
    ensures Pow256(8) == TWO_TO_THE_64 && Pow256(4) == 0x1_0000_0000
  {
    assert Pow256(4) == 256 * (256 * (256 * 256)) by { assert Pow256(2) == 256 * 256; }
    assert Pow256(6) == 256 * (256 * Pow256(4));
  }

  lemma InvertedTwice(bs: Bytes)
    ensures Inverted(Inverted(bs)) == bs
  {
  }

  function Abs(n: int): nat { if n < 0 then -n else n }

  /** An integer's bytes: twice its magnitude in as few bytes as hold it, inverted if negative. */
  function IntBody(n: int): Bytes {
    if n == 0 then [] else Sign(n < 0, BigEndian(2 * Abs(n), ByteCount(2 * Abs(n))))
  }

  function IntType(n: int): Byte
    requires Abs(n) < TWO_TO_THE_63
  {
    IntWidth(n);
    if n == 0 then ZERO
    else if n > 0 then POSITIVE_1_BYTE + ByteCount(2 * n) - 1
    else NEGATIVE_1_BYTE - ByteCount(-2 * n) + 1
  }

  lemma IntWidth(n: int)
    requires Abs(n) < TWO_TO_THE_63
    ensures ByteCount(2 * Abs(n)) <= 8 && 2 * Abs(n) < Pow256(ByteCount(2 * Abs(n)))
  {
    EightBytes();
    ByteCountFits(2 * Abs(n), 8);
  }

  lemma IntRoundTrip(n: int, rest: Bytes)
    requires Abs(n) < TWO_TO_THE_63
    ensures ReadPlain(IntType(n), IntBody(n) + rest) == Parsed(NormalInt(n), rest)
  {
    IntWidth(n);
    if n == 0 {
      assert IntBody(n) + rest == rest;
    } else {
      var bs, k := BigEndian(2 * Abs(n), ByteCount(2 * Abs(n))), ByteCount(2 * Abs(n));
      assert (IntBody(n) + rest)[..k] == Sign(n < 0, bs) && (IntBody(n) + rest)[k..] == rest;
      InvertedTwice(bs);
      BigEndianValue(2 * Abs(n), k);
      NumberOf(n, k, IntBody(n) + rest);
    }
  }

  lemma NumberOf(n: int, k: nat, bs: Bytes)
    requires n != 0 && 1 <= k <= 8 && |bs| >= k
    requires Accumulate(0, Sign(n < 0, bs[..k])) == 2 * Abs(n)
    ensures ReadNumber(n < 0, k, bs) == Parsed(Integer(n), bs[k..])
  {
  }

  function NormalInt(n: int): Value { if n == 0 then Zero else Integer(n) }

  // ---- Doubles ---------------------------------------------------------------------------

  const TWO_TO_THE_60 := 0x1000_0000_0000_0000

  /** The bits of doubles from 2 to the -255 on, without the sign. */
  predicate PlainBits(bits: nat) { 3 * TWO_TO_THE_60 <= bits < TWO_TO_THE_63 }

  /** From 2 on, a double's leading exponent bit is set; the encoding leaves it out. */
  predicate IsLarge(bits: nat) { bits >= TWO_TO_THE_62 }

  /** The eight bytes of a double, as a number: without a decimal continuation, the large ones
      twice their bits without the leading one, the others four times their bits. */
  function PlainCode(bits: nat): nat
    requires PlainBits(bits)
  {
    if IsLarge(bits) then 2 * (bits - TWO_TO_THE_62) else 4 * bits
  }

  /** Those below 2 to the -255 are scaled up before. */
  function ScaledCode(bits: nat): nat { 2 * bits + TWO_TO_THE_62 }

  const INFINITY_CODE := TWO_TO_THE_64 - 1

  function Magnitude(negative: bool, code: nat): Bytes { Sign(negative, BigEndian(code, 8)) }

  function LargeType(negative: bool): Byte { if negative then NEGATIVE_LARGE else POSITIVE_LARGE }

  function SmallType(negative: bool): Byte { if negative then NEGATIVE_SMALL else POSITIVE_SMALL }

  lemma MagnitudeValue(negative: bool, code: nat, rest: Bytes)
    requires code < TWO_TO_THE_64
    ensures var bs := Magnitude(negative, code) + rest;
      |bs| >= 8 && Accumulate(0, Sign(negative, bs[..8])) == code && bs[8..] == rest
  {
    EightBytes();
    BigEndianValue(code, 8);
    InvertedTwice(BigEndian(code, 8));
    var bs := Magnitude(negative, code) + rest;
    assert bs[..8] == Magnitude(negative, code);
  }

  lemma LargeOf(negative: bool, bits: nat, bs: Bytes)
    requires TWO_TO_THE_62 <= bits < TWO_TO_THE_63 && |bs| >= 8
    requires Accumulate(0, Sign(negative, bs[..8])) == 2 * (bits - TWO_TO_THE_62)
    ensures ReadLarge(negative, bs) == Parsed(DoubleBits(negative, bits), bs[8..])
  {
  }

  lemma SmallOf(negative: bool, bits: nat, bs: Bytes)
    requires 3 * TWO_TO_THE_60 <= bits < TWO_TO_THE_62 && |bs| >= 8
    requires Accumulate(0, Sign(negative, bs[..8])) == 4 * bits
    ensures ReadSmall(negative, bs) == Parsed(DoubleBits(negative, bits), bs[8..])
  {
  }

  lemma ScaledOf(negative: bool, bits: nat, bs: Bytes)
    requires bits < TWO_TO_THE_62 && |bs| >= 8
    requires Accumulate(0, Sign(negative, bs[..8])) == 2 * bits + TWO_TO_THE_62
    ensures ReadSmall(negative, bs) == Parsed(ScaledDoubleBits(negative, bits), bs[8..])
  {
    HalfOfTwice(bits);
  }

  lemma HalfOfTwice(bits: nat)
    ensures (2 * bits + TWO_TO_THE_62 - TWO_TO_THE_62) / 2 == bits && (2 * bits + TWO_TO_THE_62) % 2 == 0
  {
  }

  /** Doubles are decoded to their own bits, whatever follows. */
  lemma DoubleRoundTrip(negative: bool, bits: nat, rest: Bytes)
    requires PlainBits(bits)
    ensures var bs := Magnitude(negative, PlainCode(bits)) + rest;
      (if IsLarge(bits) then ReadLarge(negative, bs) else ReadSmall(negative, bs))
      == Parsed(DoubleBits(negative, bits), rest)
  {
    var bs := Magnitude(negative, PlainCode(bits)) + rest;
    MagnitudeValue(negative, PlainCode(bits), rest);
    if IsLarge(bits) {
      LargeOf(negative, bits, bs);
    } else {
      SmallOf(negative, bits, bs);
    }
  }

  lemma ScaledRoundTrip(negative: bool, bits: nat, rest: Bytes)
    requires bits < TWO_TO_THE_62
    ensures ReadSmall(negative, Magnitude(negative, ScaledCode(bits)) + rest)
         == Parsed(ScaledDoubleBits(negative, bits), rest)
  {
    MagnitudeValue(negative, ScaledCode(bits), rest);
    ScaledOf(negative, bits, Magnitude(negative, ScaledCode(bits)) + rest);
  }

  lemma InfinityRoundTrip(negative: bool, rest: Bytes)
    ensures ReadLarge(negative, Magnitude(negative, INFINITY_CODE) + rest) == Parsed(Infinity(negative), rest)
  {
    MagnitudeValue(negative, INFINITY_CODE, rest);
  }

  // ---- Fractions -------------------------------------------------------------------------

  /** A number without its last `k` bytes. */
  function DropBytes(n: nat, k: nat): nat { if k == 0 then n else DropBytes(n / 256, k - 1) }

  lemma {:induction false} LastBytes(n: nat, k: nat)
    ensures Accumulate(DropBytes(n, k), BigEndian(n, k)) == n
    decreases k
  {
    if k > 0 {
      LastBytes(n / 256, k - 1);
      AccumulateParts(DropBytes(n / 256, k - 1), BigEndian(n / 256, k - 1), [n % 256]);
      assert Accumulate(n / 256, [n % 256]) == n / 256 * 256 + n % 256 by { assert [n % 256][1..] == []; }
    }
  }

  /** A scaled integer that the decoder can come to without a decimal continuation: `k` bytes of
      fraction, the others for the integer part and the bit that says that there is a fraction. */
  predicate PlainFraction(numerator: nat, k: nat) {
    1 <= k <= 7 && numerator % 4 == 0 && 2 * DropBytes(numerator, k) + 1 < Pow256(8 - k)
  }

  function FractionBody(negative: bool, numerator: nat, k: nat): Bytes
    requires PlainFraction(numerator, k)
  {
    Sign(negative, BigEndian(2 * DropBytes(numerator, k) + 1, 8 - k)) + Sign(negative, BigEndian(numerator, k))
  }

  function FractionType(negative: bool, k: nat): Byte
    requires 1 <= k <= 7
  {
    if negative then NEGATIVE_1_BYTE - (8 - k) + 1 else POSITIVE_1_BYTE + (8 - k) - 1
  }

  lemma FractionRoundTrip(negative: bool, numerator: nat, k: nat, rest: Bytes)
    requires PlainFraction(numerator, k)
    ensures ReadNumber(negative, 8 - k, FractionBody(negative, numerator, k) + rest)
         == Parsed(Fraction(negative, numerator, k), rest)
  {
    var n, whole := 8 - k, 2 * DropBytes(numerator, k) + 1;
    var a, b := BigEndian(whole, n), BigEndian(numerator, k);
    var bs := FractionBody(negative, numerator, k) + rest;
    BigEndianValue(whole, n);
    LastBytes(numerator, k);
    InvertedTwice(a);
    InvertedTwice(b);
    assert bs[..n] == Sign(negative, a) && bs[n..8] == Sign(negative, b) && bs[8..] == rest;
    FractionOf(negative, n, bs, DropBytes(numerator, k), numerator);
  }

  lemma {:induction false} FractionOf(negative: bool, n: nat, bs: Bytes, magnitude: nat, numerator: nat)
    requires 1 <= n <= 7 && |bs| >= 8 && numerator % 4 == 0
    requires Accumulate(0, Sign(negative, bs[..n])) == 2 * magnitude + 1
    requires Accumulate(magnitude, Sign(negative, bs[n..8])) == numerator
    ensures ReadNumber(negative, n, bs) == Parsed(Fraction(negative, numerator, 8 - n), bs[8..])
  {
  }

  // ---- Strings ---------------------------------------------------------------------------

  predicate NoNul(s: Bytes) { 0 !in s }

  /** A string's bytes: each NUL followed by 0xFF, and a NUL at the end. */
  function StrBody(s: Bytes): (r: Bytes)
    ensures r != []
  {
    if s == [] then [0]
    else if s[0] == 0 then [0, 0xFF] + StrBody(s[1..])
    else [s[0]] + StrBody(s[1..])
  }

  /** What may follow a string: not the byte that continues it. */
  predicate Ends(rest: Bytes) { rest == [] || rest[0] != 0xFF }

  lemma {:induction false} StrRoundTrip(s: Bytes, rest: Bytes)
    requires Ends(rest)
    ensures ReadStringWithNuls(StrBody(s) + rest) == Parsed(s, rest)
  {
    if s == [] {
      Cons(0, rest);
    } else {
      StrRoundTrip(s[1..], rest);
      Assoc(if s[0] == 0 then [0, 0xFF] else [s[0]], StrBody(s[1..]), rest);
      if s[0] == 0 {
        NulFirst(StrBody(s[1..]) + rest);
      } else {
        OneMoreByte(s[0], StrBody(s[1..]) + rest);
      }
      FirstAndRest(s);
    }
  }

  lemma Assoc(a: Bytes, b: Bytes, c: Bytes)
    ensures a + b + c == a + (b + c)
  {
  }

  lemma FirstAndRest(s: Bytes)
    requires s != []
    ensures [s[0]] + s[1..] == s
  {
  }

  lemma {:induction false} NulFirst(bs: Bytes)
    requires ReadStringWithNuls(bs).Parsed?
    ensures ReadStringWithNuls([0, 0xFF] + bs) ==
      Parsed([0] + ReadStringWithNuls(bs).value, ReadStringWithNuls(bs).rest)
  {
    var after := [0xFF] + bs;
    assert [0, 0xFF] + bs == [0] + after;
    Cons(0, after);
    Cons(0xFF, bs);
    assert ReadCString([0] + after) == Parsed([], after);
    NothingFirst(ReadStringWithNuls(bs).value);
  }

  lemma Cons(b: Byte, bs: Bytes)
    ensures ([b] + bs)[0] == b && ([b] + bs)[1..] == bs
  {
  }

  lemma NothingFirst(s: Bytes)
    ensures [] + [0] + s == [0] + s
  {
  }

  lemma Shift(b: Byte, s: Bytes, more: Bytes)
    ensures [b] + (s + [0] + more) == [b] + s + [0] + more
  {
  }

  /** A byte other than NUL in front of a string is the string's first. */
  lemma {:induction false} OneMoreByte(b: Byte, bs: Bytes)
    requires b != 0 && ReadStringWithNuls(bs).Parsed?
    ensures ReadStringWithNuls([b] + bs) ==
      Parsed([b] + ReadStringWithNuls(bs).value, ReadStringWithNuls(bs).rest)
  {
    Cons(b, bs);
    var first := ReadCString(bs);
    assert ReadCString([b] + bs) == Parsed([b] + first.value, first.rest);
    if first.rest != [] && first.rest[0] == 0xFF {
      Shift(b, first.value, ReadStringWithNuls(first.rest[1..]).value);
    }
  }

  lemma {:induction false} CStringRoundTrip(s: Bytes, rest: Bytes)
    requires NoNul(s)
    ensures ReadCString(s + [0] + rest) == Parsed(s, rest)
  {
    if s == [] {
      assert ([0] + rest)[1..] == rest && s + [0] + rest == [0] + rest;
    } else {
      CStringRoundTrip(s[1..], rest);
      assert (s + [0] + rest)[1..] == s[1..] + [0] + rest;
      assert s[0] != 0 && [s[0]] + s[1..] == s;
    }
  }

  // ---- Values ----------------------------------------------------------------------------

  /** The values the encoder takes: everything but numbers that need a
      decimal continuation. */
  predicate Encodable(v: Value) {
    match v
    case MinKey => true
    case MaxKey => true
    case Null => true
    case Undefined => true
    case NaN => true
    case Bool(_) => true
    case DateTime(ms) => -TWO_TO_THE_63 <= ms < TWO_TO_THE_63
    case Timestamp(t, i) => t < 0x1_0000_0000 && i < 0x1_0000_0000
    case ObjectId(oid) => |oid| == 12
    case Str(_) => true
    case Code(_) => true
    case CodeWithScope(_, scope) => scope.Document? && Encodable(scope)
    case Binary(_, data) => |data| < 0x1_0000_0000
    case Regex(pattern, options) => NoNul(pattern) && NoNul(options)
    case DBPointer(ns, oid) => |ns| < 0x1_0000_0000 && |oid| == 12
    case Document(fields) => forall f | f in fields :: NoNul(f.key) && Encodable(f.value)
    case Array(elements) => forall e | e in elements :: Encodable(e)
    case Zero => true
    case Int32(n) => Abs(n) < TWO_TO_THE_63
    case Int64(n) => Abs(n) < TWO_TO_THE_63
    case Infinity(_) => true
    case DoubleBits(_, bits) => PlainBits(bits)
    case ScaledDoubleBits(_, bits) => bits < TWO_TO_THE_62
    case Fraction(_, numerator, bytes256) => PlainFraction(numerator, bytes256)
  }

  /** What comes back: the same value, integers in the narrowest width. */
  function Normal(v: Value): Value
    decreases v, 1
  {
    match v
    case Int32(n) => NormalInt(n)
    case Int64(n) => NormalInt(n)
    case CodeWithScope(code, scope) => CodeWithScope(code, Normal(scope))
    case Document(fields) => Document(NormalFields(v, 0))
    case Array(elements) => Array(NormalElements(v, 0))
    case _ => v
  }

  function NormalFields(v: Value, i: nat): seq<Field>
    requires v.Document? && i <= |v.fields|
    decreases v, 0, |v.fields| - i
  {
    if i == |v.fields| then []
    else [Field(v.fields[i].key, Normal(v.fields[i].value))] + NormalFields(v, i + 1)
  }

  function NormalElements(v: Value, i: nat): seq<Value>
    requires v.Array? && i <= |v.elements|
    decreases v, 0, |v.elements| - i
  {
    if i == |v.elements| then [] else [Normal(v.elements[i])] + NormalElements(v, i + 1)
  }

  /** The type byte of a value. */
  function TypeOf(v: Value): (t: Byte)
    requires Encodable(v)
    ensures MIN_KEY <= t <= MAX_KEY
  {
    match v
    case MinKey => MIN_KEY
    case MaxKey => MAX_KEY
    case Null => NULLISH
    case Undefined => UNDEFINED
    case NaN => NUMERIC
    case Bool(b) => if b then BOOL + 1 else BOOL
    case DateTime(_) => DATE
    case Timestamp(_, _) => TIMESTAMP
    case ObjectId(_) => OID
    case Str(_) => STRING_LIKE
    case Code(_) => CODE
    case CodeWithScope(_, _) => CODE_WITH_SCOPE
    case Binary(_, _) => BIN_DATA
    case Regex(_, _) => REG_EX
    case DBPointer(_, _) => DB_REF
    case Document(_) => OBJECT
    case Array(_) => ARRAY
    case Zero => ZERO
    case Int32(n) => IntWidth(n); IntType(n)
    case Int64(n) => IntWidth(n); IntType(n)
    case Infinity(negative) => LargeType(negative)
    case DoubleBits(negative, bits) => if IsLarge(bits) then LargeType(negative) else SmallType(negative)
    case ScaledDoubleBits(negative, _) => SmallType(negative)
    case Fraction(negative, _, bytes256) => FractionType(negative, bytes256)
  }

  function SizeBody(n: nat): Bytes {
    if n < 0xFF then [n] else [0xFF] + BigEndian(n, 4)
  }

  /** The bytes after the type byte. */
  function Body(v: Value): Bytes
    requires Encodable(v)
    decreases v, 1
  {
    match v
    case DateTime(ms) => BigEndian(ms + TWO_TO_THE_63, 8)
    case Timestamp(t, i) => BigEndian(t, 4) + BigEndian(i, 4)
    case ObjectId(oid) => oid
    case Str(s) => StrBody(s)
    case Code(s) => StrBody(s)
    case CodeWithScope(code, scope) => StrBody(code) + Body(scope)
    case Binary(subtype, data) => SizeBody(|data|) + [subtype] + data
    case Regex(pattern, options) => pattern + [0] + (options + [0])
    case DBPointer(ns, oid) => BigEndian(|ns|, 4) + ns + oid
    case Document(fields) => FieldsBody(v, 0)
    case Array(elements) => ElementsBody(v, 0)
    case Int32(n) => IntBody(n)
    case Int64(n) => IntBody(n)
    case Infinity(negative) => Magnitude(negative, INFINITY_CODE)
    case DoubleBits(negative, bits) => Magnitude(negative, PlainCode(bits))
    case ScaledDoubleBits(negative, bits) => Magnitude(negative, ScaledCode(bits))
    case Fraction(negative, numerator, bytes256) => FractionBody(negative, numerator, bytes256)
    case _ => []
  }

  /** Fields from the i-th on: type byte, name, type byte again, value; then a NUL. */
  function FieldsBody(v: Value, i: nat): (r: Bytes)
    requires v.Document? && Encodable(v) && i <= |v.fields|
    ensures r != [] && r[0] != 0xFF
    decreases v, 0, |v.fields| - i
  {
    if i == |v.fields| then [0]
    else
      [TypeOf(v.fields[i].value)] + FieldBytes(v.fields[i], FieldsBody(v, i + 1))
  }

  function FieldBytes(f: Field, later: Bytes): Bytes
    requires Encodable(f.value)
    decreases f, 2
  {
    f.key + [0] + ([TypeOf(f.value)] + (Body(f.value) + later))
  }

  function ElementsBody(v: Value, i: nat): (r: Bytes)
    requires v.Array? && Encodable(v) && i <= |v.elements|
    ensures r != [] && r[0] != 0xFF
    decreases v, 0, |v.elements| - i
  {
    if i == |v.elements| then [0]
    else [TypeOf(v.elements[i])] + Body(v.elements[i]) + ElementsBody(v, i + 1)
  }

  // ---- The decoder inverts the encoder ---------------------------------------------------

  lemma {:induction false} UintRoundTrip(n: nat, k: nat, rest: Bytes)
    requires n < Pow256(k)
    ensures ReadUint(k, BigEndian(n, k) + rest) == Parsed(n, rest)
  {
    BigEndianValue(n, k);
    assert (BigEndian(n, k) + rest)[..k] == BigEndian(n, k) && (BigEndian(n, k) + rest)[k..] == rest;
  }

  lemma {:induction false} DateRoundTrip(ms: int, rest: Bytes)
    requires -TWO_TO_THE_63 <= ms < TWO_TO_THE_63
    ensures ReadDate(BigEndian(ms + TWO_TO_THE_63, 8) + rest) == Parsed(DateTime(ms), rest)
  {
    EightBytes();
    UintRoundTrip(ms + TWO_TO_THE_63, 8, rest);
  }

  lemma {:induction false} TimestampRoundTrip(t: nat, i: nat, rest: Bytes)
    requires t < 0x1_0000_0000 && i < 0x1_0000_0000
    ensures ReadTimestamp(BigEndian(t, 4) + BigEndian(i, 4) + rest) == Parsed(Timestamp(t, i), rest)
  {
    EightBytes();
    BigEndianValue(t, 4);
    BigEndianValue(i, 4);
    var bs := BigEndian(t, 4) + BigEndian(i, 4) + rest;
    assert bs[..4] == BigEndian(t, 4) && bs[4..8] == BigEndian(i, 4) && bs[8..] == rest;
  }

  lemma SizeRoundTrip(n: nat, rest: Bytes)
    requires n < 0x1_0000_0000
    ensures ReadSize(SizeBody(n) + rest) == Parsed(n, rest)
  {
    EightBytes();
    if n < 0xFF {
      assert ([n] + rest)[1..] == rest;
    } else {
      assert SizeBody(n) + rest == [0xFF] + (BigEndian(n, 4) + rest);
      UintRoundTrip(n, 4, rest);
    }
  }

  lemma BinaryRoundTrip(subtype: Byte, data: Bytes, rest: Bytes)
    requires |data| < 0x1_0000_0000
    ensures ReadBinary(SizeBody(|data|) + [subtype] + data + rest) == Parsed(Binary(subtype, data), rest)
  {
    var later := [subtype] + data + rest;
    assert SizeBody(|data|) + [subtype] + data + rest == SizeBody(|data|) + later;
    SizeRoundTrip(|data|, later);
    assert later[1..1 + |data|] == data && later[1 + |data|..] == rest;
  }

  lemma RegexRoundTrip(pattern: Bytes, options: Bytes, rest: Bytes)
    requires NoNul(pattern) && NoNul(options)
    ensures ReadRegex(pattern + [0] + (options + [0]) + rest) == Parsed(Regex(pattern, options), rest)
  {
    assert pattern + [0] + (options + [0]) + rest == pattern + [0] + (options + [0] + rest);
    CStringRoundTrip(pattern, options + [0] + rest);
    CStringRoundTrip(options, rest);
  }

  lemma {:induction false} DBPointerRoundTrip(ns: Bytes, oid: Bytes, rest: Bytes)
    requires |ns| < 0x1_0000_0000 && |oid| == 12
    ensures ReadDBPointer(BigEndian(|ns|, 4) + ns + oid + rest) == Parsed(DBPointer(ns, oid), rest)
  {
    EightBytes();
    var later := ns + (oid + rest);
    Regroup(BigEndian(|ns|, 4), ns, oid, rest);
    UintRoundTrip(|ns|, 4, later);
    ReadsDBPointer(ns, oid, rest);
  }

  lemma Regroup(a: Bytes, b: Bytes, c: Bytes, d: Bytes)
    ensures a + b + c + d == a + (b + (c + d))
  {
  }

  lemma ReadsDBPointer(ns: Bytes, oid: Bytes, rest: Bytes)
    ensures var later := ns + (oid + rest); var n := |ns| + |oid|;
      later[..|ns|] == ns && later[|ns|..n] == oid && later[n..] == rest
  {
  }

  /** Values that hold no others. */
  lemma {:induction false} PlainRoundTrip(v: Value, rest: Bytes)
    requires Encodable(v) && !v.CodeWithScope? && !v.Document? && !v.Array? && Ends(rest)
    ensures ReadPlain(TypeOf(v), Body(v) + rest) == Parsed(Normal(v), rest)
  {
    assert [] + rest == rest;
    match v
    case DateTime(ms) => DateRoundTrip(ms, rest);
    case Timestamp(t, i) => TimestampRoundTrip(t, i, rest);
    case ObjectId(oid) => assert (oid + rest)[..12] == oid && (oid + rest)[12..] == rest;
    case Str(s) => StrRoundTrip(s, rest);
    case Code(s) => StrRoundTrip(s, rest);
    case Binary(subtype, data) => BinaryRoundTrip(subtype, data, rest);
    case Regex(pattern, options) => RegexRoundTrip(pattern, options, rest);
    case DBPointer(ns, oid) => DBPointerRoundTrip(ns, oid, rest);
    case _ => if IsNumber(v) { NumberRoundTrip(v, rest); }
  }

  predicate IsNumber(v: Value) {
    v.Int32? || v.Int64? || v.Infinity? || v.DoubleBits? || v.ScaledDoubleBits? || v.Fraction?
  }

  lemma {:induction false} NumberRoundTrip(v: Value, rest: Bytes)
    requires Encodable(v) && IsNumber(v)
    ensures ReadPlain(TypeOf(v), Body(v) + rest) == Parsed(Normal(v), rest)
  {
    match v
    case Int32(n) => IntRoundTrip(n, rest);
    case Int64(n) => IntRoundTrip(n, rest);
    case Infinity(negative) => InfinityRoundTrip(negative, rest);
    case DoubleBits(negative, bits) => DoubleRoundTrip(negative, bits, rest);
    case ScaledDoubleBits(negative, bits) => ScaledRoundTrip(negative, bits, rest);
    case Fraction(negative, numerator, bytes256) => FractionRoundTrip(negative, numerator, bytes256, rest);
  }

  /** The decoder reads back every encoded value, up to integer width, and stops right after
      its bytes, whatever they are followed by, except a byte that would continue a string. */
  lemma {:induction false} ValueRoundTrip(v: Value, rest: Bytes)
    requires Encodable(v) && Ends(rest)
    ensures ReadValue(TypeOf(v), Body(v) + rest) == Parsed(Normal(v), rest)
    decreases v, 1
  {
    if v.CodeWithScope? {
      FieldsRoundTrip(v.scope, 0, rest);
      WithScopeRoundTrip(v, rest);
    } else if v.Document? {
      FieldsRoundTrip(v, 0, rest);
      DocumentRoundTrip(v, rest);
    } else if v.Array? {
      ElementsRoundTrip(v, 0, rest);
      ArrayRoundTrip(ElementsBody(v, 0) + rest, rest);
    } else {
      PlainRoundTrip(v, rest);
      ReadsPlain(TypeOf(v), Body(v) + rest);
    }
  }

  lemma {:induction false} ReadsPlain(ctype: Byte, bs: Bytes)
    requires ctype != OBJECT && ctype != ARRAY && ctype != CODE_WITH_SCOPE
    ensures ReadValue(ctype, bs) == ReadPlain(ctype, bs)
  {
  }

  lemma {:induction false} DocumentRoundTrip(v: Value, rest: Bytes)
    requires v.Document? && Encodable(v)
    requires ReadFields(true, FieldsBody(v, 0) + rest) == Parsed(NormalFields(v, 0), rest)
    ensures ReadValue(TypeOf(v), Body(v) + rest) == Parsed(Normal(v), rest)
  {
  }

  lemma {:induction false} WithScopeRoundTrip(v: Value, rest: Bytes)
    requires v.CodeWithScope? && Encodable(v)
    requires ReadFields(true, FieldsBody(v.scope, 0) + rest) == Parsed(NormalFields(v.scope, 0), rest)
    ensures ReadValue(TypeOf(v), Body(v) + rest) == Parsed(Normal(v), rest)
  {
    ScopeRoundTrip(v.code, FieldsBody(v.scope, 0), NormalFields(v.scope, 0), rest);
  }

  lemma {:induction false} ScopeRoundTrip(code: Bytes, scope: Bytes, fields: seq<Field>, rest: Bytes)
    requires Ends(scope) && scope != [] && ReadFields(true, scope + rest) == Parsed(fields, rest)
    ensures ReadValue(CODE_WITH_SCOPE, StrBody(code) + scope + rest)
         == Parsed(CodeWithScope(code, Document(fields)), rest)
  {
    Assoc(StrBody(code), scope, rest);
    StrRoundTrip(code, scope + rest);
    ReadsScope(StrBody(code) + (scope + rest), code, scope + rest);
  }

  lemma {:induction false} ReadsScope(bs: Bytes, code: Bytes, later: Bytes)
    requires ReadStringWithNuls(bs) == Parsed(code, later) && ReadFields(true, later).Parsed?
    ensures var fields := ReadFields(true, later);
      ReadValue(CODE_WITH_SCOPE, bs) == Parsed(CodeWithScope(code, Document(fields.value)), fields.rest)
  {
  }

  lemma {:induction false} ArrayRoundTrip(bs: Bytes, rest: Bytes)
    requires ReadElements(bs).Parsed? && ReadElements(bs).rest == [0] + rest
    ensures ReadValue(ARRAY, bs) == Parsed(Array(ReadElements(bs).value), rest)
  {
    assert ([0] + rest)[1..] == rest;
  }

  lemma {:induction false} ElementsRoundTrip(v: Value, i: nat, rest: Bytes)
    requires v.Array? && Encodable(v) && i <= |v.elements|
    ensures ReadElements(ElementsBody(v, i) + rest) == Parsed(NormalElements(v, i), [0] + rest)
    decreases v, 0, |v.elements| - i
  {
    if i < |v.elements| {
      var e, later := v.elements[i], ElementsBody(v, i + 1) + rest;
      ValueRoundTrip(e, later);
      ElementsRoundTrip(v, i + 1, rest);
      Regroup([TypeOf(e)], Body(e), ElementsBody(v, i + 1), rest);
      OneMoreElement(TypeOf(e), Body(e) + later);
    }
  }

  lemma {:induction false} OneMoreElement(ctype: Byte, bs: Bytes)
    requires MIN_KEY <= ctype <= MAX_KEY && ReadValue(ctype, bs).Parsed?
    requires ReadElements(ReadValue(ctype, bs).rest).Parsed?
    ensures var value := ReadValue(ctype, bs); var later := ReadElements(value.rest);
      ReadElements([ctype] + bs) == Parsed([value.value] + later.value, later.rest)
  {
    assert ([ctype] + bs)[1..] == bs;
  }

  lemma {:induction false} FieldsRoundTrip(v: Value, i: nat, rest: Bytes)
    requires v.Document? && Encodable(v) && i <= |v.fields|
    ensures ReadFields(true, FieldsBody(v, i) + rest) == Parsed(NormalFields(v, i), rest)
    decreases v, 0, |v.fields| - i
  {
    if i == |v.fields| {
      assert ([0] + rest)[1..] == rest;
    } else {
      var f, later := v.fields[i], FieldsBody(v, i + 1) + rest;
      ValueRoundTrip(f.value, later);
      FieldsRoundTrip(v, i + 1, rest);
      FieldRoundTrip(f, later);
      FieldBytesAppend(f, FieldsBody(v, i + 1), rest);
      OneMoreField(true, TypeOf(f.value), FieldBytes(f, later));
    }
  }

  lemma {:induction false} OneMoreField(named: bool, ctype: Byte, bs: Bytes)
    requires MIN_KEY <= ctype <= MAX_KEY && ReadField(named, ctype, bs).Parsed?
    requires ReadFields(named, ReadField(named, ctype, bs).rest).Parsed?
    ensures var field := ReadField(named, ctype, bs); var later := ReadFields(named, field.rest);
      ReadFields(named, [ctype] + bs) == Parsed([field.value] + later.value, later.rest)
  {
    assert ([ctype] + bs)[1..] == bs;
  }

  lemma {:induction false} FieldBytesAppend(f: Field, later: Bytes, rest: Bytes)
    requires Encodable(f.value)
    ensures [TypeOf(f.value)] + FieldBytes(f, later) + rest == [TypeOf(f.value)] + FieldBytes(f, later + rest)
  {
    Regroup([TypeOf(f.value)], Body(f.value), later, rest);
    Regroup([TypeOf(f.value)], f.key + [0], [TypeOf(f.value)] + (Body(f.value) + later), rest);
  }

  lemma {:induction false} FieldRoundTrip(f: Field, later: Bytes)
    requires NoNul(f.key) && Encodable(f.value)
    requires ReadValue(TypeOf(f.value), Body(f.value) + later) == Parsed(Normal(f.value), later)
    ensures ReadField(true, TypeOf(f.value), FieldBytes(f, later)) == Parsed(Field(f.key, Normal(f.value)), later)
  {
    var value := [TypeOf(f.value)] + (Body(f.value) + later);
    CStringRoundTrip(f.key, value);
    assert value[1..] == Body(f.value) + later;
  }

  // ---- Whole key strings -----------------------------------------------------------------

  /** The values of an index key one after the other, and the end marker. */
  function Encoded(values: seq<Value>): (r: Bytes)
    requires forall v | v in values :: Encodable(v)
    ensures r != [] && r[0] != 0xFF
  {
    if values == [] then [END] else [TypeOf(values[0])] + Body(values[0]) + Encoded(values[1..])
  }

  function Unnamed(values: seq<Value>): seq<Field> {
    if values == [] then [] else [Field([], Normal(values[0]))] + Unnamed(values[1..])
  }

  /** Decoding a key string gives its values and leaves exactly what follows the end marker. */
  lemma {:induction false} KeyStringRoundTrip(values: seq<Value>, typeBits: Bytes)
    requires forall v | v in values :: Encodable(v)
    ensures Decode(Encoded(values) + typeBits) == Parsed(Document(Unnamed(values)), typeBits)
  {
    ValuesRoundTrip(values, typeBits);
  }

  lemma {:induction false} ValuesRoundTrip(values: seq<Value>, typeBits: Bytes)
    requires forall v | v in values :: Encodable(v)
    ensures ReadFields(false, Encoded(values) + typeBits) == Parsed(Unnamed(values), typeBits)
  {
    if values == [] {
      assert ([END] + typeBits)[1..] == typeBits;
    } else {
      var v, later := values[0], Encoded(values[1..]) + typeBits;
      ValueRoundTrip(v, later);
      ValuesRoundTrip(values[1..], typeBits);
      Regroup([TypeOf(v)], Body(v), Encoded(values[1..]), typeBits);
      OneMoreField(false, TypeOf(v), Body(v) + later);
    }
  }

  /** Values that encode alike are the same up to integer width. */
  lemma {:induction false} EncodingIsInjective(xs: seq<Value>, ys: seq<Value>)
    requires forall v | v in xs || v in ys :: Encodable(v)
    requires Encoded(xs) == Encoded(ys)
    ensures Unnamed(xs) == Unnamed(ys)
  {
    KeyStringRoundTrip(xs, []);
    KeyStringRoundTrip(ys, []);
  }
}
