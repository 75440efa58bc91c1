/** The type bytes of version 1 key strings as the format has them, written out; key strings as a
    server writes them; and the order of types that the bytes keep. */
module KeyStringTypes {
  import opened Bson
  import opened KeyString
  import opened KeyStringRoundTrip

  // ---- What each type byte means ---------------------------------------------------------

  lemma {:induction false} PlainTypes(bs: Bytes)
    ensures ReadValue(10, bs) == Parsed(MinKey, bs) && ReadValue(240, bs) == Parsed(MaxKey, bs)
    ensures ReadValue(15, bs) == Parsed(Undefined, bs) && ReadValue(20, bs) == Parsed(Null, bs)
    ensures ReadValue(110, bs) == Parsed(Bool(false), bs) && ReadValue(111, bs) == Parsed(Bool(true), bs)
    ensures ReadValue(30, bs) == Parsed(NaN, bs) && ReadValue(41, bs) == Parsed(Zero, bs)
  {
  }

  /** A date: eight bytes, most significant first, of milliseconds from 2 to the 63 before the epoch.
      A timestamp: seconds and increment, four bytes each. An object id: twelve bytes. */
  lemma FixedWidthTypes(millis: int, t: nat, i: nat, oid: Bytes, rest: Bytes)
    requires -0x8000_0000_0000_0000 <= millis < 0x8000_0000_0000_0000
    requires t < 0x1_0000_0000 && i < 0x1_0000_0000 && |oid| == 12
    ensures ReadValue(120, BigEndian(millis + 0x8000_0000_0000_0000, 8) + rest) == Parsed(DateTime(millis), rest)
    ensures ReadValue(130, BigEndian(t, 4) + BigEndian(i, 4) + rest) == Parsed(Timestamp(t, i), rest)
    ensures ReadValue(100, oid + rest) == Parsed(ObjectId(oid), rest)
  {
    DateRoundTrip(millis, rest);
    TimestampRoundTrip(t, i, rest);
    assert (oid + rest)[..12] == oid && (oid + rest)[12..] == rest;
  }

  /** Strings and code end in a NUL. */
  lemma {:induction false} StringTypes(s: Bytes, rest: Bytes)
    requires NoNul(s) && (rest == [] || rest[0] != 0xFF)
    ensures ReadValue(60, s + [0] + rest) == Parsed(Str(s), rest)
    ensures ReadValue(160, s + [0] + rest) == Parsed(Code(s), rest)
  {
    NoNulBody(s);
    StrRoundTrip(s, rest);
  }

  lemma {:induction false} NoNulBody(s: Bytes)
    requires NoNul(s)
    ensures StrBody(s) == s + [0]
  {
    if s != [] {
      assert s[0] in s && NoNul(s[1..]);
      NoNulBody(s[1..]);
      assert s == [s[0]] + s[1..];
    }
  }

  lemma {:induction false} BytesTypes(subtype: Byte, data: Bytes, pattern: Bytes, options: Bytes, rest: Bytes)
    requires |data| < 0xFF && NoNul(pattern) && NoNul(options)
    ensures ReadValue(90, [|data|] + [subtype] + data + rest) == Parsed(Binary(subtype, data), rest)
    ensures ReadValue(140, pattern + [0] + (options + [0]) + rest) == Parsed(Regex(pattern, options), rest)
  {
    BinaryRoundTrip(subtype, data, rest);
    RegexRoundTrip(pattern, options, rest);
  }

  /** Integers: twice the magnitude, in as many bytes as the type byte says; 43 to 50 for one to
      eight bytes if positive, and 39 down to 32, with the bytes inverted, if negative. */
  lemma IntegerTypes(n: nat, k: nat, rest: Bytes)
    requires 1 <= k <= 8 && 0 < n < 0x8000_0000_0000_0000 && 2 * n < Pow256(k)
    ensures ReadValue(42 + k, BigEndian(2 * n, k) + rest) == Parsed(Integer(n), rest)
    ensures ReadValue(40 - k, Inverted(BigEndian(2 * n, k)) + rest) == Parsed(Integer(-(n as int)), rest)
  {
    var bs := BigEndian(2 * n, k);
    BigEndianValue(2 * n, k);
    InvertedTwice(bs);
    assert (bs + rest)[..k] == bs && (bs + rest)[k..] == rest;
    assert (Inverted(bs) + rest)[..k] == Inverted(bs) && (Inverted(bs) + rest)[k..] == rest;
    NumberOf(n, k, bs + rest);
    NumberOf(-(n as int), k, Inverted(bs) + rest);
  }

  /** Doubles: 51 and 31 from 2 on, 42 and 40 below. */
  lemma {:induction false} DoubleTypes(bits: nat, rest: Bytes)
    requires PlainBits(bits) && !IsLarge(bits)
    ensures ReadValue(42, BigEndian(4 * bits, 8) + rest) == Parsed(DoubleBits(false, bits), rest)
    ensures ReadValue(40, Inverted(BigEndian(4 * bits, 8)) + rest) == Parsed(DoubleBits(true, bits), rest)
  {
    DoubleRoundTrip(false, bits, rest);
    DoubleRoundTrip(true, bits, rest);
  }

  lemma {:induction false} LargeTypes(bits: nat, rest: Bytes)
    requires 0x4000_0000_0000_0000 <= bits < 0x8000_0000_0000_0000
    ensures ReadValue(51, BigEndian(2 * (bits - 0x4000_0000_0000_0000), 8) + rest) == Parsed(DoubleBits(false, bits), rest)
    ensures ReadValue(31, Inverted(BigEndian(2 * (bits - 0x4000_0000_0000_0000), 8)) + rest) == Parsed(DoubleBits(true, bits), rest)
  {
    DoubleRoundTrip(false, bits, rest);
    DoubleRoundTrip(true, bits, rest);
  }

  // ---- Key strings as a server writes them -----------------------------------------------

  /** The start of every change stream resume token: a timestamp, whatever follows. */
  lemma {:induction false} ResumeTokenStartsWithTimestamp(t: nat, i: nat, rest: Bytes)
    requires t < 0x1_0000_0000 && i < 0x1_0000_0000
    ensures var r := Decode([130] + (BigEndian(t, 4) + BigEndian(i, 4) + rest));
      r.Parsed? ==> r.value.Document? && r.value.fields != [] && r.value.fields[0] == Field([], Timestamp(t, i))
  {
    var body := BigEndian(t, 4) + BigEndian(i, 4) + rest;
    TimestampRoundTrip(t, i, rest);
    assert ([130] + body)[0] == 130 && ([130] + body)[1..] == body;
    assert ReadField(false, 130, body) == Parsed(Field([], Timestamp(t, i)), rest);
    if ReadFields(false, rest).Parsed? {
      OneMoreField(false, 130, body);
    }
  }

  /** A key string of one value, and of two: type byte and bytes of each, and the end marker. */
  lemma {:induction false} OneValue(v: Value, t: Byte, body: Bytes)
    requires Encodable(v) && TypeOf(v) == t && Body(v) == body
    ensures Decode([t] + body + [4]) == Parsed(Document([Field([], Normal(v))]), [])
  {
    var values := [v];
    assert values[1..] == [] && Encoded(values[1..]) == [4];
    KeyStringRoundTrip.KeyStringRoundTrip(values, []);
    assert Encoded(values) + [] == [t] + body + [4];
    assert Unnamed(values) == [Field([], Normal(v))] + Unnamed(values[1..]) == [Field([], Normal(v))];
  }

  lemma {:induction false} TwoValues(v: Value, t: Byte, body: Bytes, w: Value, u: Byte, more: Bytes)
    requires Encodable(v) && TypeOf(v) == t && Body(v) == body
    requires Encodable(w) && TypeOf(w) == u && Body(w) == more
    ensures Decode([t] + body + ([u] + more + [4])) == Parsed(Document([Field([], Normal(v)), Field([], Normal(w))]), [])
  {
    var values := [v, w];
    assert values[1..] == [w] && [w][1..] == [] && Encoded([w]) == [u] + more + [4];
    KeyStringRoundTrip.KeyStringRoundTrip(values, []);
    assert Encoded(values) + [] == [t] + body + ([u] + more + [4]);
    assert Unnamed([w]) == [Field([], Normal(w))] + Unnamed([w][1..]) == [Field([], Normal(w))];
    assert Unnamed(values) == [Field([], Normal(v))] + Unnamed([w]) == [Field([], Normal(v)), Field([], Normal(w))];
  }

  lemma {:induction false} SmallBigEndian(n: Byte)
    ensures BigEndian(n, 4) == [0, 0, 0, n]
  {
    assert BigEndian(0, 1) == [0] && BigEndian(0, 2) == [0, 0] && BigEndian(0, 3) == [0, 0, 0];
  }

  /** For instance a timestamp, byte by byte. */
  lemma {:induction false} ATimestamp(v: Value)
    requires v == Timestamp(5, 1)
    ensures Decode([130, 0, 0, 0, 5, 0, 0, 0, 1, 4]) == Parsed(Document([Field([], v)]), [])
  {
    ATimestampIs(v);
    OneValue(v, 130, [0, 0, 0, 5] + [0, 0, 0, 1]);
    assert [130] + ([0, 0, 0, 5] + [0, 0, 0, 1]) + [4] == [130, 0, 0, 0, 5, 0, 0, 0, 1, 4];
  }

  lemma {:induction false} ATimestampIs(v: Value)
    requires v == Timestamp(5, 1)
    ensures Encodable(v) && TypeOf(v) == 130 && Body(v) == [0, 0, 0, 5] + [0, 0, 0, 1] && Normal(v) == v
  {
    SmallBigEndian(5);
    SmallBigEndian(1);
  }

  /** And an integer and its negative. */
  lemma {:induction false} TwoIntegers(v: Value, w: Value)
    requires v == Int32(5) && w == Int32(-5)
    ensures Decode([43, 10, 39, 245, 4]) == Parsed(Document([Field([], v), Field([], w)]), [])
  {
    FiveIs(v);
    MinusFiveIs(w);
    TwoValues(v, 43, [10], w, 39, [245]);
    assert [43] + [10] + ([39] + [245] + [4]) == [43, 10, 39, 245, 4];
  }

  lemma {:induction false} FiveIs(v: Value)
    requires v == Int32(5)
    ensures Encodable(v) && TypeOf(v) == 43 && Body(v) == [10] && Normal(v) == v
  {
    assert BigEndian(10, 1) == [10];
  }

  lemma {:induction false} MinusFiveIs(v: Value)
    requires v == Int32(-5)
    ensures Encodable(v) && TypeOf(v) == 39 && Body(v) == [245] && Normal(v) == v
  {
    assert BigEndian(10, 1) == [10] && Inverted([10]) == [245];
  }

  // ---- The order of types ----------------------------------------------------------------

  /** The place of a value's type in the order that key strings sort by. */
  function Place(v: Value): nat {
    match v
    case MinKey => 0
    case Undefined => 1
    case Null => 2
    case NaN => 3
    case Infinity(_) => 3
    case DoubleBits(_, _) => 3
    case ScaledDoubleBits(_, _) => 3
    case Fraction(_, _, _) => 3
    case Zero => 3
    case Int32(_) => 3
    case Int64(_) => 3
    case Str(_) => 4
    case Document(_) => 5
    case Array(_) => 6
    case Binary(_, _) => 7
    case ObjectId(_) => 8
    case Bool(_) => 9
    case DateTime(_) => 10
    case Timestamp(_, _) => 11
    case Regex(_, _) => 12
    case DBPointer(_, _) => 13
    case Code(_) => 14
    case CodeWithScope(_, _) => 15
    case MaxKey => 16
  }

  /** Type bytes rise with the order of types. */
  lemma {:induction false} TypeBytesFollowTypes(v: Value, w: Value)
    requires Encodable(v) && Encodable(w) && Place(v) < Place(w)
    ensures TypeOf(v) < TypeOf(w)
  {
    TypeByteOf(v);
    TypeByteOf(w);
  }

  lemma {:induction false} TypeByteOf(v: Value)
    requires Encodable(v)
    ensures match Place(v)
      case 0 => TypeOf(v) == 10
      case 1 => TypeOf(v) == 15
      case 2 => TypeOf(v) == 20
      case 3 => 30 <= TypeOf(v) <= 51
      case 4 => TypeOf(v) == 60
      case 5 => TypeOf(v) == 70
      case 6 => TypeOf(v) == 80
      case 7 => TypeOf(v) == 90
      case 8 => TypeOf(v) == 100
      case 9 => 110 <= TypeOf(v) <= 111
      case 10 => TypeOf(v) == 120
      case 11 => TypeOf(v) == 130
      case 12 => TypeOf(v) == 140
      case 13 => TypeOf(v) == 150
      case 14 => TypeOf(v) == 160
      case 15 => TypeOf(v) == 170
      case _ => TypeOf(v) == 240
  {
    match v
    case Int32(n) => IntWidth(n);
    case Int64(n) => IntWidth(n);
    case _ =>
  }

  // ---- Widths and discriminators ---------------------------------------------------------

  /** An integer is 32 bits wide if it fits, the least and the greatest included, and else 64. */
  lemma IntegerWidths(n: int)
    ensures -2_147_483_648 <= n <= 2_147_483_647 ==> Integer(n) == Int32(n)
    ensures n < -2_147_483_648 || n > 2_147_483_647 ==> Integer(n) == Int64(n)
  {
  }

  /** A byte 1 or 254 before a type byte is skipped, and no other is; 4 ends a key string. */
  lemma {:induction false} Discriminators(t: Byte, rest: Bytes)
    ensures ReadType([1] + ([t] + rest)) == Parsed(t, rest)
    ensures ReadType([254] + ([t] + rest)) == Parsed(t, rest)
    ensures t != 1 && t != 254 ==> ReadType([t] + rest) == Parsed(t, rest)
    ensures ReadFields(false, [4] + rest) == Parsed([], rest)
  {
    assert ([t] + rest)[1..] == rest && ([4] + rest)[1..] == rest;
    assert ([1] + ([t] + rest))[1] == t && ([1] + ([t] + rest))[2..] == rest;
    assert ([254] + ([t] + rest))[1] == t && ([254] + ([t] + rest))[2..] == rest;
  }
}
