/** Decoding version 1 key strings: what each run of bytes means, as functions on the bytes. */
module KeyString {
  import opened Bson

  // The type bytes.
  const MIN_KEY := 10
  const UNDEFINED := 15
  const NULLISH := 20
  const NUMERIC := 30
  const STRING_LIKE := 60
  const OBJECT := 70
  const ARRAY := 80
  const BIN_DATA := 90
  const OID := 100
  const BOOL := 110
  const DATE := 120
  const TIMESTAMP := 130
  const REG_EX := 140
  const DB_REF := 150
  const CODE := 160
  const CODE_WITH_SCOPE := 170
  const MAX_KEY := 240

  const NEGATIVE_LARGE := NUMERIC + 1
  const NEGATIVE_8_BYTE := NUMERIC + 2
  const NEGATIVE_1_BYTE := NUMERIC + 9
  const NEGATIVE_SMALL := NUMERIC + 10
  const ZERO := NUMERIC + 11
  const POSITIVE_SMALL := NUMERIC + 12
  const POSITIVE_1_BYTE := NUMERIC + 13
  const POSITIVE_8_BYTE := NUMERIC + 20
  const POSITIVE_LARGE := NUMERIC + 21

  const END := 4
  const LESS := 1
  const GREATER := 254

  const TWO_TO_THE_31 := 0x8000_0000
  const TWO_TO_THE_62 := 0x4000_0000_0000_0000
  const TWO_TO_THE_63 := 0x8000_0000_0000_0000

  type Bytes = seq<Byte>

  /** A decoded value. Doubles stand as the bits or the scaled integer they are made from. */
  datatype Value =
    | MinKey | MaxKey | Null | Undefined | NaN
    | Bool(b: bool)
    | DateTime(millis: int)
    | Timestamp(t: nat, i: nat)
    | ObjectId(oid: Bytes)
    | Str(bytes: Bytes)
    | Code(code: Bytes)
    | CodeWithScope(code: Bytes, scope: Value)
    | Binary(subtype: Byte, data: Bytes)
    | Regex(pattern: Bytes, options: Bytes)
    | DBPointer(ns: Bytes, oid: Bytes)
    | Document(fields: seq<Field>)
    | Array(elements: seq<Value>)
    | Zero                                                    // an integer without width
    | Int32(n: int)
    | Int64(n: int)
    | Infinity(negative: bool)
    | DoubleBits(negative: bool, bits: nat)                   // the double with these bits
    | ScaledDoubleBits(negative: bool, bits: nat)             // the same, times 2 to the -256
    | Fraction(negative: bool, numerator: nat, bytes256: nat) // numerator / 256 ** bytes256

  datatype Field = Field(key: Bytes, value: Value)

  datatype Error = UnexpectedEnd | UnknownType(ctype: Byte)

  /** A value and the bytes after it, or an error. */
  datatype Parsed<+T> = Parsed(value: T, rest: Bytes) | Failed(error: Error)

  // ---- Parts -----------------------------------------------------------------------------

  function ReadBytes(n: nat, bs: Bytes): Parsed<Bytes> {
    if |bs| < n then Failed(UnexpectedEnd) else Parsed(bs[..n], bs[n..])
  }

  /** Bytes appended to a number in base 256. */
  function Accumulate(acc: nat, bs: Bytes): nat
    decreases |bs|
  {
    if bs == [] then acc else Accumulate(acc * 256 + bs[0], bs[1..])
  }

  lemma {:induction false} AccumulateFour(acc: nat, bs: Bytes)
    requires |bs| == 4
    ensures Accumulate(acc, bs)
         == acc * 0x1_0000_0000 + bs[0] as int * 0x100_0000 + bs[1] as int * 0x1_0000 + bs[2] as int * 0x100 + bs[3]
  {
    var a1: nat := acc * 256 + bs[0] as int;
    var a2: nat := a1 * 256 + bs[1] as int;
    var a3: nat := a2 * 256 + bs[2] as int;
    var a4: nat := a3 * 256 + bs[3] as int;
    assert bs[1..][1..] == bs[2..] && bs[2..][1..] == bs[3..] && bs[3..][1..] == [];
    assert Accumulate(a4, []) == a4;
    assert Accumulate(a3, bs[3..]) == a4;
    assert Accumulate(acc, bs) == Accumulate(a1, bs[1..]) == Accumulate(a2, bs[2..]) == Accumulate(a3, bs[3..]);
  }

  lemma {:induction false} AccumulateParts(acc: nat, a: Bytes, b: Bytes)
    ensures Accumulate(acc, a + b) == Accumulate(Accumulate(acc, a), b)
    decreases |a|
  {
    if a == [] {
      assert a + b == b;
    } else {
      AccumulateParts(acc * 256 + a[0] as int, a[1..], b);
      assert (a + b)[1..] == a[1..] + b;
    }
  }

  function ReadUint(n: nat, bs: Bytes): Parsed<nat> {
    if |bs| < n then Failed(UnexpectedEnd) else Parsed(Accumulate(0, bs[..n]), bs[n..])
  }

  /** Bytes up to a NUL, which is dropped. */
  function ReadCString(bs: Bytes): (r: Parsed<Bytes>)
    ensures r.Parsed? ==> |r.rest| < |bs|
  {
    if bs == [] then Failed(UnexpectedEnd)
    else if bs[0] == 0 then Parsed([], bs[1..])
    else
      match ReadCString(bs[1..])
      case Failed(error) => Failed(error)
      case Parsed(s, rest) => Parsed([bs[0]] + s, rest)
  }

  /** Strings that continue after a NUL as long as it is followed by 0xFF. */
  function ReadStringWithNuls(bs: Bytes): (r: Parsed<Bytes>)
    ensures r.Parsed? ==> |r.rest| < |bs|
    decreases |bs|
  {
    match ReadCString(bs)
    case Failed(error) => Failed(error)
    case Parsed(s, rest) =>
      if rest != [] && rest[0] == 0xFF then
        match ReadStringWithNuls(rest[1..])
        case Failed(error) => Failed(error)
        case Parsed(more, rest) => Parsed(s + [0] + more, rest)
      else Parsed(s, rest)
  }

  // ---- Numbers ---------------------------------------------------------------------------

  function Inverted(bs: Bytes): (r: Bytes)
    ensures |r| == |bs| && forall i | 0 <= i < |bs| :: r[i] == 255 - bs[i]
  {
    seq(|bs|, i requires 0 <= i < |bs| => 255 - bs[i])
  }

  function Sign(negative: bool, bs: Bytes): (r: Bytes)
    ensures |r| == |bs|
  {
    if negative then Inverted(bs) else bs
  }

  /** A value after which eight more bytes are read and dropped, if there is a continuation. */
  function Continued(more: bool, value: Value, bs: Bytes): Parsed<Value> {
    if more && |bs| < 8 then Failed(UnexpectedEnd)
    else Parsed(value, if more then bs[8..] else bs)
  }

  function ReadLarge(negative: bool, bs: Bytes): Parsed<Value> {
    if |bs| < 8 then Failed(UnexpectedEnd)
    else
      var e := Accumulate(0, Sign(negative, bs[..8]));
      if e < TWO_TO_THE_63 then Continued(e % 2 != 0, DoubleBits(negative, e / 2 + TWO_TO_THE_62), bs[8..])
      else Continued(e != TWO_TO_THE_64 - 1, Infinity(negative), bs[8..])
  }

  function ReadSmall(negative: bool, bs: Bytes): Parsed<Value> {
    if |bs| < 8 then Failed(UnexpectedEnd)
    else
      var e := Accumulate(0, Sign(negative, bs[..8]));
      if e < TWO_TO_THE_62 then Continued(true, Zero, bs[8..])
      else if e < 3 * TWO_TO_THE_62 then
        Continued(e % 2 != 0, ScaledDoubleBits(negative, (e - TWO_TO_THE_62) / 2), bs[8..])
      else Parsed(DoubleBits(negative, e / 4), bs[8..])
  }

  /** An integer, in the narrower width that holds it. */
  function Integer(n: int): Value {
    if -TWO_TO_THE_31 <= n < TWO_TO_THE_31 then Int32(n) else Int64(n)
  }

  /** Numbers with an integer part of `n` bytes; its lowest bit says whether a fraction follows. */
  function ReadNumber(negative: bool, n: nat, bs: Bytes): Parsed<Value>
    requires 1 <= n <= 8
  {
    if |bs| < n then Failed(UnexpectedEnd)
    else
      var e := Accumulate(0, Sign(negative, bs[..n]));
      var magnitude := e / 2;
      if e % 2 == 0 then Parsed(Integer(if negative then -magnitude else magnitude), bs[n..])
      else if |bs| < 8 then Failed(UnexpectedEnd)
      else
        var f := Accumulate(magnitude, Sign(negative, bs[n..8]));
        Continued(n == 8 || f % 2 == 1, Fraction(negative, f - f % 4, 8 - n), bs[8..])
  }

  function NumBytesForInt(ctype: Byte): int {
    if ctype >= POSITIVE_1_BYTE then ctype - POSITIVE_1_BYTE + 1 else NEGATIVE_1_BYTE - ctype + 1
  }

  // ---- Values ----------------------------------------------------------------------------

  /** Inverting eight bytes one by one is inverting the number they make. */
  lemma {:induction false} InvertedEight(bs: Bytes)
    requires |bs| == 8
    ensures Accumulate(0, Inverted(bs)) == TWO_TO_THE_64 - 1 - Accumulate(0, bs)
  {
    var v := Inverted(bs);
    assert bs == bs[..4] + bs[4..] && v == v[..4] + v[4..];
    AccumulateParts(0, bs[..4], bs[4..]);
    AccumulateParts(0, v[..4], v[4..]);
    AccumulateFour(0, bs[..4]);
    AccumulateFour(0, v[..4]);
    AccumulateFour(Accumulate(0, bs[..4]), bs[4..]);
    AccumulateFour(Accumulate(0, v[..4]), v[4..]);
  }

  /** Values that hold no other values. */
  function ReadPlain(ctype: Byte, bs: Bytes): (r: Parsed<Value>)
    ensures r.Parsed? ==> |r.rest| <= |bs|
  {
    if ctype == MIN_KEY then Parsed(MinKey, bs)
    else if ctype == MAX_KEY then Parsed(MaxKey, bs)
    else if ctype == NULLISH then Parsed(Null, bs)
    else if ctype == UNDEFINED then Parsed(Undefined, bs)
    else if ctype == BOOL + 1 then Parsed(Bool(true), bs)
    else if ctype == BOOL then Parsed(Bool(false), bs)
    else if ctype == DATE then ReadDate(bs)
    else if ctype == TIMESTAMP then ReadTimestamp(bs)
    else if ctype == OID then ReadOid(bs)
    else if ctype == STRING_LIKE then ReadStr(bs)
    else if ctype == CODE then ReadCode(bs)
    else if ctype == BIN_DATA then ReadBinary(bs)
    else if ctype == REG_EX then ReadRegex(bs)
    else if ctype == DB_REF then ReadDBPointer(bs)
    else if ctype == NUMERIC then Parsed(NaN, bs)
    else if ctype == ZERO then Parsed(Zero, bs)
    else if ctype == NEGATIVE_LARGE || ctype == POSITIVE_LARGE then ReadLarge(ctype == NEGATIVE_LARGE, bs)
    else if ctype == NEGATIVE_SMALL || ctype == POSITIVE_SMALL then ReadSmall(ctype == NEGATIVE_SMALL, bs)
    else if NEGATIVE_8_BYTE <= ctype <= NEGATIVE_1_BYTE || POSITIVE_1_BYTE <= ctype <= POSITIVE_8_BYTE then
      ReadNumber(ctype <= NEGATIVE_1_BYTE, NumBytesForInt(ctype), bs)
    else Failed(UnknownType(ctype))
  }

  function ReadDate(bs: Bytes): Parsed<Value> {
    match ReadUint(8, bs)
    case Failed(error) => Failed(error)
    case Parsed(n, rest) => Parsed(DateTime(n - TWO_TO_THE_63), rest)
  }

  function ReadTimestamp(bs: Bytes): Parsed<Value> {
    if |bs| < 8 then Failed(UnexpectedEnd)
    else Parsed(Timestamp(Accumulate(0, bs[..4]), Accumulate(0, bs[4..8])), bs[8..])
  }

  function ReadOid(bs: Bytes): Parsed<Value> {
    if |bs| < 12 then Failed(UnexpectedEnd) else Parsed(ObjectId(bs[..12]), bs[12..])
  }

  function ReadStr(bs: Bytes): Parsed<Value> {
    match ReadStringWithNuls(bs)
    case Failed(error) => Failed(error)
    case Parsed(s, rest) => Parsed(Str(s), rest)
  }

  function ReadCode(bs: Bytes): Parsed<Value> {
    match ReadStringWithNuls(bs)
    case Failed(error) => Failed(error)
    case Parsed(s, rest) => Parsed(Code(s), rest)
  }

  /** A length in one byte, or 0xFF and a length in four. */
  function ReadSize(bs: Bytes): Parsed<nat> {
    if bs == [] then Failed(UnexpectedEnd)
    else if bs[0] == 0xFF then ReadUint(4, bs[1..])
    else Parsed(bs[0], bs[1..])
  }

  function ReadBinary(bs: Bytes): Parsed<Value> {
    match ReadSize(bs)
    case Failed(error) => Failed(error)
    case Parsed(size, rest) =>
      if |rest| < 1 + size then Failed(UnexpectedEnd)
      else Parsed(Binary(rest[0], rest[1..1 + size]), rest[1 + size..])
  }

  function ReadRegex(bs: Bytes): Parsed<Value> {
    match ReadCString(bs)
    case Failed(error) => Failed(error)
    case Parsed(pattern, rest) =>
      match ReadCString(rest)
      case Failed(error) => Failed(error)
      case Parsed(options, rest) => Parsed(Regex(pattern, options), rest)
  }

  function ReadDBPointer(bs: Bytes): Parsed<Value> {
    match ReadUint(4, bs)
    case Failed(error) => Failed(error)
    case Parsed(size, rest) =>
      if |rest| < size + 12 then Failed(UnexpectedEnd)
      else Parsed(DBPointer(rest[..size], rest[size..size + 12]), rest[size + 12..])
  }

  function ReadValue(ctype: Byte, bs: Bytes): (r: Parsed<Value>)
    ensures r.Parsed? ==> |r.rest| <= |bs|
    decreases |bs|, 2
  {
    if ctype == OBJECT then AsDocument(ReadFields(true, bs))
    else if ctype == ARRAY then
      match ReadElements(bs)
      case Failed(error) => Failed(error)
      case Parsed(elements, rest) =>
        if rest == [] then Failed(UnexpectedEnd) else Parsed(Array(elements), rest[1..])
    else if ctype == CODE_WITH_SCOPE then
      match ReadStringWithNuls(bs)
      case Failed(error) => Failed(error)
      case Parsed(code, rest) =>
        (match ReadFields(true, rest)
         case Failed(error) => Failed(error)
         case Parsed(fields, rest) => Parsed(CodeWithScope(code, Document(fields)), rest))
    else ReadPlain(ctype, bs)
  }

  function AsDocument(r: Parsed<seq<Field>>): Parsed<Value> {
    match r
    case Failed(error) => Failed(error)
    case Parsed(fields, rest) => Parsed(Document(fields), rest)
  }

  /** A type byte, with the discriminator that may precede it. */
  function ReadType(bs: Bytes): (r: Parsed<Byte>)
    requires bs != []
    ensures r.Parsed? ==> |r.rest| < |bs|
  {
    if bs[0] != LESS && bs[0] != GREATER then Parsed(bs[0], bs[1..])
    else if |bs| == 1 then Failed(UnexpectedEnd)
    else Parsed(bs[1], bs[2..])
  }

  /** One array element. An end marker or the end of input reads as an empty document. */
  function ReadSingle(bs: Bytes): (r: Parsed<Value>)
    ensures r.Parsed? ==> |r.rest| <= |bs| && (bs != [] ==> |r.rest| < |bs|)
    decreases |bs|, 0
  {
    if bs == [] then Parsed(Document([]), bs)
    else
      match ReadType(bs)
      case Failed(error) => Failed(error)
      case Parsed(ctype, rest) =>
        if ctype == END then Parsed(Document([]), rest) else ReadValue(ctype, rest)
  }

  /** Array elements up to a NUL, which stays. */
  function ReadElements(bs: Bytes): (r: Parsed<seq<Value>>)
    ensures r.Parsed? ==> |r.rest| <= |bs|
    decreases |bs|, 1
  {
    if bs == [] || bs[0] == 0 then Parsed([], bs)
    else
      match ReadSingle(bs)
      case Failed(error) => Failed(error)
      case Parsed(value, rest) =>
        match ReadElements(rest)
        case Failed(error) => Failed(error)
        case Parsed(values, rest) => Parsed([value] + values, rest)
  }

  /** One field after its leading type byte: with its name and its real type, if it has a name. */
  function ReadField(named: bool, ctype: Byte, bs: Bytes): (r: Parsed<Field>)
    ensures r.Parsed? ==> |r.rest| <= |bs|
    decreases |bs|, 3
  {
    if !named then
      match ReadValue(ctype, bs)
      case Failed(error) => Failed(error)
      case Parsed(value, rest) => Parsed(Field([], value), rest)
    else
      match ReadCString(bs)
      case Failed(error) => Failed(error)
      case Parsed(key, rest) =>
        if rest == [] then Failed(UnexpectedEnd)
        else
          match ReadValue(rest[0], rest[1..])
          case Failed(error) => Failed(error)
          case Parsed(value, rest) => Parsed(Field(key, value), rest)
  }

  /** Fields up to an end marker, the end of input or, if they are named, a NUL. */
  function ReadFields(named: bool, bs: Bytes): (r: Parsed<seq<Field>>)
    ensures r.Parsed? ==> |r.rest| <= |bs|
    decreases |bs|, 1
  {
    if bs == [] then Parsed([], bs)
    else
      match ReadType(bs)
      case Failed(error) => Failed(error)
      case Parsed(ctype, rest) =>
        if ctype == END || (named && ctype == 0) then Parsed([], rest)
        else
          match ReadField(named, ctype, rest)
          case Failed(error) => Failed(error)
          case Parsed(field, rest) =>
            match ReadFields(named, rest)
            case Failed(error) => Failed(error)
            case Parsed(fields, rest) => Parsed([field] + fields, rest)
  }

  /** A whole key string: its values, unnamed. */
  function Decode(bs: Bytes): Parsed<Value> { AsDocument(ReadFields(false, bs)) }
}
