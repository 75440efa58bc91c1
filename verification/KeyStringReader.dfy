/** The decoder as it runs: a consumer that moves an index through the bytes. */
module KeyStringReader {
  import opened Bson
  import opened KeyString

  datatype Result<+T> = Ok(value: T) | Err(error: Error)

  /** An integer in the narrowest width, as its magnitude decides it. */
  function Narrowest(negative: bool, integerPart: nat): (r: Value)
    ensures r == Integer(if negative then -(integerPart as int) else integerPart)
  {
    var fitsInInt32 := integerPart < TWO_TO_THE_31 || (negative && integerPart == TWO_TO_THE_31);
    var signed := if negative then -(integerPart as int) else integerPart;
    if fitsInInt32 then Int32(signed) else Int64(signed)
  }

  class BufferConsumer {
    const buf: Bytes
    var index: nat

    constructor (buf: Bytes)
      ensures Valid() && Rest() == buf
    {
      this.buf, index := buf, 0;
    }

    ghost predicate Valid()
      reads this
    {
      index <= |buf|
    }

    /** What is left to read. */
    ghost function Rest(): Bytes
      requires Valid()
      reads this
    {
      buf[index..]
    }

    /** A read did what the specification says of the bytes that were left. */
    ghost predicate Did<T>(r: Result<T>, spec: Parsed<T>)
      reads this
    {
      && Valid()
      && (spec.Failed? ==> r == Err(spec.error))
      && (spec.Parsed? ==> r == Ok(spec.value) && Rest() == spec.rest)
    }

    predicate HasUint8()
      reads this
    {
      index < |buf|
    }

    function PeekUint8(): Byte
      requires Valid() && HasUint8()
      reads this
    {
      buf[index]
    }

    method ReadUint8() returns (r: Result<Byte>)
      requires Valid()
      modifies this`index
      ensures Valid() && index >= old(index)
      ensures old(Rest()) == [] ==> r == Err(UnexpectedEnd)
      ensures old(Rest()) != [] ==> r == Ok(old(Rest())[0]) && Rest() == old(Rest())[1..] && index > old(index)
    {
      if index >= |buf| {
        return Err(UnexpectedEnd);
      }
      index := index + 1;
      return Ok(buf[index - 1]);
    }

    method ReadUint32BE() returns (r: Result<nat>)
      requires Valid()
      modifies this`index
      ensures Did(r, ReadUint(4, old(Rest()))) && index >= old(index)
    {
      ghost var all := Rest();
      var b3 := ReadUint8();
      if b3.Err? { return Err(b3.error); }
      var b2 := ReadUint8();
      if b2.Err? { return Err(b2.error); }
      var b1 := ReadUint8();
      if b1.Err? { return Err(b1.error); }
      var b0 := ReadUint8();
      if b0.Err? { return Err(b0.error); }
      assert Rest() == all[4..] && all[..4] == [b3.value, b2.value, b1.value, b0.value];
      AccumulateFour(0, all[..4]);
      return Ok(b3.value as int * 0x100_0000 + b2.value as int * 0x1_0000 + b1.value as int * 0x100 + b0.value);
    }

    method ReadUint64BE() returns (r: Result<nat>)
      requires Valid()
      modifies this`index
      ensures Did(r, ReadUint(8, old(Rest()))) && index >= old(index)
    {
      ghost var all := Rest();
      var w1 := ReadUint32BE();
      if w1.Err? { return Err(w1.error); }
      var w0 := ReadUint32BE();
      if w0.Err? { return Err(w0.error); }
      assert all[4..][4..] == all[8..] && all[..8] == all[..4] + all[4..][..4];
      AccumulateParts(0, all[..4], all[4..][..4]);
      AccumulateFour(w1.value, all[4..][..4]);
      AccumulateFour(0, all[4..][..4]);
      return Ok(w1.value * 0x1_0000_0000 + w0.value);
    }

    method TakeBytes(n: nat) returns (r: Result<Bytes>)
      requires Valid()
      modifies this`index
      ensures Did(r, ReadBytes(n, old(Rest()))) && index >= old(index)
    {
      if index + n > |buf| {
        return Err(UnexpectedEnd);
      }
      assert buf[index..][..n] == buf[index..index + n] && buf[index..][n..] == buf[index + n..];
      r := Ok(buf[index..index + n]);
      index := index + n;
    }

    /** Takes the bytes before the next NUL, or all of them, and then the NUL. */
    method TakeCString() returns (r: Result<Bytes>)
      requires Valid()
      modifies this`index
      ensures Did(r, ReadCString(old(Rest()))) && index >= old(index)
    {
      var length := 0;
      ghost var all := Rest();
      while index + length < |buf| && buf[index + length] != 0
        invariant length <= |all| && forall i | 0 <= i < length :: all[i] != 0
      {
        length := length + 1;
      }
      UpToNul(all, length);
      var bytes := TakeBytes(length);
      var nul := ReadUint8();
      if nul.Err? {
        return Err(nul.error);
      }
      return bytes;
    }

    method TakeCStringWithNuls() returns (r: Result<Bytes>)
      requires Valid()
      modifies this`index
      ensures Did(r, ReadStringWithNuls(old(Rest()))) && index >= old(index)
    {
      var first := TakeCString();
      if first.Err? {
        return Err(first.error);
      }
      var str := first.value;
      while HasUint8() && PeekUint8() == 0xFF
        invariant Valid() && index >= old(index)
        invariant ReadStringWithNuls(old(Rest())) == Continuing(str, Rest())
        decreases |buf| - index
      {
        ContinuingUnfolds(str, Rest());
        var _ := ReadUint8();
        var next := TakeCString();
        if next.Err? {
          return Err(next.error);
        }
        str := str + [0] + next.value;
      }
      return Ok(str);
    }

    // ---- Numbers -------------------------------------------------------------------------

    /** Bytes appended to a number in base 256, each inverted if the number is negative. */
    method TakeAccumulated(negative: bool, n: nat, start: nat) returns (r: Result<nat>)
      requires Valid()
      modifies this`index
      ensures Valid() && index >= old(index)
      ensures |old(Rest())| < n ==> r == Err(UnexpectedEnd)
      ensures |old(Rest())| >= n ==>
        && r == Ok(Accumulate(start, Sign(negative, old(Rest())[..n])))
        && Rest() == old(Rest())[n..]
    {
      var acc: nat := start;
      ghost var all := Rest();
      for i := 0 to n
        invariant Valid() && index == old(index) + i
        invariant i <= |all| && Rest() == all[i..]
        invariant n <= |all| ==>
          Accumulate(acc, Sign(negative, all[i..n])) == Accumulate(start, Sign(negative, all[..n]))
      {
        var b := ReadUint8();
        if b.Err? {
          return Err(b.error);
        }
        var byte := if negative then 255 - b.value else b.value;
        if n <= |all| {
          var left := Sign(negative, all[i..n]);
          assert left[0] == byte && left[1..] == Sign(negative, all[i + 1..n]);
        }
        acc := acc * 256 + byte as int;
      }
      return Ok(acc);
    }

    /** Drops eight bytes of a decimal continuation, if there is one. */
    method SkipContinuation(more: bool, value: Value) returns (r: Result<Value>)
      requires Valid()
      modifies this`index
      ensures Did(r, Continued(more, value, old(Rest()))) && index >= old(index)
    {
      if more {
        var low := ReadUint64BE();
        if low.Err? {
          return Err(low.error);
        }
      }
      return Ok(value);
    }

    /** Eight bytes, inverted if the number is negative. */
    method TakeEight(negative: bool) returns (r: Result<nat>)
      requires Valid()
      modifies this`index
      ensures Valid() && index >= old(index)
      ensures |old(Rest())| < 8 ==> r == Err(UnexpectedEnd)
      ensures |old(Rest())| >= 8 ==>
        r == Ok(Accumulate(0, Sign(negative, old(Rest())[..8]))) && Rest() == old(Rest())[8..]
    {
      ghost var all := Rest();
      var encoded := ReadUint64BE();
      if encoded.Err? {
        return Err(encoded.error);
      }
      if negative {
        InvertedEight(all[..8]);
        return Ok(TWO_TO_THE_64 - 1 - encoded.value);
      }
      return encoded;
    }

    method TakeLarge(negative: bool) returns (r: Result<Value>)
      requires Valid()
      modifies this`index
      ensures Did(r, ReadLarge(negative, old(Rest()))) && index >= old(index)
    {
      var encoded := TakeEight(negative);
      if encoded.Err? {
        return Err(encoded.error);
      }
      var e := encoded.value;
      if e < TWO_TO_THE_63 {
        r := SkipContinuation(e % 2 != 0, DoubleBits(negative, e / 2 + TWO_TO_THE_62));
      } else {
        r := SkipContinuation(e != TWO_TO_THE_64 - 1, Infinity(negative));
      }
    }

    method TakeSmall(negative: bool) returns (r: Result<Value>)
      requires Valid()
      modifies this`index
      ensures Did(r, ReadSmall(negative, old(Rest()))) && index >= old(index)
    {
      var encoded := TakeEight(negative);
      if encoded.Err? {
        return Err(encoded.error);
      }
      var e := encoded.value;
      if e < TWO_TO_THE_62 {
        r := SkipContinuation(true, Zero);
      } else if e < 3 * TWO_TO_THE_62 {
        r := SkipContinuation(e % 2 != 0, ScaledDoubleBits(negative, (e - TWO_TO_THE_62) / 2));
      } else {
        r := Ok(DoubleBits(negative, e / 4));
      }
    }

    method TakeNumber(negative: bool, n: nat) returns (r: Result<Value>)
      requires Valid() && 1 <= n <= 8
      modifies this`index
      ensures Did(r, ReadNumber(negative, n, old(Rest()))) && index >= old(index)
    {
      ghost var all := Rest();
      var encoded := TakeAccumulated(negative, n, 0);
      if encoded.Err? {
        return Err(encoded.error);
      }
      var integerPart := encoded.value / 2;
      if encoded.value % 2 == 0 {
        return Ok(Narrowest(negative, integerPart));
      }
      r := TakeFraction(negative, n, integerPart, all);
    }

    /** The bytes that complete a fraction to eight. */
    method TakeFraction(negative: bool, n: nat, integerPart: nat, ghost all: Bytes) returns (r: Result<Value>)
      requires Valid() && 1 <= n <= 8 && n <= |all| && Rest() == all[n..]
      modifies this`index
      ensures |all| < 8 ==> r == Err(UnexpectedEnd)
      ensures |all| >= 8 ==>
        var f := Accumulate(integerPart, Sign(negative, all[n..8]));
        Did(r, Continued(n == 8 || f % 2 == 1, Fraction(negative, f - f % 4, 8 - n), all[8..]))
      ensures Valid() && index >= old(index)
    {
      var encodedFraction := TakeAccumulated(negative, 8 - n, integerPart);
      if encodedFraction.Err? {
        return Err(encodedFraction.error);
      }
      Eighth(all, n);
      var f := encodedFraction.value;
      OddContinues(f, n);
      var dcm := if n < 8 then f % 4 else 3;
      var value := Fraction(negative, f - f % 4, 8 - n);
      r := SkipContinuation(dcm != 0 && dcm != 2, value);
    }

    // ---- Values --------------------------------------------------------------------------

    method TakeDate() returns (r: Result<Value>)
      requires Valid()
      modifies this`index
      ensures Did(r, ReadDate(old(Rest()))) && index >= old(index)
    {
      var n := ReadUint64BE();
      if n.Err? { return Err(n.error); }
      return Ok(DateTime(n.value - TWO_TO_THE_63));
    }

    method TakeTimestamp() returns (r: Result<Value>)
      requires Valid()
      modifies this`index
      ensures Did(r, ReadTimestamp(old(Rest()))) && index >= old(index)
    {
      ghost var all := Rest();
      var t := ReadUint32BE();
      if t.Err? { return Err(t.error); }
      var i := ReadUint32BE();
      if i.Err? { return Err(i.error); }
      assert all[4..][..4] == all[4..8] && all[4..][4..] == all[8..];
      return Ok(Timestamp(t.value, i.value));
    }

    method TakeOid() returns (r: Result<Value>)
      requires Valid()
      modifies this`index
      ensures Did(r, ReadOid(old(Rest()))) && index >= old(index)
    {
      var oid := TakeBytes(12);
      if oid.Err? { return Err(oid.error); }
      return Ok(ObjectId(oid.value));
    }

    method TakeStr() returns (r: Result<Value>)
      requires Valid()
      modifies this`index
      ensures Did(r, ReadStr(old(Rest()))) && index >= old(index)
    {
      var s := TakeCStringWithNuls();
      if s.Err? { return Err(s.error); }
      return Ok(Str(s.value));
    }

    method TakeCode() returns (r: Result<Value>)
      requires Valid()
      modifies this`index
      ensures Did(r, ReadCode(old(Rest()))) && index >= old(index)
    {
      var s := TakeCStringWithNuls();
      if s.Err? { return Err(s.error); }
      return Ok(Code(s.value));
    }

    method TakeSize() returns (r: Result<nat>)
      requires Valid()
      modifies this`index
      ensures Did(r, ReadSize(old(Rest()))) && index >= old(index)
    {
      var size8 := ReadUint8();
      if size8.Err? { return Err(size8.error); }
      var size: nat := size8.value;
      if size == 0xFF {
        r := ReadUint32BE();
      } else {
        r := Ok(size);
      }
    }

    method TakeBinary() returns (r: Result<Value>)
      requires Valid()
      modifies this`index
      ensures Did(r, ReadBinary(old(Rest()))) && index >= old(index)
    {
      var size := TakeSize();
      if size.Err? { return Err(size.error); }
      ghost var all := Rest();
      var subtype := ReadUint8();
      if subtype.Err? { return Err(subtype.error); }
      var data := TakeBytes(size.value);
      if data.Err? { return Err(data.error); }
      assert all[1..][..size.value] == all[1..1 + size.value];
      assert all[1..][size.value..] == all[1 + size.value..];
      return Ok(Binary(subtype.value, data.value));
    }

    method TakeRegex() returns (r: Result<Value>)
      requires Valid()
      modifies this`index
      ensures Did(r, ReadRegex(old(Rest()))) && index >= old(index)
    {
      var pattern := TakeCString();
      if pattern.Err? { return Err(pattern.error); }
      var options := TakeCString();
      if options.Err? { return Err(options.error); }
      return Ok(Regex(pattern.value, options.value));
    }

    method TakeDBPointer() returns (r: Result<Value>)
      requires Valid()
      modifies this`index
      ensures Did(r, ReadDBPointer(old(Rest()))) && index >= old(index)
    {
      var size := ReadUint32BE();
      if size.Err? { return Err(size.error); }
      ghost var all := Rest();
      var ns := TakeBytes(size.value);
      if ns.Err? { return Err(ns.error); }
      var oid := TakeBytes(12);
      if oid.Err? { return Err(oid.error); }
      assert all[size.value..][..12] == all[size.value..size.value + 12];
      assert all[size.value..][12..] == all[size.value + 12..];
      return Ok(DBPointer(ns.value, oid.value));
    }

    method TakePlain(ctype: Byte) returns (r: Result<Value>)
      requires Valid()
      modifies this`index
      ensures Did(r, ReadPlain(ctype, old(Rest()))) && index >= old(index)
    {
      if ctype == MIN_KEY { r := Ok(MinKey); }
      else if ctype == MAX_KEY { r := Ok(MaxKey); }
      else if ctype == NULLISH { r := Ok(Null); }
      else if ctype == UNDEFINED { r := Ok(Undefined); }
      else if ctype == BOOL + 1 { r := Ok(Bool(true)); }
      else if ctype == BOOL { r := Ok(Bool(false)); }
      else if ctype == DATE { r := TakeDate(); }
      else if ctype == TIMESTAMP { r := TakeTimestamp(); }
      else if ctype == OID { r := TakeOid(); }
      else if ctype == STRING_LIKE { r := TakeStr(); }
      else if ctype == CODE { r := TakeCode(); }
      else if ctype == BIN_DATA { r := TakeBinary(); }
      else if ctype == REG_EX { r := TakeRegex(); }
      else if ctype == DB_REF { r := TakeDBPointer(); }
      else if ctype == NUMERIC { r := Ok(NaN); }
      else if ctype == ZERO { r := Ok(Zero); }
      else if ctype == NEGATIVE_LARGE || ctype == POSITIVE_LARGE { r := TakeLarge(ctype == NEGATIVE_LARGE); }
      else if ctype == NEGATIVE_SMALL || ctype == POSITIVE_SMALL { r := TakeSmall(ctype == NEGATIVE_SMALL); }
      else if NEGATIVE_8_BYTE <= ctype <= NEGATIVE_1_BYTE || POSITIVE_1_BYTE <= ctype <= POSITIVE_8_BYTE {
        r := TakeNumber(ctype <= NEGATIVE_1_BYTE, NumBytesForInt(ctype));
      } else { r := Err(UnknownType(ctype)); }
    }

    method TakeValue(ctype: Byte) returns (r: Result<Value>)
      requires Valid()
      modifies this`index
      ensures Did(r, ReadValue(ctype, old(Rest()))) && index >= old(index)
      decreases |buf| - index, 2
    {
      if ctype == OBJECT {
        r := TakePartial(Named);
      } else if ctype == ARRAY {
        var elements := TakeElements();
        if elements.Err? { return Err(elements.error); }
        var nul := ReadUint8();
        if nul.Err? { return Err(nul.error); }
        r := Ok(Array(elements.value));
      } else if ctype == CODE_WITH_SCOPE {
        var code := TakeCStringWithNuls();
        if code.Err? { return Err(code.error); }
        var scope := TakePartial(Named);
        if scope.Err? { return scope; }
        r := Ok(CodeWithScope(code.value, scope.value));
      } else {
        r := TakePlain(ctype);
      }
    }

    method TakeElements() returns (r: Result<seq<Value>>)
      requires Valid()
      modifies this`index
      ensures Did(r, ReadElements(old(Rest()))) && index >= old(index)
      decreases |buf| - index, 1
    {
      var arr := [];
      NoElementsYet(Rest());
      while HasUint8() && PeekUint8() != 0
        invariant Valid() && index >= old(index)
        invariant MoreElements(arr, ReadElements(Rest())) == ReadElements(old(Rest()))
        decreases |buf| - index
      {
        MoreElementsUnfold(arr, Rest());
        var next := TakePartial(Single);
        if next.Err? { return Err(next.error); }
        arr := arr + [next.value];
      }
      assert arr + [] == arr;
      return Ok(arr);
    }

    /** The type byte of the next value; the caller has checked that there is one. */
    method TakeType() returns (r: Result<Byte>)
      requires Valid() && HasUint8()
      modifies this`index
      ensures Did(r, ReadType(old(Rest()))) && index > old(index)
    {
      ghost var all := Rest();
      r := ReadUint8();
      if r.value == LESS || r.value == GREATER {
        assert |all| > 1 ==> all[1..][1..] == all[2..];
        r := ReadUint8();
      }
    }

    method TakeField(named: bool, ctype: Byte) returns (r: Result<Field>)
      requires Valid()
      modifies this`index
      ensures Did(r, ReadField(named, ctype, old(Rest()))) && index >= old(index)
      decreases |buf| - index, 3
    {
      var key, actual := [], ctype;
      if named {
        var name := TakeCString();
        if name.Err? { return Err(name.error); }
        var again := ReadUint8();
        if again.Err? { return Err(again.error); }
        key, actual := name.value, again.value;
      }
      var value := TakeValue(actual);
      if value.Err? { return Err(value.error); }
      return Ok(Field(key, value.value));
    }

    /** Reads one value, or fields until they end, as the mode says. */
    method TakePartial(mode: Mode) returns (r: Result<Value>)
      requires Valid()
      modifies this`index
      ensures Did(r, ReadPartial(mode, old(Rest()))) && index >= old(index)
      ensures mode.Single? && old(HasUint8()) ==> r.Err? || index > old(index)
      decreases |buf| - index, if mode.Single? then 0 else 1
    {
      var contents := [];
      NoFieldsYet(mode.Named?, Rest());
      while HasUint8()
        invariant Valid() && index >= old(index)
        invariant mode.Single? ==> index == old(index) && contents == []
        invariant !mode.Single? ==>
          MoreFields(contents, ReadFields(mode.Named?, Rest())) == ReadFields(mode.Named?, old(Rest()))
        decreases |buf| - index
      {
        MoreFieldsUnfold(mode.Named?, contents, Rest());
        var ctype := TakeType();
        if ctype.Err? { return Err(ctype.error); }
        if ctype.value == END || (mode.Named? && ctype.value == 0) {
          break;
        }
        if mode.Single? {
          r := TakeValue(ctype.value);
          return;
        }
        var field := TakeField(mode.Named?, ctype.value);
        if field.Err? { return Err(field.error); }
        contents := contents + [field.value];
      }
      assert contents + [] == contents;
      return Ok(Document(contents));
    }
  }

  /** Decodes a whole key string. */
  method KeystringToBson(buf: Bytes) returns (r: Result<Value>)
    ensures r == match Decode(buf) case Failed(error) => Err(error) case Parsed(value, _) => Ok(value)
  {
    var consumer := new BufferConsumer(buf);
    r := consumer.TakePartial(TopLevel);
  }

  datatype Mode = TopLevel | Single | Named

  function ReadPartial(mode: Mode, bs: Bytes): Parsed<Value> {
    if mode.Single? then ReadSingle(bs) else AsDocument(ReadFields(mode.Named?, bs))
  }

  function MoreElements(arr: seq<Value>, r: Parsed<seq<Value>>): Parsed<seq<Value>> {
    match r case Failed(error) => Failed(error) case Parsed(more, rest) => Parsed(arr + more, rest)
  }

  lemma {:induction false} NoElementsYet(bs: Bytes)
    ensures MoreElements([], ReadElements(bs)) == ReadElements(bs)
  {
    var r := ReadElements(bs);
    if r.Parsed? { assert [] + r.value == r.value; }
  }

  lemma {:induction false} NoFieldsYet(named: bool, bs: Bytes)
    ensures MoreFields([], ReadFields(named, bs)) == ReadFields(named, bs)
  {
    var r := ReadFields(named, bs);
    if r.Parsed? { assert [] + r.value == r.value; }
  }

  /** What the elements read so far become once the next one is read. */
  function AfterElement(arr: seq<Value>, next: Parsed<Value>): Parsed<seq<Value>> {
    match next
    case Failed(error) => Failed(error)
    case Parsed(value, later) => MoreElements(arr + [value], ReadElements(later))
  }

  lemma {:induction false} MoreElementsUnfold(arr: seq<Value>, bs: Bytes)
    requires bs != [] && bs[0] != 0
    ensures MoreElements(arr, ReadElements(bs)) == AfterElement(arr, ReadSingle(bs))
  {
    if ReadSingle(bs).Parsed? && ReadElements(ReadSingle(bs).rest).Parsed? {
      var value, more := ReadSingle(bs).value, ReadElements(ReadSingle(bs).rest).value;
      assert arr + ([value] + more) == arr + [value] + more;
    }
  }

  function MoreFields(contents: seq<Field>, r: Parsed<seq<Field>>): Parsed<seq<Field>> {
    match r case Failed(error) => Failed(error) case Parsed(more, rest) => Parsed(contents + more, rest)
  }

  function AfterField(named: bool, contents: seq<Field>, next: Parsed<Field>): Parsed<seq<Field>> {
    match next
    case Failed(error) => Failed(error)
    case Parsed(field, later) => MoreFields(contents + [field], ReadFields(named, later))
  }

  function AfterType(named: bool, contents: seq<Field>, next: Parsed<Byte>): Parsed<seq<Field>> {
    match next
    case Failed(error) => Failed(error)
    case Parsed(ctype, later) =>
      if ctype == END || (named && ctype == 0) then Parsed(contents, later)
      else AfterField(named, contents, ReadField(named, ctype, later))
  }

  lemma {:induction false} MoreFieldsUnfold(named: bool, contents: seq<Field>, bs: Bytes)
    requires bs != []
    ensures MoreFields(contents, ReadFields(named, bs)) == AfterType(named, contents, ReadType(bs))
  {
    assert contents + [] == contents;
    var next := ReadType(bs);
    if next.Parsed? && next.value != END && !(named && next.value == 0) {
      var field := ReadField(named, next.value, next.rest);
      if field.Parsed? && ReadFields(named, field.rest).Parsed? {
        var more := ReadFields(named, field.rest).value;
        assert contents + ([field.value] + more) == contents + [field.value] + more;
      }
    }
  }

  lemma Eighth(all: Bytes, n: nat)
    requires n <= 8 <= |all|
    ensures all[n..][..8 - n] == all[n..8] && all[n..][8 - n..] == all[8..]
  {
  }

  lemma OddContinues(f: nat, n: nat)
    requires n <= 8
    ensures var dcm := if n < 8 then f % 4 else 3;
      (dcm != 0 && dcm != 2) == (n == 8 || f % 2 == 1)
  {
  }

  /** The string read so far and what may continue it. */
  function Continuing(str: Bytes, rest: Bytes): Parsed<Bytes> {
    if rest != [] && rest[0] == 0xFF then
      match ReadStringWithNuls(rest[1..])
      case Failed(error) => Failed(error)
      case Parsed(more, rest) => Parsed(str + [0] + more, rest)
    else Parsed(str, rest)
  }

  lemma ContinuingUnfolds(str: Bytes, rest: Bytes)
    requires rest != [] && rest[0] == 0xFF
    ensures Continuing(str, rest) ==
      match ReadCString(rest[1..])
      case Failed(error) => Failed(error)
      case Parsed(next, later) => Continuing(str + [0] + next, later)
  {
    match ReadCString(rest[1..])
    case Failed(_) =>
    case Parsed(next, later) =>
      if later != [] && later[0] == 0xFF {
        match ReadStringWithNuls(later[1..])
        case Failed(_) =>
        case Parsed(more, _) =>
          assert str + [0] + (next + [0] + more) == str + [0] + next + [0] + more;
      }
  }

  lemma {:induction false} UpToNul(bs: Bytes, n: nat)
    requires n <= |bs| && forall i | 0 <= i < n :: bs[i] != 0
    requires n == |bs| || bs[n] == 0
    ensures ReadCString(bs) == if n == |bs| then Failed(UnexpectedEnd) else Parsed(bs[..n], bs[n + 1..])
    decreases n
  {
    if 0 < n {
      UpToNul(bs[1..], n - 1);
      if n < |bs| {
        assert bs[..n] == [bs[0]] + bs[1..][..n - 1];
      }
    }
  }
}
