/** Raw BSON values, the parts of the encoding that fix a document's length, and a few types used everywhere. */
module Bson {

  datatype Option<+T> = None | Some(value: T)

  /** The two clusters that are compared. */
  datatype Cluster = Src | Dst

  const TWO_TO_THE_64 := 0x1_0000_0000_0000_0000

  /** Sequences end to end. */
  function Concat<T>(ss: seq<seq<T>>): seq<T> {
    if ss == [] then [] else Concat(ss[..|ss| - 1]) + ss[|ss| - 1]
  }

  type Byte = b: int | 0 <= b < 256

  /** A value as the driver holds it: a type byte and the encoded bytes. A missing value has type 0. */
  datatype RawValue = RawValue(bsonType: Byte, value: seq<Byte>)

  const NoValue := RawValue(0, [])

  /** A decimal numeral, as bytes. */
  function Itoa(n: nat): (r: seq<Byte>)
    ensures |r| == Digits(n)
    ensures 0 !in r
  {
    if n < 10 then [48 + n] else Itoa(n / 10) + [48 + n % 10]
  }

  function Digits(n: nat): nat { if n < 10 then 1 else 1 + Digits(n / 10) }

  /** An element: its type, its NUL-terminated name, its value. */
  function Element(bsonType: Byte, name: seq<Byte>, value: seq<Byte>): seq<Byte> {
    [bsonType] + name + [0] + value
  }

  /** `n` in four little-endian bytes, truncated as a conversion to uint32 truncates. */
  function Uint32LE(n: nat): (r: seq<Byte>)
    ensures |r| == 4
  {
    [n % 256, n / 0x100 % 256, n / 0x1_0000 % 256, n / 0x100_0000 % 256]
  }

  /** The elements of an array: values named by their positions, from `first` on. */
  function ArrayElements(els: seq<RawValue>, first: nat): seq<Byte> {
    if els == [] then []
    else Element(els[0].bsonType, Itoa(first), els[0].value) + ArrayElements(els[1..], first + 1)
  }

  /** An array or document with the given elements: length, elements, final NUL. */
  function Framed(elements: seq<Byte>): seq<Byte> { Uint32LE(4 + |elements| + 1) + elements + [0] }

  function EncodedArray(els: seq<RawValue>): seq<Byte> { Framed(ArrayElements(els, 0)) }

  /** The length of an array's encoding. */
  function ArrayLen(els: seq<RawValue>): nat { |EncodedArray(els)| }

  lemma {:induction false} ArrayElementsAppend(els: seq<RawValue>, first: nat, el: RawValue)
    ensures ArrayElements(els + [el], first)
         == ArrayElements(els, first) + Element(el.bsonType, Itoa(first + |els|), el.value)
    decreases |els|
  {
    if els == [] {
      assert ([el])[1..] == [];
      assert ArrayElements([el], first) == Element(el.bsonType, Itoa(first), el.value) + [];
    } else {
      ArrayElementsAppend(els[1..], first + 1, el);
      FirstElement(els, first);
      assert (els + [el])[0] == els[0] && (els + [el])[1..] == els[1..] + [el];
      FirstElement(els + [el], first);
    }
  }

  lemma FirstElement(els: seq<RawValue>, first: nat)
    requires els != []
    ensures ArrayElements(els, first)
         == Element(els[0].bsonType, Itoa(first), els[0].value) + ArrayElements(els[1..], first + 1)
  {
  }
}
