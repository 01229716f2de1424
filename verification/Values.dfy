/** The elements the services are made of: their encoders, decode_application, and exactly
    which values come back from an encoding unchanged. */
module Values {
  import opened Octets
  import opened Tags

  /** A BACnetObjectIdentifier: ten bits of object type, twenty-two of instance. */
  datatype ObjectKey = ObjectKey(objectType: nat, instance: nat) {
    predicate InRange() { objectType < 0x400 && instance < 0x40_0000 }
  }

  function KeyOf(raw: nat): ObjectKey { ObjectKey(raw / 0x40_0000, raw % 0x40_0000) }

  /** object_id: (object_type << 22) | instance in four octets. */
  function ObjectId(key: ObjectKey): (s: octets)
    requires key.InRange()
    ensures |s| == 4 && KeyOf(FromBytes(s)) == key
  {
    var raw := key.objectType * 0x40_0000 + key.instance;
    Pow256Values();
    FromToBytes(raw, 4);
    ToBytes(raw, 4)
  }

  // ---- elements with a one-octet length ----

  /** A tag with its length in the first octet, or from five octets on in the next. */
  function Tagged(number: nat, isContext: bool, body: octets): octets
    requires number < 15 && |body| < 256
  {
    var lead := number * 16 + (if isContext then 8 else 0);
    if |body| < 5 then [lead + |body|] + body else [lead + 5, |body|] + body
  }

  lemma TaggedElement(number: nat, isContext: bool, body: octets)
    requires number < 15 && |body| < 254 && (isContext || number != 1)
    ensures Element(Tagged(number, isContext, body), number, isContext, Value, body)
  {
    hide ReadTag, Slice;
    var e := Tagged(number, isContext, body);
    var head := e[..|e| - |body|];
    assert e == head + body;
    SliceTail(head, body);
    ValueElement(e, number, isContext, Min(|body|, 5), |body|, |head|);
  }

  function ContextUnsigned(number: nat, v: nat): octets
    requires number < 15 && v < 0x1_0000_0000
  {
    Tagged(number, true, UnsignedOctets(v))
  }

  function ContextObjectId(number: nat, key: ObjectKey): octets
    requires number < 15 && key.InRange()
  {
    Tagged(number, true, ObjectId(key))
  }

  /** A REAL is its four IEEE 754 octets. */
  function ContextReal(number: nat, bits: octets): octets
    requires number < 15 && |bits| == 4
  {
    Tagged(number, true, bits)
  }

  function ApplicationUnsigned(v: nat): octets
    requires v < 0x1_0000_0000
  {
    Tagged(2, false, UnsignedOctets(v))
  }

  function ApplicationEnumerated(v: nat): octets
    requires v < 0x1_0000_0000
  {
    Tagged(9, false, UnsignedOctets(v))
  }

  function ApplicationSigned(v: int): octets
    requires -0x8000_0000 <= v < 0x8000_0000
  {
    Tagged(3, false, SignedOctets(v))
  }

  function ApplicationObjectId(key: ObjectKey): octets
    requires key.InRange()
  {
    Tagged(12, false, ObjectId(key))
  }

  function ApplicationReal(bits: octets): octets
    requires |bits| == 4
  {
    Tagged(4, false, bits)
  }

  function ApplicationNull(): octets { [0x00] }

  function ApplicationBoolean(b: bool): octets { [if b then 0x11 else 0x10] }

  /** Text is its UTF-8 octets, after the octet that names the character set. The one-octet
      length holds up to 255; `bytes` raises past that. */
  function ApplicationCharacterString(text: octets): Outcome<octets> {
    if |text| < 255 then Ok(Tagged(7, false, [0] + text)) else Raise(ValueError)
  }

  /** The one encoder with the two-octet escape; struct.pack raises past 65535. */
  function ApplicationOctetString(s: octets): Outcome<octets> {
    if |s| < 254 then Ok(Tagged(6, false, s))
    else if |s| < 0x1_0000 then Ok([0x65, 254] + ToBytes(|s|, 2) + s)
    else Raise(StructError)
  }

  function Opening(number: nat): octets
    requires number < 15
  {
    [number * 16 + 14]
  }

  function Closing(number: nat): octets
    requires number < 15
  {
    [number * 16 + 15]
  }

  lemma OpeningElement(number: nat)
    requires number < 15
    ensures Element(Opening(number), number, true, Open, []) && Whole(Opening(number), Open)
  {
    var e := Opening(number);
    assert e[0] / 16 == number && e[0] / 8 % 2 == 1 && e[0] % 8 == 6;
    assert e[0..] == e;
  }

  lemma ClosingElement(number: nat)
    requires number < 15
    ensures Element(Closing(number), number, true, Close, []) && Whole(Closing(number), Close)
  {
    var e := Closing(number);
    assert e[0] / 16 == number && e[0] / 8 % 2 == 1 && e[0] % 8 == 7;
    assert e[0..] == e;
  }

  lemma SimpleElements()
    ensures Element(ApplicationNull(), 0, false, Value, [])
    ensures forall b :: Element(ApplicationBoolean(b), 1, false, Value, [if b then 1 else 0])
  {
    hide ReadTag;
    ValueElement(ApplicationNull(), 0, false, 0, 0, 1);
    assert Slice(ApplicationNull(), 1, 1) == [];
    ValueElement(ApplicationBoolean(true), 1, false, 1, 1, 1);
    ValueElement(ApplicationBoolean(false), 1, false, 0, 0, 1);
  }

  lemma LongOctetStringElement(s: octets)
    requires 254 <= |s| < 0x1_0000
    ensures Element(ApplicationOctetString(s).value, 6, false, Value, s)
  {
    var e := ApplicationOctetString(s).value;
    Pow256Values();
    FromToBytes(|s|, 2);
    hide ReadTag;
    assert Slice(e, 2, 4) == ToBytes(|s|, 2);
    ValueElement(e, 6, false, 5, |s|, 4);
    assert Slice(e, 4, 4 + |s|) == s;
  }

  // ---- decode_application ----

  /** The Python value of a primitive; text, REAL and Double stay as their octets. */
  datatype Decoded =
    | Nothing | Boolean(b: bool) | Integer(i: int) | Real(bits: octets) | Double(bits: octets)
    | Text(text: octets) | Bits(flags: seq<bool>) | Object(key: ObjectKey) | Raw(raw: octets)

  /** bits[:len(bits) - unused] if unused else bits, a negative stop counting from the end. */
  function DropUnused(bits: seq<bool>, unused: nat): seq<bool> {
    if unused <= |bits| then bits[..|bits| - unused]
    else if unused <= 2 * |bits| then bits[..2 * |bits| - unused] else []
  }

  function DecodeBody(number: byte, body: octets): Outcome<Decoded> {
    if number == 0 then Ok(Nothing)
    else if number == 1 then (if body == [] then Raise(IndexError) else Ok(Boolean(body[0] != 0)))
    else if number == 2 || number == 9 then Ok(Integer(FromBytes(body)))
    else if number == 3 then Ok(Integer(FromSigned(body)))
    else if number == 4 then (if |body| == 4 then Ok(Real(body)) else Raise(StructError))
    else if number == 5 then (if |body| == 8 then Ok(Double(body)) else Raise(StructError))
    else if number == 7 then Ok(Text(Slice(body, 1, |body|)))
    else if number == 8 then
      if body == [] then Raise(IndexError) else Ok(Bits(DropUnused(UnpackBits(body[1..]), body[0])))
    else if number == 12 then (if |body| == 4 then Ok(Object(KeyOf(FromBytes(body)))) else Raise(StructError))
    else Ok(Raw(body))
  }

  function DecodeApplication(s: octets): Outcome<Decoded> {
    if s == [] then Ok(Nothing) else
    var tag :- ReadTag(s, 0);
    if tag.isContext || tag.kind != Value then Ok(Nothing) else DecodeBody(tag.number, tag.body)
  }

  /** application_tag: the application tag number of the first primitive, or None. */
  function ApplicationTag(s: octets): Outcome<Option<byte>> {
    if s == [] then Ok(None) else
    var tag :- ReadTag(s, 0);
    Ok(if tag.isContext then None else Some(tag.number))
  }

  lemma DecodeElement(e: octets, number: byte, body: octets)
    requires Element(e, number, false, Value, body)
    ensures DecodeApplication(e) == DecodeBody(number, body)
    ensures ApplicationTag(e) == Ok(Some(number))
  {
  }

  /** What is decoded of any tag: nothing of one that is constructed or context-tagged, eight octets
      of a Double, the content itself of the types without a Python value, and a struct.error of
      a REAL, Double or object identifier of another length. Of no octets nothing is decoded. */
  lemma WhatIsDecoded(e: octets, number: byte, isContext: bool, kind: Kind, body: octets)
    requires Element(e, number, isContext, kind, body)
    ensures isContext || kind != Value ==> DecodeApplication(e) == Ok(Nothing)
    ensures ApplicationTag(e) == Ok(if isContext then None else Some(number))
    ensures !isContext && kind == Value && number == 5 && |body| == 8 ==> DecodeApplication(e) == Ok(Double(body))
    ensures !isContext && kind == Value && number !in {0, 1, 2, 3, 4, 5, 7, 8, 9, 12} ==>
            DecodeApplication(e) == Ok(Raw(body))
    ensures !isContext && kind == Value && ((number in {4, 12} && |body| != 4) || (number == 5 && |body| != 8)) ==>
              DecodeApplication(e) == Raise(StructError)
    ensures DecodeApplication([]) == Ok(Nothing) && ApplicationTag([]) == Ok(None)
  {
    hide ReadTag, UnpackBits, FromBytes, FromSigned;
  }

  /** A bit string that claims more unused bits than it has: the slice to a negative bound counts from
      the end, so that bits are kept as long as the claim is less than twice their number. */
  lemma TooManyUnused(octets': octets, unused: byte)
    ensures var bits := UnpackBits(octets'); var n := |bits|;
            DecodeBody(8, [unused] + octets') ==
            Ok(Bits(if unused <= n then bits[..n - unused] else if unused < 2 * n then bits[..2 * n - unused] else []))
  {
    assert ([unused] + octets')[1..] == octets';
  }

  /** Integers, object identifiers, REALs and BOOLEANs come back as they went out. */
  lemma NumbersRoundTrip(v: nat, i: int, key: ObjectKey, real4: octets, b: bool)
    requires v < 0x1_0000_0000 && -0x8000_0000 <= i < 0x8000_0000 && key.InRange() && |real4| == 4
    ensures DecodeApplication(ApplicationUnsigned(v)) == Ok(Integer(v))
    ensures DecodeApplication(ApplicationEnumerated(v)) == Ok(Integer(v))
    ensures DecodeApplication(ApplicationSigned(i)) == Ok(Integer(i))
    ensures DecodeApplication(ApplicationObjectId(key)) == Ok(Object(key))
    ensures DecodeApplication(ApplicationReal(real4)) == Ok(Real(real4))
    ensures DecodeApplication(ApplicationBoolean(b)) == Ok(Boolean(b))
    ensures DecodeApplication(ApplicationNull()) == Ok(Nothing)
  {
    hide Element, DecodeApplication, ApplicationTag, Tagged, FromBytes, FromSigned, UnsignedOctets, SignedOctets,
        ObjectId;
    TaggedElement(2, false, UnsignedOctets(v));
    DecodeElement(ApplicationUnsigned(v), 2, UnsignedOctets(v));
    TaggedElement(9, false, UnsignedOctets(v));
    DecodeElement(ApplicationEnumerated(v), 9, UnsignedOctets(v));
    TaggedElement(3, false, SignedOctets(i));
    DecodeElement(ApplicationSigned(i), 3, SignedOctets(i));
    TaggedElement(12, false, ObjectId(key));
    DecodeElement(ApplicationObjectId(key), 12, ObjectId(key));
    TaggedElement(4, false, real4);
    DecodeElement(ApplicationReal(real4), 4, real4);
    SimpleElements();
    DecodeElement(ApplicationBoolean(b), 1, [if b then 1 else 0]);
    DecodeElement(ApplicationNull(), 0, []);
  }

  /** An octet string comes back exactly when it is encoded at all: up to 65535 octets. */
  lemma OctetStringRoundTrip(s: octets)
    ensures var e := ApplicationOctetString(s);
            (e.Ok? && DecodeApplication(e.value) == Ok(Raw(s))) <==> |s| < 0x1_0000
  {
    hide Element, DecodeApplication;
    if |s| < 254 {
      TaggedElement(6, false, s);
      DecodeElement(Tagged(6, false, s), 6, s);
    } else if |s| < 0x1_0000 {
      LongOctetStringElement(s);
      DecodeElement(ApplicationOctetString(s).value, 6, s);
    }
  }

  lemma DecodeValue(e: octets, tag: Tag)
    requires e != [] && ReadTag(e, 0) == Ok(tag) && !tag.isContext && tag.kind == Value
    ensures DecodeApplication(e) == DecodeBody(tag.number, tag.body)
  {
  }

  /** A content length of 254 or 255 is read as an escape, which eats octets of the text. */
  lemma LongTextMisread(text: octets)
    requires 253 <= |text| < 255
    ensures DecodeApplication(Tagged(7, false, [0] + text)) != Ok(Text(text))
  {
    hide DecodeApplication, ReadTag, FromBytes;
    var e := Tagged(7, false, [0] + text);
    var start := if |text| == 253 then 4 else 6;
    var length := FromBytes(Slice(e, 2, start));
    ValueElement(e, 7, false, 5, length, start);
    var content := Slice(e, start, start + length);
    DecodeValue(e, Tag(7, false, Value, content, start + length));
    assert |content| < |text|;
  }

  /** A character string comes back exactly when it has at most 252 octets: at 254 and 255 the
      length octet reads as an escape, and past that there is no encoding. */
  lemma CharacterStringRoundTrip(text: octets)
    ensures var e := ApplicationCharacterString(text);
            (e.Ok? && DecodeApplication(e.value) == Ok(Text(text))) <==> |text| <= 252
  {
    hide Element, DecodeApplication, Tagged;
    var body := [0] + text;
    if |text| <= 252 {
      TaggedElement(7, false, body);
      DecodeElement(Tagged(7, false, body), 7, body);
      assert Slice(body, 1, |body|) == text;
    } else if |text| < 255 {
      LongTextMisread(text);
    }
  }

  // ---- bit strings ----

  /** The number a run of bits spells, first bit most significant. */
  function Number(bits: seq<bool>): nat {
    if bits == [] then 0 else 2 * Number(bits[..|bits| - 1]) + (if bits[|bits| - 1] then 1 else 0)
  }

  /** The low `n` bits of `v`, most significant first. */
  function BitsOf(v: nat, n: nat): (bits: seq<bool>)
    ensures |bits| == n
  {
    if n == 0 then [] else BitsOf(v / 2, n - 1) + [v % 2 == 1]
  }

  function Pow2(n: nat): (p: nat)
    ensures p > 0
  {
    if n == 0 then 1 else 2 * Pow2(n - 1)
  }

  lemma {:induction false} NumberBelow(bits: seq<bool>)
    ensures Number(bits) < Pow2(|bits|)
  {
    if bits != [] {
      NumberBelow(bits[..|bits| - 1]);
    }
  }

  lemma {:induction false} BitsOfNumber(bits: seq<bool>)
    ensures BitsOf(Number(bits), |bits|) == bits
  {
    if bits != [] {
      BitsOfNumber(bits[..|bits| - 1]);
      assert bits == bits[..|bits| - 1] + [bits[|bits| - 1]];
    }
  }

  /** Eight bits from the front, filled up with false. */
  function Block(bits: seq<bool>): (b: seq<bool>)
    ensures |b| == 8
  {
    if |bits| >= 8 then bits[..8] else bits + seq(8 - |bits|, _ => false)
  }

  function Octet(bits: seq<bool>): byte
    requires |bits| == 8
  {
    NumberBelow(bits);
    assert Pow2(8) == 256 by { assert Pow2(8) == 16 * Pow2(4); }
    Number(bits)
  }

  /** The octets of a BIT STRING, bit 0 first. */
  function PackBits(bits: seq<bool>): (s: octets)
    ensures |s| == (|bits| + 7) / 8
  {
    if bits == [] then [] else [Octet(Block(bits))] + PackBits(bits[Min(8, |bits|)..])
  }

  /** Every bit of every octet: `octet & (0x80 >> position)` for position 0..7. */
  function UnpackBits(s: octets): (bits: seq<bool>)
    ensures |bits| == 8 * |s|
  {
    if s == [] then [] else BitsOf(s[0], 8) + UnpackBits(s[1..])
  }

  /** Unpacking gives back the bits, with false filling up the last octet. */
  lemma {:induction false} UnpackPack(bits: seq<bool>)
    ensures |bits| <= 8 * |PackBits(bits)|
    ensures UnpackBits(PackBits(bits))[..|bits|] == bits
  {
    if bits != [] {
      var rest := bits[Min(8, |bits|)..];
      UnpackPack(rest);
      BitsOfNumber(Block(bits));
      assert PackBits(bits)[1..] == PackBits(rest);
      var all := UnpackBits(PackBits(bits));
      assert all == Block(bits) + UnpackBits(PackBits(rest));
      if |bits| >= 8 {
        assert all[..|bits|] == bits[..8] + UnpackBits(PackBits(rest))[..|rest|];
      }
    }
  }

  /** application_bit_string. The length is put straight into the low bits of the first octet,
      `0x80 | len(body)`, which `bytes` takes up to 255. */
  function ApplicationBitString(bits: seq<bool>): Outcome<octets> {
    var body := BitStringBody(bits);
    if |body| < 128 then Ok([128 + |body|] + body)
    else if |body| < 256 then Ok([|body|] + body)
    else Raise(ValueError)
  }

  /** The number of unused bits in the last octet, then the octets. */
  function BitStringBody(bits: seq<bool>): octets {
    [8 * |PackBits(bits)| - |bits|] + PackBits(bits)
  }

  lemma BitStringBodyDecodes(bits: seq<bool>)
    ensures DecodeBody(8, BitStringBody(bits)) == Ok(Bits(bits))
  {
    UnpackPack(bits);
    assert BitStringBody(bits)[1..] == PackBits(bits);
  }

  /** A bit string that comes back at all comes back from a content of its own length, so an
      encoding read as a shorter content has lost bits. */
  lemma ShortContentLosesBits(bits: seq<bool>, content: octets)
    requires |content| <= |PackBits(bits)|
    ensures DecodeBody(8, content) != Ok(Bits(bits))
  {
    if content != [] {
      assert |DropUnused(UnpackBits(content[1..]), content[0])| <= 8 * (|content| - 1);
    }
  }

  /** A bit string comes back exactly when it has at most 24 bits, or 33 to 48: a content of
      five octets reads as an escaped length, one of eight or more changes the tag itself, and
      six and seven, which clause 20.2.1.3.1 reserves, this decoder takes as lengths. */
  lemma BitStringRoundTrip(bits: seq<bool>)
    ensures var e := ApplicationBitString(bits);
            (e.Ok? && DecodeApplication(e.value) == Ok(Bits(bits)))
            <==> (|bits| <= 24 || 33 <= |bits| <= 48)
  {
    hide DecodeApplication, DecodeBody, ReadTag;
    var body := BitStringBody(bits);
    var n := |body|;
    if n < 256 {
      var e := ApplicationBitString(bits).value;
      if n < 5 || n == 6 || n == 7 {
        PlainLength(e, n, body);
        BitStringBodyDecodes(bits);
      } else {
        BitStringMisread(bits, e);
      }
    }
  }

  lemma PlainLength(e: octets, n: nat, body: octets)
    requires n == |body| && (0 < n < 5 || n == 6 || n == 7) && e == [128 + n] + body
    ensures DecodeApplication(e) == DecodeBody(8, body)
  {
    assert e[0..] == e;
    assert e[0] / 16 == 8 && e[0] / 8 % 2 == 0 && e[0] % 8 == n;
    assert Slice(e, 1, 1 + n) == body;
    assert ReadFirst(e) == Ok(Tag(8, false, Value, body, 1 + n));
    DecodeValue(e, Tag(8, false, Value, body, 1 + n));
  }

  lemma BitStringMisread(bits: seq<bool>, e: octets)
    requires ApplicationBitString(bits) == Ok(e)
    requires |BitStringBody(bits)| == 5 || |BitStringBody(bits)| >= 8
    ensures DecodeApplication(e) != Ok(Bits(bits))
  {
    hide DecodeBody, PackBits;
    var r := ReadTag(e, 0);
    if r.Ok? && !r.value.isContext && r.value.kind == Value && r.value.number == 8 {
      DecodeValue(e, r.value);
      assert e[0..] == e;
      assert e[0] / 16 == 8;
      ShortContentLosesBits(bits, r.value.body);
    } else {
      NotBits(e, bits);
    }
  }

  lemma NotBits(e: octets, bits: seq<bool>)
    requires var r := ReadTag(e, 0); !(r.Ok? && !r.value.isContext && r.value.kind == Value && r.value.number == 8)
    ensures DecodeApplication(e) != Ok(Bits(bits))
  {
    hide ReadTag;
  }

  // ---- packing in place ----

  function BitOr(a: nat, b: nat): nat
    decreases a
  {
    if a == 0 then b else if b == 0 then a
    else 2 * BitOr(a / 2, b / 2) + (if a % 2 == 1 || b % 2 == 1 then 1 else 0)
  }

  lemma NumberStep(bits: seq<bool>)
    requires bits != []
    ensures var k := |bits| - 1; Number(bits) == 2 * Number(bits[..k]) + (if bits[k] then 1 else 0)
  {
  }

  lemma {:induction false} SetBit(bits: seq<bool>, i: nat)
    requires i < |bits|
    ensures Number(bits[i := true]) == BitOr(Number(bits), Pow2(|bits| - 1 - i))
  {
    hide BitOr, Number;
    var k := |bits| - 1;
    NumberStep(bits);
    NumberStep(bits[i := true]);
    if i == k {
      assert bits[i := true][..k] == bits[..k];
      OrOne(Number(bits));
    } else {
      SetBit(bits[..k], i);
      assert bits[i := true][..k] == bits[..k][i := true];
      OrDouble(Number(bits[..k]), Pow2(k - 1 - i), if bits[k] then 1 else 0);
    }
  }

  lemma OrOne(a: nat)
    ensures BitOr(a, 1) == 2 * (a / 2) + 1
  {
  }

  lemma OrDouble(a: nat, p: nat, low: nat)
    requires low < 2 && p > 0
    ensures BitOr(2 * a + low, 2 * p) == 2 * BitOr(a, p) + low
  {
    assert (2 * a + low) / 2 == a && (2 * a + low) % 2 == low;
    assert (2 * p) / 2 == p && (2 * p) % 2 == 0;
  }

  lemma PackHead(bits: seq<bool>)
    requires bits != []
    ensures PackBits(bits) == [Octet(Block(bits))] + PackBits(bits[Min(8, |bits|)..])
  {
  }

  lemma SetFirstOctet(bits: seq<bool>, i: nat)
    requires i < |bits|
    ensures i < 8 ==> Octet(Block(bits[i := true])) == BitOr(Octet(Block(bits)), Pow2(7 - i))
    ensures i >= 8 ==> Block(bits[i := true]) == Block(bits)
  {
    hide BitOr, Number, Pow2;
    if i < 8 {
      SetBit(Block(bits), i);
      assert Block(bits[i := true]) == Block(bits)[i := true];
    }
  }

  lemma {:induction false} PackSetBit(bits: seq<bool>, i: nat)
    requires i < |bits|
    ensures var s := PackBits(bits); var mask := Pow2(7 - i % 8);
            BitOr(s[i / 8], mask) < 256 && PackBits(bits[i := true]) == s[i / 8 := BitOr(s[i / 8], mask)]
  {
    hide BitOr, Pow2, Octet, Block, PackBits;
    var m := Min(8, |bits|);
    var after := bits[i := true];
    PackHead(bits);
    PackHead(after);
    SetFirstOctet(bits, i);
    if i < 8 {
      assert after[m..] == bits[m..];
    } else {
      PackSetBit(bits[m..], i - 8);
      assert after[m..] == bits[m..][i - 8 := true];
      assert (i - 8) / 8 == i / 8 - 1 && (i - 8) % 8 == i % 8;
    }
  }

  lemma {:induction false} PackNothing(n: nat)
    ensures PackBits(seq(n, _ => false)) == seq((n + 7) / 8, _ => 0)
  {
    if n > 0 {
      var bits: seq<bool> := seq(n, _ => false);
      var m := Min(8, n);
      assert bits[m..] == seq(n - m, _ => false);
      PackNothing(n - m);
      NumberOfNothing(8);
      assert Block(bits) == seq(8, _ => false);
    }
  }

  lemma {:induction false} NumberOfNothing(n: nat)
    ensures Number(seq(n, _ => false)) == 0
  {
    if n > 0 {
      var bits: seq<bool> := seq(n, _ => false);
      assert bits[..n - 1] == seq(n - 1, _ => false);
      NumberOfNothing(n - 1);
    }
  }

  /** The bits before `k`, the rest still false. */
  function Masked(bits: seq<bool>, k: nat): (m: seq<bool>)
    requires k <= |bits|
    ensures |m| == |bits|
  {
    bits[..k] + seq(|bits| - k, _ => false)
  }

  lemma MaskStep(bits: seq<bool>, index: nat)
    requires index < |bits|
    ensures var s := PackBits(Masked(bits, index)); var mask := Pow2(7 - index % 8);
            && BitOr(s[index / 8], mask) < 256
            && PackBits(Masked(bits, index + 1)) == if bits[index] then s[index / 8 := BitOr(s[index / 8], mask)] else s
  {
    hide BitOr, PackBits, Pow2;
    PackSetBit(Masked(bits, index), index);
    if bits[index] {
      assert Masked(bits, index + 1) == Masked(bits, index)[index := true];
    } else {
      assert Masked(bits, index + 1) == Masked(bits, index);
    }
  }

  lemma MaskEnds(bits: seq<bool>)
    ensures PackBits(Masked(bits, 0)) == seq((|bits| + 7) / 8, _ => 0)
    ensures Masked(bits, |bits|) == bits
  {
    hide PackBits;
    PackNothing(|bits|);
    assert Masked(bits, 0) == seq(|bits|, _ => false);
  }

  /** The loop of application_bit_string: it sets bit after bit in a bytearray of zeros. */
  method PackInPlace(bits: seq<bool>) returns (packed: array<byte>)
    ensures fresh(packed) && packed[..] == PackBits(bits)
  {
    hide PackBits, Masked, BitOr, Pow2;
    packed := new byte[(|bits| + 7) / 8](_ => 0);
    MaskEnds(bits);
    assert packed[..] == PackBits(Masked(bits, 0));
    for index := 0 to |bits|
      invariant packed[..] == PackBits(Masked(bits, index))
    {
      MaskStep(bits, index);
      if bits[index] {
        assert packed[index / 8] == packed[..][index / 8];
        packed[index / 8] := BitOr(packed[index / 8], Pow2(7 - index % 8));
      }
    }
  }
}
