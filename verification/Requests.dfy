/** ReadProperty and WriteProperty (clauses 15.5 and 15.9 of ANSI/ASHRAE 135-2024): their APDUs
    and parsers, and exactly which values survive the trip. */
module Requests {
  import opened Octets
  import opened Tags
  import opened Forests
  import opened Values
  import opened Elements

  const SERVICE_READ_PROPERTY: byte := 12
  const SERVICE_READ_PROPERTY_MULTIPLE: byte := 14
  const SERVICE_WRITE_PROPERTY: byte := 15

  function ConfirmedRequest(invokeId: byte, service: byte, parameters: octets): octets {
    [0x00, 0x05, invokeId, service] + parameters
  }

  /** A parameter that is left out when there is none. */
  function OptionalUnsigned(number: nat, v: Option<nat>): octets
    requires number < 15 && (v.Some? ==> v.value < 0x1_0000_0000)
  {
    if v.Some? then ContextUnsigned(number, v.value) else []
  }

  predicate Encodable(v: Option<nat>) { v.Some? ==> v.value < 0x1_0000_0000 }

  function ReadPropertyRequest(invokeId: byte, key: ObjectKey, property: nat, index: Option<nat>): octets
    requires key.InRange() && property < 0x1_0000_0000 && Encodable(index)
  {
    ConfirmedRequest(invokeId, SERVICE_READ_PROPERTY,
                     ContextObjectId(0, key) + (ContextUnsigned(1, property) + OptionalUnsigned(2, index)))
  }

  function WritePropertyRequest(invokeId: byte, key: ObjectKey, property: nat, value: octets,
                                priority: Option<nat>, index: Option<nat>): octets
    requires key.InRange() && property < 0x1_0000_0000 && Encodable(priority) && Encodable(index)
  {
    ConfirmedRequest(invokeId, SERVICE_WRITE_PROPERTY,
                     ContextObjectId(0, key) + (ContextUnsigned(1, property) + (OptionalUnsigned(2, index) +
                     Bracketed(3, value, OptionalUnsigned(4, priority)))))
  }

  /** A value between its opening and closing tag, and what follows. */
  function Bracketed(number: nat, value: octets, after: octets): octets
    requires number < 15
  {
    Opening(number) + (value + (Closing(number) + after))
  }

  function ComplexAck(invokeId: byte, service: byte, parameters: octets): octets {
    [0x30, invokeId, service] + parameters
  }

  /** read_property_ack, and with `index` the ACK of one array element. */
  function ReadPropertyAck(invokeId: byte, key: ObjectKey, property: nat, index: Option<nat>, value: octets): octets
    requires key.InRange() && property < 0x1_0000_0000 && Encodable(index)
  {
    ComplexAck(invokeId, SERVICE_READ_PROPERTY,
               ContextObjectId(0, key) + (ContextUnsigned(1, property) + (OptionalUnsigned(2, index) +
               Bracketed(3, value, []))))
  }

  function SimpleAck(invokeId: byte, service: byte): octets { [0x20, invokeId, service] }

  function RejectPdu(invokeId: byte, reason: byte): octets { [0x60, invokeId, reason] }

  function AbortPdu(invokeId: byte, reason: byte): octets { [0x71, invokeId, reason] }

  function ErrorPdu(invokeId: byte, service: byte, errorClass: nat, errorCode: nat): octets
    requires errorClass < 0x1_0000_0000 && errorCode < 0x1_0000_0000
  {
    [0x50, invokeId, service] + ErrorOctets(errorClass, errorCode)
  }

  // ---- parsers ----

  datatype Target = Target(key: ObjectKey, property: nat, next: nat)

  datatype ReadRequest = ReadRequest(key: ObjectKey, property: nat, index: Option<nat>)

  datatype WriteRequest = WriteRequest(key: ObjectKey, property: nat, index: Option<nat>, value: octets,
                                       priority: Option<nat>)

  /** The object identifier and property identifier every request starts with. */
  function ParseTarget(apdu: octets, position: nat): (r: Outcome<Target>)
    ensures r.Ok? ==> r.value.key.InRange()
  {
    var identifier :- ReadTag(apdu, position);
    var raw :- Unpack(identifier.body, 4);
    var property :- ReadTag(apdu, identifier.next);
    Pow256Values();
    ToFromBytes(identifier.body);
    Ok(Target(KeyOf(raw), FromBytes(property.body), property.next))
  }

  /** parse_read_property_request with the array index */
  function ParseRead(apdu: octets): Outcome<ReadRequest> {
    var target :- ParseTarget(apdu, 4);
    if target.next >= |apdu| then Ok(ReadRequest(target.key, target.property, None)) else
    var tag :- ReadTag(apdu, target.next);
    Ok(ReadRequest(target.key, target.property,
                   if tag.isContext && tag.number == 2 && tag.kind == Value then Some(FromBytes(tag.body)) else None))
  }

  function ParseReadPropertyRequest(apdu: octets): Outcome<Option<ReadRequest>> { Caught(ParseRead(apdu)) }

  /** What is left of a WriteProperty from its value on. */
  function ParseWritten(apdu: octets, target: Target, index: Option<nat>, position: nat): Outcome<WriteRequest> {
    var open :- ReadTag(apdu, position);
    var span :- Descend(apdu, open.next);
    var value := Slice(apdu, open.next, span.closeStart);
    if span.next >= |apdu| then Ok(WriteRequest(target.key, target.property, index, value, None)) else
    var tag :- ReadTag(apdu, span.next);
    Ok(WriteRequest(target.key, target.property, index, value, Some(FromBytes(tag.body))))
  }

  function ParseWrite(apdu: octets): Outcome<WriteRequest> {
    var target :- ParseTarget(apdu, 4);
    var tag :- ReadTag(apdu, target.next);
    if tag.number == 2 && tag.kind == Value
    then ParseWritten(apdu, target, Some(FromBytes(tag.body)), tag.next)
    else ParseWritten(apdu, target, None, target.next)
  }

  /** parse_write_property_request: None for another service and for whatever ends too soon. */
  function ParseWritePropertyRequest(apdu: octets): Outcome<Option<WriteRequest>> {
    if |apdu| < 4 || apdu[0] / 16 != 0 || apdu[3] != SERVICE_WRITE_PROPERTY then Ok(None)
    else Caught(ParseWrite(apdu))
  }

  /** The parser as it runs, with its loop over the constructed value. */
  method ParseWriteProperty(apdu: octets) returns (r: Outcome<Option<WriteRequest>>)
    ensures r == ParseWritePropertyRequest(apdu)
  {
    hide ReadTag, Descend, ParseTarget;
    if |apdu| < 4 || apdu[0] / 16 != 0 || apdu[3] != SERVICE_WRITE_PROPERTY {
      return Ok(None);
    }
    var target := ParseTarget(apdu, 4);
    if target.Raise? {
      return Caught(Raise(target.error));
    }
    var position := target.value.next;
    var tag := ReadTag(apdu, position);
    if tag.Raise? {
      return Caught(Raise(tag.error));
    }
    var index: Option<nat> := None;
    if tag.value.number == 2 && tag.value.kind == Value {
      index := Some(FromBytes(tag.value.body));
      position := tag.value.next;
    }
    var open := ReadTag(apdu, position);
    if open.Raise? {
      return Caught(Raise(open.error));
    }
    var body := ConstructedBody(apdu, open.value.next);
    if body.Raise? {
      return Caught(Raise(body.error));
    }
    DescendSound(apdu, open.value.next);
    var priority: Option<nat> := None;
    if body.value.1 < |apdu| {
      var last := ReadTag(apdu, body.value.1);
      if last.Raise? {
        return Caught(Raise(last.error));
      }
      priority := Some(FromBytes(last.value.body));
    }
    r := Ok(Some(WriteRequest(target.value.key, target.value.property, index, body.value.0, priority)));
  }

  /** read_property_value: the octets inside the first [3] at the top level of the scan. */
  function ReadPropertyValueFrom(apdu: octets, position: nat): Outcome<Option<octets>>
    decreases |apdu| - position
  {
    if position >= |apdu| then Ok(None) else
    var tag :- ReadTag(apdu, position);
    if tag.isContext && tag.number == 3 && tag.kind == Open then
      var span :- Descend(apdu, tag.next);
      Ok(Some(Slice(apdu, tag.next, span.closeStart)))
    else ReadPropertyValueFrom(apdu, tag.next)
  }

  method ReadPropertyValue(apdu: octets) returns (r: Outcome<Option<octets>>)
    ensures r == ReadPropertyValueFrom(apdu, 3)
  {
    hide ReadTag, Descend;
    var position := 3;
    while position < |apdu|
      invariant ReadPropertyValueFrom(apdu, 3) == ReadPropertyValueFrom(apdu, position)
      decreases |apdu| - position
    {
      var tag := ReadTag(apdu, position);
      if tag.Raise? {
        return Raise(tag.error);
      }
      position := tag.value.next;
      if tag.value.isContext && tag.value.number == 3 && tag.value.kind == Open {
        var body := ConstructedBody(apdu, position);
        if body.Raise? {
          return Raise(body.error);
        }
        DescendSound(apdu, position);
        return Ok(Some(body.value.0));
      }
    }
    r := Ok(None);
  }

  // ---- round trips ----

  lemma ContextUnsignedAt(data: octets, position: nat, number: nat, v: nat)
    requires number < 15 && v < 0x1_0000_0000 && At(data, position, ContextUnsigned(number, v))
    ensures ReadTag(data, position) ==
            Ok(Tag(number, true, Value, UnsignedOctets(v), position + |ContextUnsigned(number, v)|))
  {
    hide ReadTag, Tagged, At, UnsignedOctets;
    TaggedElement(number, true, UnsignedOctets(v));
    ElementAt(data, position, ContextUnsigned(number, v), number, true, Value, UnsignedOctets(v));
  }

  lemma ContextObjectIdAt(data: octets, position: nat, number: nat, key: ObjectKey)
    requires number < 15 && key.InRange() && At(data, position, ContextObjectId(number, key))
    ensures ReadTag(data, position) ==
            Ok(Tag(number, true, Value, ObjectId(key), position + |ContextObjectId(number, key)|))
  {
    hide ReadTag, Tagged, At, ObjectId;
    TaggedElement(number, true, ObjectId(key));
    ElementAt(data, position, ContextObjectId(number, key), number, true, Value, ObjectId(key));
  }

  /** The first two parameters are parsed back, and what follows starts where they end. */
  lemma TargetAt(data: octets, position: nat, key: ObjectKey, property: nat, rest: octets)
    requires key.InRange() && property < 0x1_0000_0000
    requires At(data, position, ContextObjectId(0, key) + (ContextUnsigned(1, property) + rest))
    ensures var next := position + |ContextObjectId(0, key)| + |ContextUnsigned(1, property)|;
            && ParseTarget(data, position) == Ok(Target(key, property, next)) && At(data, next, rest)
  {
    hide ReadTag, Tagged, At, ObjectId, UnsignedOctets, FromBytes;
    var a, b := ContextObjectId(0, key), ContextUnsigned(1, property);
    AtSplit(data, position, a, b + rest);
    AtSplit(data, position + |a|, b, rest);
    ContextObjectIdAt(data, position, 0, key);
    ContextUnsignedAt(data, position + |a|, 1, property);
  }

  /** A bracketed value is delimited where it was put exactly when its octets are balanced. */
  lemma BracketedAt(data: octets, position: nat, number: nat, value: octets, after: octets)
    requires number < 15 && At(data, position, Bracketed(number, value, after))
    ensures var start := position + 1; var end := start + |value|;
            && ReadTag(data, position) == Ok(Tag(number, true, Open, [], start))
            && At(data, start, value) && At(data, end + 1, after)
            && (Balanced(value) <==> Descend(data, start).Ok? && Descend(data, start).value.closeStart == end)
            && (Balanced(value) ==> Descend(data, start).value.next == end + 1)
  {
    hide ReadTag, At, Descend, Balanced;
    var open, close := Opening(number), Closing(number);
    AtSplit(data, position, open, value + (close + after));
    AtSplit(data, position + 1, value, close + after);
    AtSplit(data, position + 1 + |value|, close, after);
    OpeningElement(number);
    ClosingElement(number);
    ElementAt(data, position, open, number, true, Open, []);
    BalancedIff(data, position + 1, value, close);
  }

  lemma ConcatRight(a: octets, b: octets, c: octets, d: octets)
    ensures a + b + c + d == a + (b + (c + d))
  {
  }

  /** Bracketing keeps octets balanced, to any depth. */
  lemma BalancedBracket(number: nat, value: octets, after: octets)
    requires number < 15 && Balanced(value) && Balanced(after)
    ensures Balanced(Bracketed(number, value, after))
  {
    hide Whole, Element, Opening, Closing;
    OpeningElement(number);
    ClosingElement(number);
    var f :| WellFormed(f) && Encode(f) == value;
    var g :| WellFormed(g) && Encode(g) == after;
    var node := Node(Opening(number), f, Closing(number), g);
    ConcatRight(Opening(number), value, Closing(number), after);
    assert WellFormed(node) && Encode(node) == Bracketed(number, value, after);
  }

  /** Cutting out what the descent delimits gives the value exactly when it stops at its end. */
  lemma CutAt(data: octets, start: nat, value: octets, end: nat)
    requires At(data, start, value) && start <= end <= |data|
    ensures Slice(data, start, end) == value <==> end == start + |value|
  {
  }

  lemma WrittenAt(data: octets, position: nat, target: Target, index: Option<nat>, value: octets, priority: Option<nat>)
    requires Encodable(priority) && At(data, position, Bracketed(3, value, OptionalUnsigned(4, priority)))
    requires position + |Bracketed(3, value, OptionalUnsigned(4, priority))| == |data|
    ensures (ParseWritten(data, target, index, position) ==
             Ok(WriteRequest(target.key, target.property, index, value, priority)))
            <==> Balanced(value)
  {
    hide ReadTag, At, Descend, Balanced, ContextUnsigned, FromBytes, UnsignedOctets, Slice;
    var after := OptionalUnsigned(4, priority);
    BracketedAt(data, position, 3, value, after);
    var start, end := position + 1, position + 1 + |value|;
    var span := Descend(data, start);
    if span.Ok? {
      CutAt(data, start, value, span.value.closeStart);
    }
    if Balanced(value) && priority.Some? {
      ContextUnsignedAt(data, end + 1, 4, priority.value);
    }
  }

  lemma ParseWriteIndexed(apdu: octets, target: Target, index: Option<nat>, tag: Tag)
    requires ParseTarget(apdu, 4) == Ok(target) && ReadTag(apdu, target.next) == Ok(tag)
    requires tag.number == 2 && tag.kind == Value <==> index.Some?
    requires index.Some? ==> FromBytes(tag.body) == index.value
    ensures ParseWrite(apdu) == ParseWritten(apdu, target, index, if index.Some? then tag.next else target.next)
  {
    hide ReadTag, ParseTarget, ParseWritten, FromBytes;
  }

  /** WriteProperty: every field comes back, and the value octets come back exactly when they
      are balanced, so for every properly nested value and for no other octets. */
  lemma WritePropertyRoundTrip(invokeId: byte, key: ObjectKey, property: nat, value: octets,
                               priority: Option<nat>, index: Option<nat>)
    requires key.InRange() && property < 0x1_0000_0000 && Encodable(priority) && Encodable(index)
    ensures ParseWritePropertyRequest(WritePropertyRequest(invokeId, key, property, value, priority, index))
            == Ok(Some(WriteRequest(key, property, index, value, priority)))
            <==> Balanced(value)
  {
    hide ReadTag, At, ParseTarget, ParseWritten, ParseWrite, Balanced, ContextObjectId, ContextUnsigned, FromBytes,
         UnsignedOctets, Bracketed;
    var indexPart := OptionalUnsigned(2, index);
    var tail := Bracketed(3, value, OptionalUnsigned(4, priority));
    var parameters := ContextObjectId(0, key) + (ContextUnsigned(1, property) + (indexPart + tail));
    var apdu := WritePropertyRequest(invokeId, key, property, value, priority, index);
    AtTail([0x00, 0x05, invokeId, SERVICE_WRITE_PROPERTY], parameters);
    TargetAt(apdu, 4, key, property, indexPart + tail);
    var target := ParseTarget(apdu, 4).value;
    AtSplit(apdu, target.next, indexPart, tail);
    BracketedAt(apdu, target.next + |indexPart|, 3, value, OptionalUnsigned(4, priority));
    if index.Some? {
      ContextUnsignedAt(apdu, target.next, 2, index.value);
    }
    ParseWriteIndexed(apdu, target, index, ReadTag(apdu, target.next).value);
    WrittenAt(apdu, target.next + |indexPart|, target, index, value, priority);
  }

  /** ReadProperty: object, property and array index come back. */
  lemma ReadPropertyRoundTrip(invokeId: byte, key: ObjectKey, property: nat, index: Option<nat>)
    requires key.InRange() && property < 0x1_0000_0000 && Encodable(index)
    ensures ParseReadPropertyRequest(ReadPropertyRequest(invokeId, key, property, index))
            == Ok(Some(ReadRequest(key, property, index)))
  {
    hide ReadTag, At, ParseTarget, ContextObjectId, ContextUnsigned, FromBytes, UnsignedOctets;
    var indexPart := OptionalUnsigned(2, index);
    var parameters := ContextObjectId(0, key) + (ContextUnsigned(1, property) + indexPart);
    var apdu := ReadPropertyRequest(invokeId, key, property, index);
    AtTail([0x00, 0x05, invokeId, SERVICE_READ_PROPERTY], parameters);
    TargetAt(apdu, 4, key, property, indexPart);
    if index.Some? {
      ContextUnsignedAt(apdu, ParseTarget(apdu, 4).value.next, 2, index.value);
    }
  }

  /** Every tag that is not the opening tag [3] is passed over, and at the end there is no value. */
  lemma ValueScanStep(apdu: octets, position: nat, tag: Tag)
    requires ReadTag(apdu, position) == Ok(tag) && !(tag.kind == Open && tag.number == 3)
    ensures ReadPropertyValueFrom(apdu, position) == ReadPropertyValueFrom(apdu, tag.next)
  {
    hide ReadTag, Descend;
  }

  lemma NoValue(apdu: octets, position: nat)
    requires position >= |apdu|
    ensures ReadPropertyValueFrom(apdu, position) == Ok(None)
  {
  }

  /** A third parameter of a ReadProperty is its array index exactly if it is a value tagged [2]. */
  lemma ThirdParameter(invokeId: byte, key: ObjectKey, property: nat, e: octets, number: byte, isContext: bool,
                       kind: Kind, body: octets)
    requires key.InRange() && property < 0x1_0000_0000 && Element(e, number, isContext, kind, body)
    ensures ParseReadPropertyRequest(ReadPropertyRequest(invokeId, key, property, None) + e) ==
            var index := if isContext && number == 2 && kind == Value then Some(FromBytes(body)) else None;
            Ok(Some(ReadRequest(key, property, index)))
  {
    hide ReadTag, At, ParseTarget, ContextObjectId, ContextUnsigned, FromBytes, UnsignedOctets;
    var a, b := ContextObjectId(0, key), ContextUnsigned(1, property);
    var head := [0x00, 0x05, invokeId, SERVICE_READ_PROPERTY];
    var apdu := ReadPropertyRequest(invokeId, key, property, None) + e;
    assert b + [] == b && head + (a + b) + e == head + (a + (b + e));
    AtTail(head, a + (b + e));
    TargetAt(apdu, 4, key, property, e);
    ElementAt(apdu, ParseTarget(apdu, 4).value.next, e, number, isContext, kind, body);
  }

  lemma ValueScanEnd(apdu: octets, position: nat, value: octets)
    requires At(apdu, position, Bracketed(3, value, []))
    ensures ReadPropertyValueFrom(apdu, position) == Ok(Some(value)) <==> Balanced(value)
  {
    hide ReadTag, At, Descend, Balanced, Slice;
    BracketedAt(apdu, position, 3, value, []);
    var span := Descend(apdu, position + 1);
    if span.Ok? {
      CutAt(apdu, position + 1, value, span.value.closeStart);
    }
  }

  /** The client reads out of a ReadProperty-ACK exactly the octets the server put in, if and
      only if they are balanced. */
  lemma ReadPropertyAckRoundTrip(invokeId: byte, key: ObjectKey, property: nat, index: Option<nat>, value: octets)
    requires key.InRange() && property < 0x1_0000_0000 && Encodable(index)
    ensures ReadPropertyValueFrom(ReadPropertyAck(invokeId, key, property, index, value), 3) == Ok(Some(value))
            <==> Balanced(value)
  {
    hide ReadTag, At, ReadPropertyValueFrom, Balanced, ContextObjectId, ContextUnsigned, UnsignedOctets, ObjectId,
        Bracketed;
    var a, b, c := ContextObjectId(0, key), ContextUnsigned(1, property), OptionalUnsigned(2, index);
    var tail := Bracketed(3, value, []);
    var apdu := ReadPropertyAck(invokeId, key, property, index, value);
    AtTail([0x30, invokeId, SERVICE_READ_PROPERTY], a + (b + (c + tail)));
    AtSplit(apdu, 3, a, b + (c + tail));
    AtSplit(apdu, 3 + |a|, b, c + tail);
    AtSplit(apdu, 3 + |a| + |b|, c, tail);
    ContextObjectIdAt(apdu, 3, 0, key);
    ValueScanStep(apdu, 3, ReadTag(apdu, 3).value);
    ContextUnsignedAt(apdu, 3 + |a|, 1, property);
    ValueScanStep(apdu, 3 + |a|, ReadTag(apdu, 3 + |a|).value);
    if index.Some? {
      ContextUnsignedAt(apdu, 3 + |a| + |b|, 2, index.value);
      ValueScanStep(apdu, 3 + |a| + |b|, ReadTag(apdu, 3 + |a| + |b|).value);
    }
    ValueScanEnd(apdu, 3 + |a| + |b| + |c|, value);
  }
}
