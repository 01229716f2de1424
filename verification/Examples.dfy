/** Worked encodings: the octets of a few messages, written out by hand from clauses 20.1 and 20.2
    and Annex J.2 of ANSI/ASHRAE 135-2024. They hold the encoders, and with them the decoders that
    undo them, to the wire format itself. */
module Examples {
  import opened Octets
  import opened Values
  import opened Elements
  import opened Requests
  import opened Frames
  import Alarms
  import Multiple

  /** Analog Output 1 and Device 389003. */
  lemma Identifiers()
    ensures ObjectId(ObjectKey(1, 1)) == [0x00, 0x40, 0x00, 0x01]
    ensures ObjectId(ObjectKey(8, 389003)) == [0x02, 0x05, 0xEF, 0x8B]
  {
    hide ToBytes;
    Four(0x00, 0x40, 0x00, 0x01);
    Four(0x02, 0x05, 0xEF, 0x8B);
  }

  lemma UnsignedNumbers()
    ensures UnsignedOctets(0) == [0] && UnsignedOctets(85) == [85] && UnsignedOctets(389) == [1, 133]
    ensures UnsignedOctets(1476) == [5, 196] && UnsignedOctets(70000) == [1, 17, 112]
  {
    hide ToBytes;
    One(0);
    One(85);
    Two(1, 133);
    Two(5, 196);
    Three(1, 17, 112);
  }

  lemma SignedNumbers()
    ensures SignedOctets(-2) == [254] && SignedOctets(128) == [0, 128] && SignedOctets(-129) == [255, 127]
  {
    Two(0, 128);
    assert ToBytes(-2, 1) == ToBytes(-1, 0) + [254];
    assert ToBytes(-129, 2) == ToBytes(-1, 1) + [127];
  }

  lemma Small(v: byte)
    ensures UnsignedOctets(v) == [v]
  {
    hide ToBytes;
    One(v);
  }

  lemma Primitives()
    ensures ApplicationNull() == [0x00] && ApplicationBoolean(true) == [0x11] && ApplicationBoolean(false) == [0x10]
    ensures ApplicationUnsigned(389) == [0x22, 1, 133] && ApplicationSigned(-2) == [0x31, 254]
    ensures ApplicationEnumerated(85) == [0x91, 85] && ApplicationReal([0x41, 0xA0, 0, 0]) == [0x44, 0x41, 0xA0, 0, 0]
    ensures ApplicationObjectId(ObjectKey(1, 1)) == [0xC4, 0x00, 0x40, 0x00, 0x01]
    ensures ApplicationOctetString([1, 2, 3, 4, 5]) == Ok([0x65, 5, 1, 2, 3, 4, 5])
    ensures ApplicationCharacterString([0x41, 0x42]) == Ok([0x73, 0, 0x41, 0x42])
    ensures ContextUnsigned(2, 389) == [0x2A, 1, 133] && ContextReal(3, [0x41, 0xA0, 0, 0]) == [0x3C, 0x41, 0xA0, 0, 0]
    ensures ContextObjectId(0, ObjectKey(1, 1)) == [0x0C, 0x00, 0x40, 0x00, 0x01]
    ensures Opening(3) == [0x3E] && Closing(3) == [0x3F]
  {
    hide UnsignedOctets, SignedOctets, ObjectId, ToBytes;
    UnsignedNumbers();
    SignedNumbers();
    Identifiers();
    assert Tagged(6, false, [1, 2, 3, 4, 5]) == [0x65, 5, 1, 2, 3, 4, 5];
    assert Tagged(7, false, [0] + [0x41, 0x42]) == [0x73, 0, 0x41, 0x42];
  }

  lemma Flags()
    ensures ApplicationBitString([true, false, true]) == Ok([0x82, 5, 0xA0])
  {
    hide Octet, Number;
    var bits := [true, false, true];
    FirstFlags();
    assert |bits[Min(8, 3)..]| == 0;
    assert PackBits(bits) == [0xA0] + [];
    assert BitStringBody(bits) == [5, 0xA0];
    assert [130] + BitStringBody(bits) == [0x82, 5, 0xA0];
  }

  lemma FirstFlags()
    ensures Octet(Block([true, false, true])) == 0xA0
  {
    hide Number;
    var block := Block([true, false, true]);
    assert block == [true, false, true, false, false, false, false, false];
    FlagNumber(block);
    Doubled(block, 3);
    Doubled(block, 4);
    Doubled(block, 5);
    Doubled(block, 6);
    Doubled(block, 7);
    assert block[..8] == block;
  }

  lemma FlagNumber(bits: seq<bool>)
    requires |bits| > 3 && bits[0] && !bits[1] && bits[2]
    ensures Number(bits[..3]) == 5
  {
    var one, two, three := bits[..1], bits[..2], bits[..3];
    assert |one[..0]| == 0 && two[..1] == one && three[..2] == two;
    assert Number(one) == 1 && Number(two) == 2;
  }

  lemma Doubled(bits: seq<bool>, n: nat)
    requires n < |bits| && !bits[n]
    ensures Number(bits[..n + 1]) == 2 * Number(bits[..n])
  {
    hide Number;
    NumberStep(bits[..n + 1]);
    assert bits[..n + 1][..n] == bits[..n];
  }

  /** ReadProperty of Analog Output 1's Present_Value, and its ACK. */
  lemma Reads()
    ensures ReadPropertyRequest(7, ObjectKey(1, 1), 85, None) ==
            [0x00, 0x05, 7, 0x0C, 0x0C, 0x00, 0x40, 0x00, 0x01, 0x19, 0x55]
    ensures ReadPropertyAck(7, ObjectKey(1, 1), 85, None, [0x44, 0x41, 0xA0, 0, 0]) ==
            [0x30, 7, 0x0C, 0x0C, 0x00, 0x40, 0x00, 0x01, 0x19, 0x55, 0x3E, 0x44, 0x41, 0xA0, 0, 0, 0x3F]
  {
    hide UnsignedOctets, ObjectId;
    Identifiers();
    Small(85);
  }

  /** WriteProperty of 20.0 to its element 3 at priority 8. */
  lemma Writes()
    ensures WritePropertyRequest(7, ObjectKey(1, 1), 85, [0x44, 0x41, 0xA0, 0, 0], Some(8), Some(3)) ==
            [0x00, 0x05, 7, 0x0F, 0x0C, 0x00, 0x40, 0x00, 0x01, 0x19, 0x55, 0x29, 3,
             0x3E, 0x44, 0x41, 0xA0, 0, 0, 0x3F, 0x49, 8]
  {
    hide UnsignedOctets, ObjectId;
    Identifiers();
    Small(85);
    Small(8);
    Small(3);
  }

  lemma Refusals()
    ensures SimpleAck(7, 15) == [0x20, 7, 15] && RejectPdu(7, 9) == [0x60, 7, 9] && AbortPdu(7, 4) == [0x71, 7, 4]
    ensures ErrorPdu(7, 15, 2, 40) == [0x50, 7, 15, 0x91, 2, 0x91, 40]
  {
    hide UnsignedOctets;
    Small(2);
    Small(40);
  }

  /** ReadPropertyMultiple of two properties, and the results of a server that has only the first. */
  lemma MultipleServices(serve: (ObjectKey, nat) -> Option<octets>)
    requires serve(ObjectKey(1, 1), 85) == Some([0x00]) && serve(ObjectKey(1, 1), 28) == None
    ensures Multiple.MultipleRequest(7, [(ObjectKey(1, 1), [85, 28])]) ==
            [0x00, 0x05, 7, 0x0E, 0x0C, 0x00, 0x40, 0x00, 0x01, 0x1E, 0x09, 0x55, 0x09, 0x1C, 0x1F]
    ensures Multiple.AccessResults([(ObjectKey(1, 1), [85, 28])], serve) ==
            [0x0C, 0x00, 0x40, 0x00, 0x01, 0x1E] + [0x29, 0x55, 0x4E, 0x00, 0x4F] +
            [0x29, 0x1C, 0x5E, 0x91, 2, 0x91, 32, 0x5F] + [0x1F]
  {
    hide UnsignedOctets, ObjectId, Multiple.ResultOctets, Multiple.References, Multiple.ResultsOctets;
    Identifiers();
    ResultExamples();
    ListExamples(serve);
    var key, properties: seq<nat> := ObjectKey(1, 1), [85, 28];
    var specifications: seq<Multiple.Specification> := [(key, properties)];
    assert |specifications[1..]| == 0;
    assert Multiple.AccessResults(specifications, serve) == Multiple.AccessResult((key, properties), serve);
  }

  lemma ListExamples(serve: (ObjectKey, nat) -> Option<octets>)
    requires serve(ObjectKey(1, 1), 85) == Some([0x00]) && serve(ObjectKey(1, 1), 28) == None
    ensures Multiple.References([85, 28]) == [0x09, 0x55] + [0x09, 0x1C]
    ensures Multiple.ResultsOctets(ObjectKey(1, 1), [85, 28], serve) ==
            Multiple.ResultOctets(85, Some([0x00])) + Multiple.ResultOctets(28, None)
  {
    hide UnsignedOctets, Multiple.ResultOctets;
    Small(85);
    Small(28);
    var properties: seq<nat> := [85, 28];
    assert properties[1..] == [28] && |properties[1..][1..]| == 0;
    assert Multiple.References([28]) == [0x09, 0x1C];
    assert Multiple.ResultsOctets(ObjectKey(1, 1), [28], serve) == Multiple.ResultOctets(28, None);
  }

  lemma ResultExamples()
    ensures Multiple.ResultOctets(85, Some([0x00])) == [0x29, 0x55, 0x4E, 0x00, 0x4F]
    ensures Multiple.ResultOctets(28, None) == [0x29, 0x1C, 0x5E, 0x91, 2, 0x91, 32, 0x5F]
  {
    hide UnsignedOctets;
    Small(85);
    Small(28);
    Small(2);
    Small(32);
    assert ErrorOctets(2, 32) == [0x91, 2, 0x91, 32];
  }

  /** A local Who-Is, and a forwarded NPDU. */
  lemma Datagrams()
    ensures ApduFrame(None, true, [0x10, 8]) == [0x81, 0x0A, 0x00, 0x08, 0x01, 0x04, 0x10, 8]
    ensures ForwardedNpdu([10, 0, 0, 1, 0xBA, 0xC0], [0x01, 0x00]) ==
            [0x81, 0x04, 0x00, 0x0C, 10, 0, 0, 1, 0xBA, 0xC0, 0x01, 0x00]
  {
    hide ToBytes;
    Two(0x00, 0x08);
    Two(0x00, 0x0C);
  }

  /** I-Am-Router-To-Network from network 9 to network 0x1234. */
  lemma Routed()
    ensures var n := Npdu(Some(Address(0x1234, [7])), Some(Address(9, [1, 2])), false, Some(1), [0, 5]);
            NpduOctets(n, 254) == [0x01, 0xA8] + ([0x12, 0x34, 1, 7] + ([0x00, 0x09, 2, 1, 2] + ([254, 1] + [0, 5])))
  {
    hide ToBytes;
    Two(0x12, 0x34);
    Two(0x00, 0x09);
    assert AddressOctets(Some(Address(0x1234, [7]))) == [0x12, 0x34, 1, 7];
    assert AddressOctets(Some(Address(9, [1, 2]))) == [0x00, 0x09, 2, 1, 2];
  }

  /** The parameters of an event notification whose numbers each fit an octet. */
  lemma Notification(a: Alarms.Alarm)
    requires a.Valid() && a.processIdentifier < 256 && a.notificationClass < 256 && a.priority < 256
    requires a.notifyType < 256 && a.fromState < 256 && a.toState < 256 && a.text.None? && a.notifyType != 2
    ensures Alarms.EventNotification(a, None) ==
            [0x10, 3] + ([0x09, a.processIdentifier] + (([0x1C] + ObjectId(ObjectKey(8, a.device))) +
            (([0x2C] + ObjectId(a.eventObject)) +
            (([0x3E] + ([0x2E] + (([0xA4] + a.date) + (([0xB4] + a.time) + ([0x2F] + [0x3F]))))) +
            ([0x49, a.notificationClass] + ([0x59, a.priority] + ([0x69, 5] + ([0x89, a.notifyType] +
            ([0x99, if a.ackRequired then 1 else 0] + ([0xA9, a.fromState] + ([0xB9, a.toState] +
            ([0xCE] + Alarms.EventValues(a) + [0xCF]))))))))))))
  {
    hide UnsignedOctets, ObjectId, Alarms.EventValues, Alarms.ItemOctets, Alarms.SmallItem, Alarms.Ending,
         Alarms.AllSmall, Alarms.ItemsOctets;
    Small(a.processIdentifier);
    Alarms.ItemsSmall(a);
    MiddleOctets(a);
    var i4 := Middle(a);
    var i3 := [Alarms.Stamp(a.date, a.time)] + i4;
    var i2 := [Alarms.Field(2, ObjectId(a.eventObject))] + i3;
    var i1 := [Alarms.Field(1, ObjectId(a.DeviceKey()))] + i2;
    assert Alarms.Items(a) == [Alarms.Unsigned(0, a.processIdentifier)] + i1;
    FieldOctets(0, UnsignedOctets(a.processIdentifier));
    FieldOctets(1, ObjectId(a.DeviceKey()));
    FieldOctets(2, ObjectId(a.eventObject));
    StampOctets(a.date, a.time);
    ItemsCons(Alarms.Stamp(a.date, a.time), i4);
    ItemsCons(Alarms.Field(2, ObjectId(a.eventObject)), i3);
    ItemsCons(Alarms.Field(1, ObjectId(a.DeviceKey())), i2);
    ItemsCons(Alarms.Unsigned(0, a.processIdentifier), i1);
  }

  /** Class, priority, event type and the ending. */
  function Middle(a: Alarms.Alarm): seq<Alarms.Item>
    requires a.Valid()
  {
    [Alarms.Unsigned(4, a.notificationClass)] + ([Alarms.Unsigned(5, a.priority)] +
    ([Alarms.Unsigned(6, 5)] + Alarms.Ending(a)))
  }

  lemma MiddleOctets(a: Alarms.Alarm)
    requires a.Valid() && a.notificationClass < 256 && a.priority < 256
    requires a.notifyType < 256 && a.fromState < 256 && a.toState < 256 && a.notifyType != 2
    ensures Alarms.AllSmall(Middle(a))
    ensures Alarms.ItemsOctets(Middle(a)) ==
            [0x49, a.notificationClass] + ([0x59, a.priority] + ([0x69, 5] + ([0x89, a.notifyType] +
            ([0x99, if a.ackRequired then 1 else 0] + ([0xA9, a.fromState] + ([0xB9, a.toState] +
            ([0xCE] + Alarms.EventValues(a) + [0xCF])))))))
  {
    hide UnsignedOctets, ObjectId, Alarms.EventValues, Alarms.ItemOctets, Alarms.SmallItem, Alarms.Ending,
         Alarms.AllSmall, Alarms.ItemsOctets;
    Small(a.notificationClass);
    Small(a.priority);
    Small(5);
    EndingOctets(a);
    var i6 := [Alarms.Unsigned(6, 5)] + Alarms.Ending(a);
    FieldOctets(4, UnsignedOctets(a.notificationClass));
    FieldOctets(5, UnsignedOctets(a.priority));
    FieldOctets(6, UnsignedOctets(5));
    ItemsCons(Alarms.Unsigned(6, 5), Alarms.Ending(a));
    ItemsCons(Alarms.Unsigned(5, a.priority), i6);
    ItemsCons(Alarms.Unsigned(4, a.notificationClass), [Alarms.Unsigned(5, a.priority)] + i6);
  }

  lemma EndingOctets(a: Alarms.Alarm)
    requires a.Valid() && a.notifyType < 256 && a.fromState < 256 && a.toState < 256 && a.notifyType != 2
    ensures Alarms.AllSmall(Alarms.Ending(a))
    ensures Alarms.ItemsOctets(Alarms.Ending(a)) ==
            [0x89, a.notifyType] + ([0x99, if a.ackRequired then 1 else 0] + ([0xA9, a.fromState] + ([0xB9, a.toState] +
            ([0xCE] + Alarms.EventValues(a) + [0xCF]))))
  {
    hide UnsignedOctets, Alarms.EventValues, Alarms.ItemOctets, Alarms.SmallItem, Alarms.AllSmall, Alarms.ItemsOctets;
    NoItems();
    Small(a.notifyType);
    Small(a.fromState);
    Small(a.toState);
    var group := Alarms.Group(12, Alarms.EventValues(a));
    var i12: seq<Alarms.Item> := [group] + [];
    var i11 := [Alarms.Unsigned(11, a.toState)] + i12;
    var i10 := [Alarms.Unsigned(10, a.fromState)] + i11;
    var i9 := [Alarms.Field(9, [if a.ackRequired then 1 else 0])] + i10;
    assert Alarms.Ending(a) == [Alarms.Unsigned(8, a.notifyType)] + i9;
    FieldOctets(8, UnsignedOctets(a.notifyType));
    FieldOctets(9, [if a.ackRequired then 1 else 0]);
    FieldOctets(10, UnsignedOctets(a.fromState));
    FieldOctets(11, UnsignedOctets(a.toState));
    GroupOctets(Alarms.EventValues(a));
    ItemsCons(group, []);
    ItemsCons(Alarms.Unsigned(11, a.toState), i12);
    ItemsCons(Alarms.Unsigned(10, a.fromState), i11);
    ItemsCons(Alarms.Field(9, [if a.ackRequired then 1 else 0]), i10);
    ItemsCons(Alarms.Unsigned(8, a.notifyType), i9);
  }

  lemma NoItems()
    ensures Alarms.AllSmall([]) && Alarms.ItemsOctets([]) == []
  {
  }

  lemma FieldOctets(number: nat, body: octets)
    requires number < 15 && |body| < 5
    ensures Alarms.SmallItem(Alarms.Field(number, body))
    ensures Alarms.ItemOctets(Alarms.Field(number, body)) == [number * 16 + 8 + |body|] + body
  {
  }

  lemma StampOctets(date: octets, time: octets)
    requires |date| == 4 && |time| == 4
    ensures Alarms.SmallItem(Alarms.Stamp(date, time))
    ensures Alarms.ItemOctets(Alarms.Stamp(date, time)) ==
            [0x3E] + ([0x2E] + (([0xA4] + date) + (([0xB4] + time) + ([0x2F] + [0x3F]))))
  {
  }

  lemma GroupOctets(inner: octets)
    ensures Alarms.SmallItem(Alarms.Group(12, inner))
    ensures Alarms.ItemOctets(Alarms.Group(12, inner)) == [0xCE] + inner + [0xCF]
  {
  }

  lemma ItemsCons(i: Alarms.Item, rest: seq<Alarms.Item>)
    requires Alarms.SmallItem(i) && Alarms.AllSmall(rest)
    ensures Alarms.AllSmall([i] + rest)
    ensures Alarms.ItemsOctets([i] + rest) == Alarms.ItemOctets(i) + Alarms.ItemsOctets(rest)
  {
    assert ([i] + rest)[1..] == rest;
  }

  lemma Two(b: byte, c: byte)
    ensures ToBytes(b * 256 + c, 2) == [b, c]
  {
    assert (b * 256 + c) / 256 == b && (b * 256 + c) % 256 == c;
    One(b);
  }

  lemma ToBytesStep(v: int, n: nat)
    requires n > 0
    ensures ToBytes(v, n) == ToBytes(v / 256, n - 1) + [v % 256]
  {
  }

  lemma One(a: byte)
    ensures ToBytes(a, 1) == [a]
  {
    assert ToBytes(a / 256, 0) == [];
  }

  lemma Three(a: byte, b: byte, c: byte)
    ensures ToBytes((a * 256 + b) * 256 + c, 3) == [a, b, c]
  {
    hide ToBytes;
    var v := (a * 256 + b) * 256 + c;
    ToBytesStep(v, 3);
    assert v / 256 == a * 256 + b && v % 256 == c;
    Two(a, b);
  }

  lemma Four(a: byte, b: byte, c: byte, d: byte)
    ensures ToBytes(((a * 256 + b) * 256 + c) * 256 + d, 4) == [a, b, c, d]
  {
    hide ToBytes;
    var v := ((a * 256 + b) * 256 + c) * 256 + d;
    ToBytesStep(v, 4);
    assert v / 256 == (a * 256 + b) * 256 + c && v % 256 == d;
    Three(a, b, c);
  }
}
