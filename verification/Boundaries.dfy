/** What the peer makes of commands past its limits: a priority without a slot, and a datagram
    longer than it receives. */
module Boundaries {
  import opened Octets
  import opened Tags
  import opened Forests
  import opened Values
  import opened Requests
  import opened Frames
  import opened Commands
  import opened Server
  import opened ServerRuns
  import opened Serving
  import opened EndToEnd

  // ---- a priority above 16 ----

  lemma OverflowRequest(invokeId: byte, key: ObjectKey, value: octets, priority: nat)
    requires key.InRange() && priority < 0x1_0000_0000 && Balanced(value)
    ensures var apdu := WritePropertyRequest(invokeId, key, PROPERTY_PRESENT_VALUE, value, Some(priority), None);
            && ConfirmedService(apdu) == Some(SERVICE_WRITE_PROPERTY) && |apdu| > 3
            && ParseWritePropertyRequest(apdu) ==
               Ok(Some(WriteRequest(key, PROPERTY_PRESENT_VALUE, None, value, Some(priority))))
  {
    hide WritePropertyRequest, ParseWritePropertyRequest, Balanced;
    WritePropertyRoundTrip(invokeId, key, PROPERTY_PRESENT_VALUE, value, Some(priority), None);
    WriteShape(invokeId, WriteRequest(key, PROPERTY_PRESENT_VALUE, None, value, Some(priority)));
  }

  /** A WriteProperty datagram with a priority above 16, to a commandable Present_Value and with a
      value other than the one served: handling it raises, which ends the serving thread, and the
      value it leaves in the cache is no longer the winner of the slots. */
  lemma PriorityPastSixteen(s: Peer, invokeId: byte, key: ObjectKey, value: octets, priority: nat)
    requires Ready(s, key) && 16 < priority < 0x1_0000_0000
    requires Balanced(value) && ApplicationTag(value) != Ok(Some(0)) && value != s.objects[key][PROPERTY_PRESENT_VALUE]
    requires |WritePropertyRequest(invokeId, key, PROPERTY_PRESENT_VALUE, value, Some(priority), None)| <= 2042
    ensures var apdu := WritePropertyRequest(invokeId, key, PROPERTY_PRESENT_VALUE, value, Some(priority), None);
            && Answer(s, apdu).1 == Raise(IndexError) && !Answer(s, apdu).0.Cached()
            && var (t, reply) := ServeDatagram(s, ApduFrame(None, true, apdu));
            && reply == Raise(IndexError) && !t.alive && !t.Cached()
  {
    hide WritePropertyRequest, ParseWritePropertyRequest, Balanced, ApplicationTag, Answer, Store, FirstSet, ApduFrame,
         DecodeFrame, Received;
    var apdu := WritePropertyRequest(invokeId, key, PROPERTY_PRESENT_VALUE, value, Some(priority), None);
    var r := WriteRequest(key, PROPERTY_PRESENT_VALUE, None, value, Some(priority));
    OverflowRequest(invokeId, key, value, priority);
    BalancedTag(value);
    assert Change(s, apdu) == Some((r, false));
    assert Overflows(s, r);
    StoreKeepsCache(s, r, false);
    AnswerChanges(s, apdu);
    StoreRaises(s, r);
    AnswerKeepsCache(s, apdu);
    ApduFrameRoundTrip(None, true, apdu);
    WholeDatagram(ApduFrame(None, true, apdu));
    StoppedCached(Answer(s, apdu).0, false);
  }

  lemma StoreRaises(s: Peer, r: WriteRequest)
    requires s.Valid() && r.key in s.objects
    ensures Store(s, r, false).1.Raise? ==> Store(s, r, false).1 == Raise(IndexError)
  {
    hide Apply, FirstSet;
  }

  lemma StoppedCached(s: Peer, running: bool)
    requires s.Valid()
    ensures s.(alive := running).Cached() <==> s.Cached()
  {
    hide FirstSet;
    var t := s.(alive := running);
    assert forall key :: t.IsCommandable(key) <==> s.IsCommandable(key);
  }

  // ---- a datagram that is not received whole ----

  /** What arrives of an APDU whose datagram is longer than 2048 octets. */
  lemma CutFrame(apdu: octets)
    requires 2042 <= |apdu| && HeaderSize(None) + |apdu| < 0x1_0000
    ensures DecodeFrame(Received(ApduFrame(None, true, apdu))) ==
            Ok(Frame(true, Some(BVLC_ORIGINAL_UNICAST), [], Some(Npdu(None, None, true, None, apdu[..2042]))))
  {
    hide ToBytes, DecodeNpdu, ApduFrame;
    var head := [BVLC_TYPE, BVLC_ORIGINAL_UNICAST] + ToBytes(|apdu| + 6, 2);
    var d := [0x01, 0x04] + apdu[..2042];
    CutOctets(apdu);
    var data := Received(ApduFrame(None, true, apdu));
    assert data == head + d;
    assert Slice(data, 4, |data|) == d;
    PlainNpdu(apdu[..2042]);
  }

  lemma PlainNpdu(apdu: octets)
    ensures DecodeNpdu([0x01, 0x04] + apdu) == Ok(Npdu(None, None, true, None, apdu))
  {
    hide ReadAddress;
    var d := [0x01, 0x04] + apdu;
    assert Slice(d, 2, |d|) == apdu;
  }

  lemma CutOctets(apdu: octets)
    requires 2042 <= |apdu| && HeaderSize(None) + |apdu| < 0x1_0000
    ensures Received(ApduFrame(None, true, apdu)) ==
            [BVLC_TYPE, BVLC_ORIGINAL_UNICAST] + ToBytes(|apdu| + 6, 2) + ([0x01, 0x04] + apdu[..2042])
  {
    hide ToBytes, ApduFrame, Slice;
    PlainFrame(apdu);
    CutTail([BVLC_TYPE, BVLC_ORIGINAL_UNICAST] + ToBytes(|apdu| + 6, 2), [0x01, 0x04], apdu);
  }

  lemma PlainFrame(apdu: octets)
    requires HeaderSize(None) + |apdu| < 0x1_0000
    ensures ApduFrame(None, true, apdu) ==
            [BVLC_TYPE, BVLC_ORIGINAL_UNICAST] + ToBytes(|apdu| + 6, 2) + ([0x01, 0x04] + apdu)
  {
    hide ToBytes, NpduOctets;
    PlainOctets(apdu);
    ApduFrameSize(Npdu(None, None, true, None, apdu), 255);
  }

  lemma PlainOctets(apdu: octets)
    ensures NpduOctets(Npdu(None, None, true, None, apdu), 255) == [0x01, 0x04] + apdu
  {
    hide Flag, Control;
    var n := Npdu(None, None, true, None, apdu);
    PlainControl(n);
    NothingBefore(apdu);
    NothingBefore([]);
  }

  lemma PlainControl(n: Npdu)
    requires n.destination.None? && n.source.None? && n.networkMessage.None? && n.expectingReply
    ensures Control(n) == 0x04
  {
  }

  lemma NothingBefore(s: octets)
    ensures [] + s == s
  {
  }

  lemma CutTail(head: octets, control: octets, apdu: octets)
    requires |head| == 4 && |control| == 2 && |apdu| >= 2042
    ensures Slice(head + (control + apdu), 0, 2048) == head + (control + apdu[..2042])
  {
    var data := head + (control + apdu);
    assert data == (head + control) + apdu;
    assert data[..2048] == (head + control) + apdu[..2042];
  }

  /** What the descent finds in data it finds in every longer version of that data. */
  lemma DescendLonger(data: octets, longer: octets, position: nat)
    requires data <= longer && Descend(data, position).Ok?
    ensures Descend(longer, position) == Descend(data, position)
  {
    hide Descend, ReadTag;
    var span := Descend(data, position).value;
    DescendSound(data, position);
    var close := data[span.closeStart..span.next];
    assert longer[position..span.closeStart] == data[position..span.closeStart];
    assert longer[span.closeStart..span.next] == close;
    DescendComplete(longer, position, span.forest, close);
  }

  /** An exception the parsers catch. */
  predicate RunsOut<T>(r: Outcome<T>) { r == Raise(IndexError) || r == Raise(StructError) }

  lemma CutLength(cut: octets, whole: octets, i: nat, lengthValue: nat)
    requires cut <= whole && ReadLength(whole, i, lengthValue).Ok?
    ensures var r := ReadLength(cut, i, lengthValue); RunsOut(r) || r == ReadLength(whole, i, lengthValue)
  {
    hide FromBytes;
    if lengthValue == 5 && i < |cut| {
      var size := if cut[i] == 254 then 2 else 4;
      if i + 1 + size <= |cut| {
        SliceLocal(cut, whole, |cut|, i + 1, i + 1 + size);
      }
    }
  }

  /** A tag that has lost octets at its end runs out, or is read with the same end and kind and
      less content. */
  lemma CutFirst(cut: octets, whole: octets)
    requires cut <= whole && ReadFirst(whole).Ok?
    ensures var r, w := ReadFirst(cut), ReadFirst(whole).value;
            RunsOut(r) || (r.Ok? && r.value.kind == w.kind && r.value.next == w.next)
  {
    hide ReadLength;
    if cut != [] && NumberEnd(whole) <= |cut| && ReadFirst(whole).value.kind == Value {
      CutLength(cut, whole, NumberEnd(whole), whole[0] % 8);
    }
  }

  lemma CutTag(cut: octets, whole: octets, position: nat)
    requires cut <= whole && ReadTag(whole, position).Ok?
    ensures var r, w := ReadTag(cut, position), ReadTag(whole, position).value;
            RunsOut(r) || (r.Ok? && r.value.kind == w.kind && r.value.next == w.next)
  {
    hide ReadFirst;
    if position < |cut| {
      assert cut[position..] <= whole[position..];
      CutFirst(cut[position..], whole[position..]);
    }
  }

  /** A descent over data that has lost octets at its end succeeds or runs out. */
  lemma {:induction false} CutDescend(cut: octets, whole: octets, position: nat)
    requires cut <= whole && Descend(whole, position).Ok?
    ensures Descend(cut, position).Ok? || RunsOut(Descend(cut, position))
    decreases |whole| - position
  {
    hide ReadTag;
    CutTag(cut, whole, position);
    var r, w := ReadTag(cut, position), ReadTag(whole, position).value;
    if r.Ok? && w.kind != Close {
      CutDescend(cut, whole, w.next);
      if w.kind == Open && Descend(cut, w.next).Ok? {
        DescendLonger(cut, whole, w.next);
        CutDescend(cut, whole, Descend(whole, w.next).value.next);
      }
    }
  }

  /** A WriteProperty of the Present_Value without its priority. */
  function Unprioritized(key: ObjectKey, c: WireCommand): octets
    requires key.InRange()
  {
    WritePropertyRequest(c.invokeId, key, PROPERTY_PRESENT_VALUE, ValueOctets(c), None, None)
  }

  /** Where its parts stand. */
  lemma Parts(key: ObjectKey, c: WireCommand)
    requires key.InRange()
    ensures var apdu := Unprioritized(key, c);
            var a, b := ContextObjectId(0, key), ContextUnsigned(1, PROPERTY_PRESENT_VALUE);
            && |a| == 5 && |b| == 2 && |apdu| == 13 + |ValueOctets(c)|
            && apdu == [0x00, 0x05, c.invokeId, SERVICE_WRITE_PROPERTY] + (a + (b + Bracketed(3, ValueOctets(c), [])))
  {
    hide UnsignedOctets, ObjectId;
    TaggedSize(0, true, ObjectId(key));
    OneOctet(PROPERTY_PRESENT_VALUE);
    TaggedSize(1, true, UnsignedOctets(PROPERTY_PRESENT_VALUE));
    var tail := Bracketed(3, ValueOctets(c), []);
    assert [] + tail == tail;
  }

  lemma PriorityLast(key: ObjectKey, c: WireCommand)
    requires key.InRange() && c.priority.Some? && c.priority.value <= 16
    ensures WritePropertyRequest(c.invokeId, key, PROPERTY_PRESENT_VALUE, ValueOctets(c), c.priority, None)
            == Unprioritized(key, c) + [0x49, c.priority.value]
  {
    hide ContextObjectId, UnsignedOctets;
    var p := c.priority.value;
    OneOctet(p);
    OneOctetIs(UnsignedOctets(p));
    assert ContextUnsigned(4, p) == [0x49, p];
    var value, last := ValueOctets(c), [0x49, p];
    var a, b := ContextObjectId(0, key), ContextUnsigned(1, PROPERTY_PRESENT_VALUE);
    BracketedTail(3, value, last);
    RegroupTail([0x00, 0x05, c.invokeId, SERVICE_WRITE_PROPERTY], a, b, Bracketed(3, value, []), last);
    assert [] + Bracketed(3, value, []) == Bracketed(3, value, []);
    assert [] + (Bracketed(3, value, []) + last) == Bracketed(3, value, []) + last;
  }

  lemma OneOctetIs(s: octets)
    requires |s| == 1
    ensures s == [FromBytes(s)]
  {
    assert s[..0] == [];
  }

  lemma BracketedTail(number: nat, value: octets, after: octets)
    requires number < 15
    ensures Bracketed(number, value, after) == Bracketed(number, value, []) + after
  {
  }

  lemma RegroupTail(head: octets, a: octets, b: octets, c: octets, tail: octets)
    ensures head + (a + (b + (c + tail))) == head + (a + (b + c)) + tail
  {
  }

  /** What the server reads of a WriteProperty whose first 11 octets and opening tag are there. */
  lemma CutTarget(apdu: octets, key: ObjectKey, c: WireCommand, rest: octets)
    requires key.InRange() && 12 <= |apdu|
    requires apdu == [0x00, 0x05, c.invokeId, SERVICE_WRITE_PROPERTY] +
                     (ContextObjectId(0, key) + (ContextUnsigned(1, PROPERTY_PRESENT_VALUE) + (Opening(3) + rest)))
    ensures ConfirmedService(apdu) == Some(SERVICE_WRITE_PROPERTY)
    ensures ParseWritePropertyRequest(apdu) ==
            Caught(ParseWritten(apdu, Target(key, PROPERTY_PRESENT_VALUE, 11), None, 11))
    ensures ReadTag(apdu, 11) == Ok(Tag(3, true, Open, [], 12)) && At(apdu, 12, rest)
  {
    hide ReadTag, At, ParseTarget, ParseWritten, ParseWrite, ContextObjectId, ContextUnsigned, FromBytes,
        UnsignedOctets;
    Parts(key, c);
    var a, b := ContextObjectId(0, key), ContextUnsigned(1, PROPERTY_PRESENT_VALUE);
    AtTail([0x00, 0x05, c.invokeId, SERVICE_WRITE_PROPERTY], a + (b + (Opening(3) + rest)));
    TargetAt(apdu, 4, key, PROPERTY_PRESENT_VALUE, Opening(3) + rest);
    AtSplit(apdu, 11, Opening(3), rest);
    OpeningElement(3);
    ElementAt(apdu, 11, Opening(3), 3, true, Open, []);
    ParseWriteIndexed(apdu, Target(key, PROPERTY_PRESENT_VALUE, 11), None, ReadTag(apdu, 11).value);
  }

  /** A request cut before its closing tag holds no write. */
  lemma CutValue(key: ObjectKey, c: WireCommand, n: nat)
    requires key.InRange() && Balanced(ValueOctets(c)) && 12 <= n < |Unprioritized(key, c)|
    ensures ConfirmedService(Unprioritized(key, c)[..n]) == Some(SERVICE_WRITE_PROPERTY)
    ensures ParseWritePropertyRequest(Unprioritized(key, c)[..n]) == Ok(None)
  {
    hide ReadTag, At, Descend, Balanced, ContextObjectId, ContextUnsigned, ParseWritePropertyRequest,
        WritePropertyRequest, ConfirmedService;
    Parts(key, c);
    var whole := Unprioritized(key, c);
    var a, b := ContextObjectId(0, key), ContextUnsigned(1, PROPERTY_PRESENT_VALUE);
    var value := ValueOctets(c);
    var tail := value + (Closing(3) + []);
    CutEarly([0x00, 0x05, c.invokeId, SERVICE_WRITE_PROPERTY], a, b, Opening(3), tail, n);
    CutTarget(whole[..n], key, c, tail[..n - 12]);
    CutTarget(whole, key, c, tail);
    AtTail([0x00, 0x05, c.invokeId, SERVICE_WRITE_PROPERTY] + (a + b), Bracketed(3, value, []));
    RegroupTail([0x00, 0x05, c.invokeId, SERVICE_WRITE_PROPERTY], a, b, [], Bracketed(3, value, []));
    assert b + [] == b && [] + Bracketed(3, value, []) == Bracketed(3, value, []);
    BracketedAt(whole, 11, 3, value, []);
    CutDescend(whole[..n], whole, 12);
    if Descend(whole[..n], 12).Ok? {
      DescendLonger(whole[..n], whole, 12);
    }
  }

  lemma CutEarly(head: octets, a: octets, b: octets, o: octets, tail: octets, n: nat)
    requires |head| == 4 && |a| == 5 && |b| == 2 && |o| == 1 && 12 <= n <= 12 + |tail|
    ensures (head + (a + (b + (o + tail))))[..n] == head + (a + (b + (o + tail[..n - 12])))
  {
    var front := head + (a + (b + o));
    assert head + (a + (b + (o + tail))) == front + tail;
    assert (front + tail)[..n] == front + tail[..n - 12];
    assert head + (a + (b + (o + tail[..n - 12]))) == front + tail[..n - 12];
  }

  /** A request that ends in the middle of its priority asks for priority 0, which is none. */
  lemma CutPriority(key: ObjectKey, c: WireCommand)
    requires key.InRange() && Balanced(ValueOctets(c))
    ensures var apdu := Unprioritized(key, c) + [0x49];
            && ConfirmedService(apdu) == Some(SERVICE_WRITE_PROPERTY)
            && ParseWritePropertyRequest(apdu) ==
               Ok(Some(WriteRequest(key, PROPERTY_PRESENT_VALUE, None, ValueOctets(c), Some(0))))
  {
    hide At, Descend, Balanced, ContextObjectId, ContextUnsigned, ParseWritePropertyRequest, WritePropertyRequest,
         ConfirmedService, ReadTag, Slice;
    Parts(key, c);
    var apdu := Unprioritized(key, c) + [0x49];
    var a, b, value := ContextObjectId(0, key), ContextUnsigned(1, PROPERTY_PRESENT_VALUE), ValueOctets(c);
    var head := [0x00, 0x05, c.invokeId, SERVICE_WRITE_PROPERTY];
    RegroupTail(head, a, b, Bracketed(3, value, []), [0x49]);
    BracketedTail(3, value, [0x49]);
    CutTarget(apdu, key, c, value + (Closing(3) + [0x49]));
    assert apdu == (head + (a + b)) + Bracketed(3, value, [0x49]);
    AtTail(head + (a + b), Bracketed(3, value, [0x49]));
    BracketedAt(apdu, 11, 3, value, [0x49]);
    CutAt(apdu, 12, value, 12 + |value|);
    HalfTag(apdu, 13 + |value|);
  }

  lemma HalfTag(data: octets, position: nat)
    requires At(data, position, [0x49]) && position + 1 == |data|
    ensures ReadTag(data, position) == Ok(Tag(4, true, Value, [], position + 2)) && FromBytes([]) == 0
  {
    var d: octets := [0x49];
    assert data[position..] == d;
    assert Slice(d, 1, 2) == [];
    assert ReadFirst(d) == Ok(Tag(4, true, Value, [], 2));
  }

  /** What arrives of a command whose datagram is too long, as the server parses it. */
  lemma CutCommand(key: ObjectKey, c: WireCommand)
    requires key.InRange() && ValidCommand(c) && WriteSize(c) > 2048
    ensures var apdu := WritePropertyRequest(c.invokeId, key, PROPERTY_PRESENT_VALUE, ValueOctets(c), c.priority, None);
            && |apdu| > 2042 && apdu[2] == c.invokeId
            && ConfirmedService(apdu[..2042]) == Some(SERVICE_WRITE_PROPERTY)
            && var r := ParseWritePropertyRequest(apdu[..2042]);
            if c.priority.Some? && WriteSize(c) <= 2050
            then && r.Ok? && r.value.Some?
                 && r.value.value in {AsRequest(key, c.(priority := None)), AsRequest(key, c.(priority := Some(0)))}
            else r == Ok(None)
  {
    hide WritePropertyRequest, ParseWritePropertyRequest, ConfirmedService, Balanced, IsNull;
    CommandIsNull(key, c);
    RequestSize(key, c);
    Parts(key, c);
    var apdu := WritePropertyRequest(c.invokeId, key, PROPERTY_PRESENT_VALUE, ValueOctets(c), c.priority, None);
    ServiceOf(c.invokeId, key, c);
    var plain := Unprioritized(key, c);
    if c.priority.Some? {
      PriorityLast(key, c);
    }
    if |plain| > 2042 {
      assert apdu[..2042] == plain[..2042];
      CutValue(key, c, 2042);
    } else if |plain| == 2042 {
      assert apdu[..2042] == plain;
      WritePropertyRoundTrip(c.invokeId, key, PROPERTY_PRESENT_VALUE, ValueOctets(c), None, None);
      ServiceOf(c.invokeId, key, c.(priority := None));
    } else {
      assert apdu[..2042] == plain + [0x49];
      CutPriority(key, c);
    }
  }

  /** A command whose datagram is longer than the 2048 octets the server receives. If only octets of
      the priority are cut off, it is executed and acknowledged, but at priority 16 whatever
      priority it asked for; if more is cut off, nothing changes and there is no answer. */
  lemma OversizedCommand(s: Peer, key: ObjectKey, c: WireCommand)
    requires Ready(s, key) && ValidCommand(c) && WriteSize(c) > 2048
    ensures var (t, reply) := ServeDatagram(s, WriteDatagram(key, c));
            if c.priority.Some? && WriteSize(c) <= 2050
            then && Ready(t, key) && t.slots[key] == Apply(s.slots[key], Meant(c.(priority := None)))
                 && reply.Ok? && reply.value.Some?
                 && ApduIn(reply.value.value) == Ok(SimpleAck(c.invokeId, SERVICE_WRITE_PROPERTY))
            else t == s && reply == Ok(None)
  {
    hide WritePropertyRequest, Answer, FirstSet, Apply, ApduFrame, DecodeFrame, Received, Balanced, ApplicationTag,
        ApduIn;
    var apdu := WritePropertyRequest(c.invokeId, key, PROPERTY_PRESENT_VALUE, ValueOctets(c), c.priority, None);
    RequestSize(key, c);
    CutFrame(apdu);
    CutAnswer(s, key, c, apdu[..2042]);
    var t := Answer(s, apdu[..2042]).0;
    assert t.alive ==> t.(alive := true) == t;
    AckArrives(c.invokeId);
  }

  /** What the server does with what arrives of it. */
  lemma CutAnswer(s: Peer, key: ObjectKey, c: WireCommand, cut: octets)
    requires Ready(s, key) && ValidCommand(c) && WriteSize(c) > 2048
    requires var apdu :=
               WritePropertyRequest(c.invokeId, key, PROPERTY_PRESENT_VALUE, ValueOctets(c), c.priority, None);
             |apdu| > 2042 && cut == apdu[..2042]
    ensures var (t, answer) := Answer(s, cut);
            if c.priority.Some? && WriteSize(c) <= 2050
            then && Ready(t, key) && t.slots[key] == Apply(s.slots[key], Meant(c.(priority := None)))
                 && answer == Answered(SimpleAck(c.invokeId, SERVICE_WRITE_PROPERTY))
            else t == s && answer == Ok(None)
  {
    hide WritePropertyRequest, ParseWritePropertyRequest, ConfirmedService, Balanced, IsNull, Answer, FirstSet, Apply,
         SimpleAck, ValidCommand, WriteSize, Store, Change;
    CutCommand(key, c);
    AnswerChanges(s, cut);
    AnswerKeepsCache(s, cut);
    if c.priority.Some? && WriteSize(c) <= 2050 {
      var r := ParseWritePropertyRequest(cut).value.value;
      CutChange(s, key, c, cut, r);
      StoreSlots(s, r, c.value.None?);
    } else {
      NoWriteNoAnswer(s, cut);
    }
  }

  lemma NoWriteNoAnswer(s: Peer, apdu: octets)
    requires s.Valid() && s.mode.Online? && s.failures == map[]
    requires ConfirmedService(apdu) == Some(SERVICE_WRITE_PROPERTY) && ParseWritePropertyRequest(apdu) == Ok(None)
    ensures Answer(s, apdu) == (s, Ok(None))
  {
    hide ParseWritePropertyRequest, ServeOther;
  }

  lemma CutChange(s: Peer, key: ObjectKey, c: WireCommand, cut: octets, r: WriteRequest)
    requires Ready(s, key) && ValidCommand(c) && ConfirmedService(cut) == Some(SERVICE_WRITE_PROPERTY)
    requires ParseWritePropertyRequest(cut) == Ok(Some(r))
    requires r in {AsRequest(key, c.(priority := None)), AsRequest(key, c.(priority := Some(0)))}
    ensures Change(s, cut) == Some((r, c.value.None?)) && !Overflows(s, r) && IsCommand(s, r) && r.key == key
    ensures Apply(s.slots[key], CommandOf(r, c.value.None?)) == Apply(s.slots[key], Meant(c.(priority := None)))
  {
    hide ParseWritePropertyRequest, ConfirmedService, Balanced, IsNull, FirstSet;
    CommandIsNull(key, c);
    SameValueIsNull(r, AsRequest(key, c));
  }

  lemma StoreSlots(s: Peer, r: WriteRequest, isNull: bool)
    requires s.Valid() && r.key in s.objects && IsCommand(s, r) && !Overflows(s, r)
    ensures var (t, done) := Store(s, r, isNull);
            && done.Ok? && t == s.(objects := t.objects, slots := t.slots) && t.IsCommandable(r.key)
            && t.slots[r.key] == Apply(s.slots[r.key], CommandOf(r, isNull))
  {
    hide Apply, FirstSet;
  }

  lemma SameValueIsNull(r: WriteRequest, q: WriteRequest)
    requires r.value == q.value
    ensures IsNull(r) == IsNull(q)
  {
  }

  lemma AckArrives(invokeId: byte)
    ensures ApduIn(ApduFrame(None, false, SimpleAck(invokeId, SERVICE_WRITE_PROPERTY))) ==
            Ok(SimpleAck(invokeId, SERVICE_WRITE_PROPERTY))
  {
    hide ApduFrame, DecodeFrame, Received;
    var ack := SimpleAck(invokeId, SERVICE_WRITE_PROPERTY);
    ApduFrameRoundTrip(None, false, ack);
    WholeDatagram(ApduFrame(None, false, ack));
  }
}
