/** Requests and answers as datagrams: what a client hears is what the server answers, so every
    theorem about an answer is one about a datagram that is sent and one that comes back. */
module OverTheWire {
  import opened Octets
  import opened Tags
  import opened Forests
  import opened Values
  import opened Elements
  import opened Requests
  import opened Frames
  import opened Server
  import opened ServerRuns
  import opened Serving
  import opened EndToEnd
  import Multiple

  /** A client sends an APDU and looks at what comes back. */
  function Heard(s: Peer, apdu: octets): (t: (Peer, Response))
    requires s.Valid() && |apdu| <= 2042
    ensures t.0.Valid()
  {
    var (t, reply) := ServeDatagram(s, ApduFrame(None, true, apdu));
    (t, HeardIn(reply))
  }

  function HeardIn(reply: Outcome<Option<octets>>): Response {
    var datagram :- reply;
    if datagram.None? then Ok(None) else
    var apdu :- ApduIn(datagram.value);
    Ok(Some(apdu))
  }

  lemma AnswerKeepsRunning(s: Peer, apdu: octets)
    requires s.Valid()
    ensures Answer(s, apdu).0.alive == s.alive
  {
    hide Answer, Change;
    AnswerChanges(s, apdu);
  }

  /** Whatever is asked, and whatever the answer: it goes through both datagrams unchanged. */
  lemma HeardIsAnswered(s: Peer, apdu: octets)
    requires s.Valid() && s.alive && |apdu| <= 2042 && Fits(Answer(s, apdu).1)
    ensures Heard(s, apdu) == Answer(s, apdu)
  {
    hide Answer, DecodeFrame, ApduFrame, Received;
    AnswerKeepsRunning(s, apdu);
    var (t, answer) := Answer(s, apdu);
    if answer.value.Some? {
      Transported(s, apdu, answer.value.value);
    } else {
      var sent := ApduFrame(None, true, apdu);
      WholeDatagram(sent);
      ApduFrameRoundTrip(None, true, apdu);
    }
    assert t.alive ==> t.(alive := true) == t;
  }

  /** Any datagram at all: what does not decode ends the thread; what carries no APDU is passed over;
      and the answer to what does goes back to where the request says it came from. */
  lemma EveryDatagram(s: Peer, datagram: octets)
    requires s.Valid() && s.alive
    ensures var (t, reply) := ServeDatagram(s, datagram);
            match DecodeFrame(Slice(datagram, 0, 2048))
            case Raise(e) => t == s.(alive := false) && reply == Raise(e)
            case Ok(f) =>
              if !f.ok || f.npdu.None? || f.npdu.value.networkMessage.Some? then t == s && reply == Ok(None) else
              var answer := Answer(s, f.npdu.value.payload).1;
              && t == Answer(s, f.npdu.value.payload).0.(alive := reply.Ok?)
              && (answer.Raise? ==> reply == Raise(answer.error))
              && (answer == Ok(None) ==> reply == Ok(None))
              && (&& answer.Ok? && answer.value.Some?
                  && HeaderSize(f.npdu.value.source) + |answer.value.value| < 0x1_0000 ==>
                    && reply.Ok? && reply.value.Some?
                    && var back := Npdu(f.npdu.value.source, None, false, None, answer.value.value);
                    && DecodeFrame(reply.value.value) == Ok(Frame(true, Some(0x0A), [], Some(back))))
  {
    hide Answer, DecodeFrame, ApduFrame, Slice;
    var decoded := DecodeFrame(Slice(datagram, 0, 2048));
    if decoded.Ok? && decoded.value.npdu.Some? {
      var answer := Answer(s, decoded.value.npdu.value.payload).1;
      if answer.Ok? && answer.value.Some? {
        ReplyIsRouted(Slice(datagram, 0, 2048), answer.value.value);
      }
    }
  }

  /** A server whose thread has ended is never heard again. */
  lemma EndedIsSilent(s: Peer, datagram: octets)
    requires s.Valid() && !s.alive
    ensures ServeDatagram(s, datagram) == (s, Ok(None))
  {
  }

  /** The value a client reads out of what it hears. */
  function ValueHeard(s: Peer, apdu: octets): Outcome<Option<octets>>
    requires s.Valid() && |apdu| <= 2042
  {
    var answer :- Heard(s, apdu).1;
    if answer.None? then Ok(None) else ReadPropertyValueFrom(answer.value, 3)
  }

  /** Reading an array element by element, datagram by datagram. */
  lemma IndexedReadsHeard(s: Peer, invokeId: byte, key: ObjectKey, property: nat, parts: seq<octets>, index: nat)
    requires s.Valid() && s.alive && s.mode.Online? && s.failures == map[] && s.arrayElements && key.InRange()
    requires property < 0x1_0000_0000 && index < 0x1_0000_0000 && |parts| < 0x1_0000_0000
    requires forall i | 0 <= i < |parts| :: Whole(parts[i], Value)
    requires s.Served(key, property) == Some(Join(parts))
    requires Fits(Answer(s, ReadPropertyRequest(invokeId, key, property, Some(index))).1)
    ensures var apdu := ReadPropertyRequest(invokeId, key, property, Some(index));
            && |apdu| <= 2042
            && (index == 0 ==> ValueHeard(s, apdu) == Ok(Some(ApplicationUnsigned(|parts|))))
            && (1 <= index <= |parts| ==> ValueHeard(s, apdu) == Ok(Some(parts[index - 1])))
            && (index > |parts| ==> Heard(s, apdu).1 == ErrorResponse(invokeId, SERVICE_READ_PROPERTY, 2, 42))
  {
    hide Answer, Heard, ReadPropertyRequest, ReadPropertyAck, ReadPropertyValueFrom, ErrorResponse,
        ApplicationUnsigned, Whole;
    IndexedRequestShape(invokeId, key, property, index);
    IndexedReads(s, invokeId, key, property, parts, index);
    HeardIsAnswered(s, ReadPropertyRequest(invokeId, key, property, Some(index)));
  }

  /** ReadPropertyMultiple, when request and answer each fit a datagram. */
  lemma MultipleHeard(s: Peer, invokeId: byte, specifications: seq<Multiple.Specification>)
    requires s.Valid() && s.alive && !s.mode.Offline?
    requires forall i | 0 <= i < |specifications| :: Multiple.ValidSpecification(specifications[i])
    requires Multiple.Distinct(specifications) && |Multiple.MultipleRequest(invokeId, specifications)| <= 2042
    requires Fits(Answer(s, Multiple.MultipleRequest(invokeId, specifications)).1)
    ensures var (t, answer) := Heard(s, Multiple.MultipleRequest(invokeId, specifications));
            && t == s.(log := s.log.(readRequests := s.log.readRequests + [(14, specifications)]))
            && answer.Ok? && answer.value.Some?
            && var learned := Multiple.ParseMultipleAck(answer.value.value);
            && (&& learned.Ok? && learned.value.Some?
                && Multiple.Complete(learned.value.value, specifications, ServedBy(s))
                <==> Multiple.AskedBalanced(specifications, ServedBy(s)))
  {
    hide Answer, Heard, Multiple.MultipleRequest, Multiple.ParseMultipleAck, Multiple.Complete, Multiple.AskedBalanced,
         Multiple.ValidSpecification;
    MultipleEndToEnd(s, invokeId, specifications);
    HeardIsAnswered(s, Multiple.MultipleRequest(invokeId, specifications));
  }

  /** The outcome of every WriteProperty that fits a datagram reaches the client. */
  lemma WriteHeard(s: Peer, invokeId: byte, r: WriteRequest)
    requires s.Valid() && s.alive && !s.mode.Offline? && s.failures == map[] && r.key.InRange()
             && r.property < 0x1_0000_0000
    requires Encodable(r.index) && (r.priority.Some? ==> r.priority.value <= 16) && Balanced(r.value)
    requires |WritePropertyRequest(invokeId, r.key, r.property, r.value, r.priority, r.index)| <= 2042
    ensures var apdu := WritePropertyRequest(invokeId, r.key, r.property, r.value, r.priority, r.index);
            && IsNull(r).Ok?
            && ClientLearns(Heard(s, apdu).1, invokeId, OutcomeOf(s, r, IsNull(r).value))
  {
    hide Answer, Heard, WritePropertyRequest, ClientLearns, OutcomeOf, IsNull, Balanced;
    WriteIsAnswered(s, invokeId, r);
    HeardIsAnswered(s, WritePropertyRequest(invokeId, r.key, r.property, r.value, r.priority, r.index));
  }

  lemma UnknownHeard(s: Peer, invokeId: byte, key: ObjectKey, property: nat)
    requires s.Valid() && s.alive && !s.mode.Offline? && s.failures == map[] && key.InRange()
             && property < 0x1_0000_0000
    requires s.Served(key, property).None? && (key, property) !in s.wholeArraysRefused
    requires key in s.objects || key.objectType != OBJECT_TYPE_DEVICE
    ensures var apdu := ReadPropertyRequest(invokeId, key, property, None);
            && |apdu| <= 2042
            && var answer := Heard(s, apdu).1;
            && answer.Ok? && answer.value.Some?
            && ErrorClassAndCode(answer.value.value) == Ok(Some(if key in s.objects then (2, 32) else (1, 31)))
  {
    hide Answer, Heard, ReadPropertyRequest, ErrorClassAndCode, ParseTarget;
    PlainRequestShape(invokeId, key, property);
    UnknownReads(s, invokeId, key, property);
    HeardIsAnswered(s, ReadPropertyRequest(invokeId, key, property, None));
  }

  lemma DeviceHeard(s: Peer, invokeId: byte, instance: nat)
    requires s.Valid() && s.alive && !s.mode.Offline? && s.failures == map[]
    requires instance in {s.deviceInstance, MAX_INSTANCE}
    requires ObjectKey(OBJECT_TYPE_DEVICE, instance) !in s.objects && |s.objectName| <= 252
    ensures var key := ObjectKey(OBJECT_TYPE_DEVICE, instance);
            var first := ReadPropertyRequest(invokeId, key, PROPERTY_OBJECT_IDENTIFIER, None);
            var second := ReadPropertyRequest(invokeId, key, PROPERTY_OBJECT_NAME, None);
            && |first| <= 2042 && |second| <= 2042
            && var identifier, name := ValueHeard(s, first), ValueHeard(s, second);
            && identifier.Ok? && identifier.value.Some?
            && DecodeApplication(identifier.value.value) == Ok(Object(ObjectKey(OBJECT_TYPE_DEVICE, s.deviceInstance)))
            && name.Ok? && name.value.Some? && DecodeApplication(name.value.value) == Ok(Text(s.objectName))
  {
    hide Answer, Heard, ReadPropertyRequest, ReadPropertyValueFrom, DecodeApplication, ParseTarget;
    var key := ObjectKey(OBJECT_TYPE_DEVICE, instance);
    PlainRequestShape(invokeId, key, PROPERTY_OBJECT_IDENTIFIER);
    PlainRequestShape(invokeId, key, PROPERTY_OBJECT_NAME);
    DeviceReads(s, invokeId, instance);
    HeardIsAnswered(s, ReadPropertyRequest(invokeId, key, PROPERTY_OBJECT_IDENTIFIER, None));
    HeardIsAnswered(s, ReadPropertyRequest(invokeId, key, PROPERTY_OBJECT_NAME, None));
  }
}
