/** Which request an answer answers: the octet that identifies it, from the encoders of the server
    through the wire to the client that waits for it. */
module Identities {
  import opened Octets
  import opened Values
  import opened Elements
  import opened Requests
  import opened Frames
  import opened Walkers
  import opened Clients
  import opened Server
  import Serving
  import opened EndToEnd
  import Multiple

  /** A response of clause 20.1.4 to 20.1.9 of ANSI/ASHRAE 135-2024: SimpleACK, ComplexACK, Error,
      Reject or Abort, with the invoke id in its second octet. */
  predicate RespondsTo(apdu: octets, id: byte) {
    |apdu| > 1 && apdu[0] / 16 in {2, 3, 5, 6, 7} && apdu[1] == id
  }

  /** A frame is taken for the answer to `id` exactly when it carries a response to `id`. */
  lemma MatchesIff(f: Frame, id: byte)
    ensures Matches(f, id) == Ok(true) <==> f.ok && NetworkMessage(f).None? && RespondsTo(Payload(f), id)
    ensures f.ok && NetworkMessage(f).None? && |Payload(f)| > 1 ==> Matches(f, id).Ok?
  {
  }

  lemma FramedMatches(destination: Option<Address>, apdu: octets, id: byte, other: byte)
    requires ValidAddress(destination) && HeaderSize(destination) + |apdu| < 0x1_0000 && RespondsTo(apdu, id)
    ensures var f := DecodeFrame(ApduFrame(destination, false, apdu));
            f.Ok? && Payload(f.value) == apdu && Matches(f.value, other) == Ok(other == id)
  {
    hide DecodeFrame, ApduFrame, Matches;
    ApduFrameRoundTrip(destination, false, apdu);
    var f := DecodeFrame(ApduFrame(destination, false, apdu)).value;
    MatchesIff(f, other);
    var m := Matches(f, other);
    assert m.Ok? && (m.value <==> other == id);
  }

  lemma RepliesRespond(id: byte, service: byte, reason: byte, key: ObjectKey, property: nat, index: Option<nat>,
                       value: octets, errorClass: nat, errorCode: nat, parameters: octets)
    requires key.InRange() && property < 0x1_0000_0000 && Encodable(index)
    requires errorClass < 0x1_0000_0000 && errorCode < 0x1_0000_0000
    ensures RespondsTo(SimpleAck(id, service), id) && RespondsTo(ComplexAck(id, service, parameters), id)
    ensures RespondsTo(ErrorPdu(id, service, errorClass, errorCode), id)
    ensures RespondsTo(RejectPdu(id, reason), id) && RespondsTo(AbortPdu(id, reason), id)
    ensures RespondsTo(ReadPropertyAck(id, key, property, index, value), id)
  {
    hide ContextObjectId, ContextUnsigned, Bracketed, OptionalUnsigned, ErrorOctets;
  }

  /** Every reply, framed to any destination, is taken for the answer to the id it was made with
      and for no other. */
  lemma RepliesAreIdentified(destination: Option<Address>, reply: octets, id: byte, other: byte, service: byte,
                             reason: byte, key: ObjectKey, property: nat, index: Option<nat>, value: octets,
                             errorClass: nat, errorCode: nat, results: octets)
    requires ValidAddress(destination) && key.InRange() && property < 0x1_0000_0000 && Encodable(index)
    requires errorClass < 0x1_0000_0000 && errorCode < 0x1_0000_0000
    requires reply in {SimpleAck(id, service), ErrorPdu(id, service, errorClass, errorCode), RejectPdu(id, reason),
                       AbortPdu(id, reason), ReadPropertyAck(id, key, property, index, value),
                       ComplexAck(id, SERVICE_READ_PROPERTY_MULTIPLE, results)}
    requires HeaderSize(destination) + |reply| < 0x1_0000
    ensures RespondsTo(reply, id)
    ensures var f := DecodeFrame(ApduFrame(destination, false, reply));
            f.Ok? && Matches(f.value, other) == Ok(other == id)
  {
    hide DecodeFrame, ApduFrame, Matches, RespondsTo, SimpleAck, ErrorPdu, RejectPdu, AbortPdu, ReadPropertyAck,
        ComplexAck;
    RepliesRespond(id, service, reason, key, property, index, value, errorClass, errorCode, results);
    RepliesRespond(id, SERVICE_READ_PROPERTY_MULTIPLE, reason, key, property, index, value, errorClass, errorCode,
                   results);
    FramedMatches(destination, reply, id, other);
  }

  /** What the decoder reports of each reply and request: PDU type, invoke id and service. */
  lemma ReportedFields(f: Frame, id: byte, service: byte, rest: octets)
    requires f.npdu.Some? && f.npdu.value.networkMessage.None?
    ensures Payload(f) == SimpleAck(id, service) ==>
              PduType(f) == Some(2) && InvokeId(f) == Ok(Some(id)) && Service(f) == Ok(Some(service))
    ensures Payload(f) == ComplexAck(id, service, rest) ==>
              PduType(f) == Some(3) && InvokeId(f) == Ok(Some(id)) && Service(f) == Ok(Some(service))
    ensures Payload(f) == [0x50, id, service] + rest ==>
              PduType(f) == Some(5) && InvokeId(f) == Ok(Some(id)) && Service(f) == Ok(Some(service))
    ensures Payload(f) == RejectPdu(id, service) ==>
              PduType(f) == Some(6) && InvokeId(f) == Ok(Some(id)) && Service(f) == Ok(None)
    ensures Payload(f) == AbortPdu(id, service) ==>
              PduType(f) == Some(7) && InvokeId(f) == Ok(Some(id)) && Service(f) == Ok(None)
    ensures Payload(f) == ConfirmedRequest(id, service, rest) ==>
              PduType(f) == Some(0) && InvokeId(f) == Ok(Some(id)) && Service(f) == Ok(Some(service))
    ensures Payload(f) == [0x10, service] + rest ==>
              PduType(f) == Some(1) && InvokeId(f) == Ok(None) && Service(f) == Ok(Some(service))
  {
  }

  // ---- the server's answers ----

  /** Whatever the server answers to a confirmed request responds to that request's id. */
  predicate Identified(answer: Response, id: byte) {
    answer.Ok? && answer.value.Some? ==> RespondsTo(answer.value.value, id)
  }

  lemma ErrorIdentified(id: byte, service: byte, errorClass: nat, errorCode: nat)
    requires errorClass < 0x1_0000_0000 && errorCode < 0x1_0000_0000
    ensures Identified(ErrorResponse(id, service, errorClass, errorCode), id)
  {
    hide ErrorOctets;
  }

  lemma AckIdentified(id: byte, key: ObjectKey, property: nat, index: Option<nat>, value: octets)
    requires key.InRange()
    ensures Identified(AckResponse(id, key, property, index, value), id)
  {
    hide ContextObjectId, ContextUnsigned, Bracketed, OptionalUnsigned;
  }

  lemma ElementIdentified(id: byte, r: ReadRequest, index: nat, served: octets)
    requires r.key.InRange()
    ensures Identified(ReadElement(id, r, index, served), id)
  {
    hide ErrorResponse, AckResponse, ElementsFrom, ApplicationUnsigned;
    ErrorIdentified(id, SERVICE_READ_PROPERTY, 2, 42);
    var elements := ElementsFrom(served, 0);
    if elements.Ok? {
      if index == 0 && |elements.value| < 0x1_0000_0000 {
        AckIdentified(id, r.key, r.property, r.index, ApplicationUnsigned(|elements.value|));
      } else if 0 < index <= |elements.value| {
        AckIdentified(id, r.key, r.property, r.index, elements.value[index - 1]);
      }
    }
  }

  lemma ListedIdentified(s: Peer, id: byte, r: ReadRequest, malformed: bool)
    requires r.key.InRange()
    ensures Identified(ReadListed(s, id, r, malformed).1, id)
  {
    hide ErrorResponse, AckResponse, ReadElement;
    AckIdentified(id, r.key, r.property, None, ApplicationNull());
    ErrorIdentified(id, SERVICE_READ_PROPERTY, 2, 32);
    var served := s.Served(r.key, r.property);
    if served.Some? {
      AckIdentified(id, r.key, r.property, None, served.value);
      if r.index.Some? {
        ElementIdentified(id, r, r.index.value, served.value);
      }
    }
  }

  lemma DeviceIdentified(s: Peer, id: byte, apdu: octets)
    requires s.Valid()
    ensures Identified(ReadDevice(s, id, apdu), id)
  {
    hide ErrorResponse, AckResponse, ParseTarget, ApplicationCharacterString, ApplicationObjectId;
    ErrorIdentified(id, SERVICE_READ_PROPERTY, 1, 31);
    ErrorIdentified(id, SERVICE_READ_PROPERTY, 2, 32);
    var me := ObjectKey(OBJECT_TYPE_DEVICE, s.deviceInstance);
    AckIdentified(id, me, PROPERTY_OBJECT_IDENTIFIER, None, ApplicationObjectId(me));
    var name := ApplicationCharacterString(s.objectName);
    if name.Ok? {
      AckIdentified(id, me, PROPERTY_OBJECT_NAME, None, name.value);
    }
  }

  lemma WriteIdentified(s: Peer, id: byte, r: WriteRequest)
    requires s.Valid()
    ensures Identified(WriteProperty(s, id, r).1, id)
  {
    hide ErrorResponse, Store, IsNull, WriteVerdict;
    var isNull := IsNull(r);
    if isNull.Ok? {
      var v := WriteVerdict(s, r, isNull.value);
      if v.Refused? {
        ErrorIdentified(id, SERVICE_WRITE_PROPERTY, v.errorClass, v.errorCode);
      }
    }
  }

  lemma ServeWriteIdentified(s: Peer, apdu: octets)
    requires s.Valid() && |apdu| > 3
    ensures Identified(ServeWrite(s, apdu).1, apdu[2])
  {
    hide WriteProperty, ParseWritePropertyRequest, RespondsTo;
    var w := ParseWritePropertyRequest(apdu);
    if w.Ok? && w.value.Some? {
      var r := w.value.value;
      WriteIdentified(s.(log := s.log.(writeRequests := s.log.writeRequests + [r])), apdu[2], r);
    }
  }

  lemma MultipleIdentified(s: Peer, id: byte, apdu: octets)
    ensures Identified(ReadMultiple(s, id, apdu).1, id)
  {
    hide Multiple.AccessResults, Multiple.ParseSpecifications, Multiple.ValidSpecification;
  }

  lemma ServeOtherIdentified(s: Peer, apdu: octets, malformed: bool)
    requires s.Valid() && ConfirmedService(apdu).Some?
    ensures |apdu| > 3 && Identified(ServeOther(s, apdu, malformed).1, apdu[2])
  {
    hide ReadListed, ReadDevice, ReadMultiple, ParseReadPropertyRequest, RespondsTo;
    MultipleIdentified(s, apdu[2], apdu);
    DeviceIdentified(s, apdu[2], apdu);
    var r := ParseReadPropertyRequest(apdu);
    if r.Ok? && r.value.Some? {
      ParsedInRange(apdu, r.value.value);
      ListedIdentified(s, apdu[2], r.value.value, malformed);
    }
  }

  /** Whatever confirmed request arrives, in whatever mode and with whatever failure set: an answer
      is a response with the id of that request. */
  lemma AnswerCarriesId(s: Peer, apdu: octets)
    requires s.Valid() && ConfirmedService(apdu).Some?
    ensures |apdu| > 3 && Identified(Answer(s, apdu).1, apdu[2])
  {
    hide FailureFor, ServeWrite, ServeOther;
    ServeWriteIdentified(s, apdu);
    ServeOtherIdentified(s, apdu, true);
    ServeOtherIdentified(s, apdu, false);
  }

  // ---- client and server ----

  /** The datagram with which the server answers a confirmed request, arriving first, is the answer
      of the exchange for that request's id, and its APDU is the server's answer; an exchange for
      any other id passes it over. */
  lemma ClientGetsItsAnswer(s: Peer, apdu: octets, origin: nat, later: seq<Arrival>, attempts: nat, other: byte)
    requires s.Valid() && s.alive && |apdu| <= 2042 && ConfirmedService(apdu).Some? && attempts > 0
    requires Fits(Answer(s, apdu).1) && Answer(s, apdu).1.value.Some?
    ensures |apdu| > 3
    ensures var reply := Serving.ServeDatagram(s, ApduFrame(None, true, apdu)).1;
            && reply.Ok? && reply.value.Some?
            && var f := DecodeFrame(reply.value.value);
            && f.Ok? && Payload(f.value) == Answer(s, apdu).1.value.value
            && var arrivals := [Datagram(reply.value.value, origin)] + later;
            && Exchanged(arrivals, apdu[2], attempts) == Exchange(Ok(Some(Received(f.value, origin))), 1)
            && (other != apdu[2] ==> Exchanged(arrivals, other, attempts) == Exchanged(later, other, attempts))
  {
    hide Answer, DecodeFrame, ApduFrame, Matches, Serving.Received;
    var answer := Answer(s, apdu).1.value.value;
    AnswerCarriesId(s, apdu);
    ApduFrameRoundTrip(None, true, apdu);
    WholeDatagram(ApduFrame(None, true, apdu));
    FramedMatches(None, answer, apdu[2], apdu[2]);
    FramedMatches(None, answer, apdu[2], other);
    var reply := ApduFrame(None, false, answer);
    var arrivals := [Datagram(reply, origin)] + later;
    assert arrivals[0] == Datagram(reply, origin) && arrivals[1..] == later;
  }
}
