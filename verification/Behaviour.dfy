/** What the simulated peer does with each request, mode by mode and failure by failure, in terms of
    what it serves and records. */
module Behaviour {
  import opened Octets
  import opened Tags
  import opened Forests
  import opened Values
  import opened Requests
  import opened Commands
  import opened Server
  import opened ServerRuns
  import opened EndToEnd
  import opened OverTheWire

  // ---- writes ----

  /** A write the server takes: to a listed object, not while refusing, to what is writable, and not
      a NULL that a server with commandable objects ignores. */
  predicate Takes(s: Peer, r: WriteRequest, isNull: bool) {
    var command := s.commandable.Some? && r.key in s.commandable.value && r.property == 85;
    var listed := r.key in s.objects && r.property in s.objects[r.key];
    && r.key in s.objects && !s.mode.Refusing?
    && (if s.writable.None? then listed else (r.key, r.property) in s.writable.value)
    && !(s.commandable.Some? && isNull && !command && s.mode.Online? && listed)
  }

  lemma TakenIsStored(s: Peer, r: WriteRequest, isNull: bool)
    ensures WriteVerdict(s, r, isNull).Stored? <==> Takes(s, r, isNull)
    ensures IsCommand(s, r) <==> s.commandable.Some? && r.key in s.commandable.value && r.property == 85
  {
  }

  /** Every WriteProperty is recorded. One that is taken, and is not a command, makes the server
      serve the value it carries; one that is not taken changes nothing; and no write changes what
      any other property serves. */
  lemma WriteStores(s: Peer, invokeId: byte, r: WriteRequest, key: ObjectKey, property: nat)
    requires s.Valid() && !s.mode.Offline? && s.failures == map[] && r.key.InRange() && r.property < 0x1_0000_0000
    requires Encodable(r.index) && (r.priority.Some? ==> r.priority.value <= 16) && Balanced(r.value)
    ensures var t := Answer(s, WritePropertyRequest(invokeId, r.key, r.property, r.value, r.priority, r.index)).0;
            var command := s.commandable.Some? && r.key in s.commandable.value && r.property == 85;
            && IsNull(r).Ok?
            && t.SameBut(s.(objects := t.objects, slots := t.slots))
            && t.log == s.log.(writeRequests := s.log.writeRequests + [r])
            && (Takes(s, r, IsNull(r).value) && !command ==>
                  t.Served(r.key, r.property) == Some(r.value) && t.slots == s.slots)
            && (!Takes(s, r, IsNull(r).value) ==> t.objects == s.objects && t.slots == s.slots)
            && ((key, property) != (r.key, r.property) ==> t.Served(key, property) == s.Served(key, property))
  {
    hide WritePropertyRequest, ParseWritePropertyRequest, Balanced, IsNull, Store, WriteVerdict, IsCommand, Takes,
         Answer, WriteProperty;
    var apdu := WritePropertyRequest(invokeId, r.key, r.property, r.value, r.priority, r.index);
    BalancedTag(r.value);
    IsNullReads(r);
    var noted := s.(log := s.log.(writeRequests := s.log.writeRequests + [r]));
    WriteIsServed(s, noted, invokeId, r);
    WriteChanges(noted, invokeId, r);
    TakenIsStored(s, r, IsNull(r).value);
    NoteKeepsVerdict(s, noted, r, IsNull(r).value);
    if Takes(s, r, IsNull(r).value) {
      StoredIsListed(noted, r, IsNull(r).value);
      StoreServes(noted, r, IsNull(r).value, key, property);
      StoreServes(noted, r, IsNull(r).value, r.key, r.property);
      TakenIsStored(noted, r, IsNull(r).value);
      StoreKeepsRest(noted, r, IsNull(r).value);
    }
  }

  lemma IsNullReads(r: WriteRequest)
    requires ApplicationTag(r.value).Ok?
    ensures IsNull(r).Ok?
  {
    hide ApplicationTag;
  }

  lemma StoredIsListed(s: Peer, r: WriteRequest, isNull: bool)
    requires WriteVerdict(s, r, isNull).Stored?
    ensures r.key in s.objects
  {
  }

  lemma StoreKeepsRest(s: Peer, r: WriteRequest, isNull: bool)
    requires s.Valid() && r.key in s.objects
    ensures var t := Store(s, r, isNull).0; t == s.(objects := t.objects, slots := t.slots)
  {
    hide Apply, FirstSet;
  }

  // ---- reads ----

  /** Without an array index, or on a server that does not serve elements, any listed property is
      read as it is served, and the read is recorded. */
  lemma PropertyReads(s: Peer, invokeId: byte, key: ObjectKey, property: nat, index: Option<nat>)
    requires s.Valid() && !s.mode.Offline? && s.failures == map[] && key.InRange() && property < 0x1_0000_0000
    requires Encodable(index) && s.Served(key, property).Some? && Balanced(s.Served(key, property).value)
    requires if index.Some? then !s.arrayElements else (key, property) !in s.wholeArraysRefused
    ensures var apdu := ReadPropertyRequest(invokeId, key, property, index);
            && |apdu| <= 2042
            && ClientReads(s, apdu) == Ok(s.Served(key, property))
            && Answer(s, apdu).0 == s.(log := s.log.(readRequests := s.log.readRequests + [(12, [(key, [property])])]))
            && Answer(s, apdu).1 ==
               Answered(ReadPropertyAck(invokeId, key, property, None, s.Served(key, property).value))
  {
    hide ReadPropertyRequest, ReadPropertyAck, ReadPropertyValueFrom, ParseReadPropertyRequest, Balanced;
    if index.Some? {
      IndexedRequestShape(invokeId, key, property, index.value);
    } else {
      PlainRequestShape(invokeId, key, property);
    }
    ReadPropertyRoundTrip(invokeId, key, property, index);
    ReadPropertyAckRoundTrip(invokeId, key, property, None, s.Served(key, property).value);
  }

  /** A whole array that is refused is answered with Abort segmentation-not-supported. */
  lemma WholeArrayRefused(s: Peer, invokeId: byte, key: ObjectKey, property: nat)
    requires s.Valid() && !s.mode.Offline? && s.failures == map[] && key.InRange() && property < 0x1_0000_0000
    requires key in s.objects && (key, property) in s.wholeArraysRefused
    ensures Answer(s, ReadPropertyRequest(invokeId, key, property, None)) ==
            (s.(log := s.log.(readRequests := s.log.readRequests + [(12, [(key, [property])])])),
             Answered([0x71, invokeId, 4]))
  {
    hide ReadPropertyRequest, ParseReadPropertyRequest;
    PlainRequestShape(invokeId, key, property);
    ReadPropertyRoundTrip(invokeId, key, property, None);
  }

  /** A read of one element is recorded with its index. */
  lemma ElementReadIsRecorded(s: Peer, invokeId: byte, key: ObjectKey, property: nat, index: nat)
    requires s.Valid() && !s.mode.Offline? && s.failures == map[] && s.arrayElements && key.InRange()
    requires property < 0x1_0000_0000 && index < 0x1_0000_0000 && s.Served(key, property).Some?
    ensures Answer(s, ReadPropertyRequest(invokeId, key, property, Some(index))).0 ==
            s.(log := s.log.(readRequests := s.log.readRequests + [(12, [(key, [property])])],
                             arrayReads := s.log.arrayReads + [(key, property, index)]))
  {
    hide ReadPropertyRequest, ParseReadPropertyRequest, ReadElement;
    IndexedRequestShape(invokeId, key, property, index);
    ReadPropertyRoundTrip(invokeId, key, property, Some(index));
  }

  // ---- a write and a read ----

  /** By datagram: a WriteProperty that is taken, and is not a command, and then a ReadProperty of
      the same property give the client the octets that were written. */
  lemma WriteThenRead(s: Peer, first: byte, second: byte, r: WriteRequest)
    requires s.Valid() && s.alive && !s.mode.Offline? && s.failures == map[] && r.key.InRange()
    requires r.property < 0x1_0000_0000 && Encodable(r.index) && (r.priority.Some? ==> r.priority.value <= 16)
    requires Balanced(r.value) && IsNull(r).Ok? && Takes(s, r, IsNull(r).value)
    requires !(s.commandable.Some? && r.key in s.commandable.value && r.property == 85)
    requires (r.key, r.property) !in s.wholeArraysRefused
    requires |WritePropertyRequest(first, r.key, r.property, r.value, r.priority, r.index)| <= 2042
    requires |ReadPropertyAck(second, r.key, r.property, None, r.value)| <= 2042
    ensures var t := Heard(s, WritePropertyRequest(first, r.key, r.property, r.value, r.priority, r.index)).0;
            var read := ReadPropertyRequest(second, r.key, r.property, None);
            |read| <= 2042 && ValueHeard(t, read) == Ok(Some(r.value))
  {
    hide Answer, Heard, WritePropertyRequest, ReadPropertyRequest, ReadPropertyAck, Balanced, IsNull, Takes,
         ClientLearns, OutcomeOf, ReadPropertyValueFrom;
    var write := WritePropertyRequest(first, r.key, r.property, r.value, r.priority, r.index);
    WriteIsAnswered(s, first, r);
    HeardIsAnswered(s, write);
    WriteStores(s, first, r, r.key, r.property);
    var t := Answer(s, write).0;
    PropertyReads(t, second, r.key, r.property, None);
    HeardIsAnswered(t, ReadPropertyRequest(second, r.key, r.property, None));
  }

  // ---- offline ----

  /** Whether an APDU is a ReadProperty, ReadPropertyMultiple or WriteProperty request. */
  predicate Counted(apdu: octets) { |apdu| > 3 && apdu[0] / 16 == 0 && apdu[3] in {12, 14, 15} }

  /** The records after a request that came while offline: it is counted if it is one of the three
      services, and a write that can be parsed is kept. */
  function Missed(log: Log, apdu: octets): Log {
    var counted := log.(requestsWhileOffline := log.requestsWhileOffline + (if Counted(apdu) then 1 else 0));
    match ParseWritePropertyRequest(apdu)
    case Ok(Some(r)) => counted.(writeRequests := log.writeRequests + [r])
    case _ => counted
  }

  /** Offline, whatever arrives: nothing is answered and nothing changes but the records. */
  lemma OfflineSilence(s: Peer, apdu: octets)
    requires s.Valid() && s.mode.Offline?
    ensures var (t, answer) := Answer(s, apdu);
            if ParseWritePropertyRequest(apdu).Raise?
            then t == s && answer == Raise(ParseWritePropertyRequest(apdu).error)
            else t == s.(log := Missed(s.log, apdu)) && answer == Ok(None)
  {
    hide ServeWrite, ServeOther, ParseWritePropertyRequest, Missed, FailureFor, RejectPdu, AbortPdu;
    OfflineFailsNothing(s, apdu);
    if ConfirmedService(apdu) == Some(15) {
      OfflineWrite(s, apdu);
    } else {
      OtherServiceNoWrite(apdu);
      OfflineOther(s, apdu);
    }
  }

  lemma OfflineWrite(s: Peer, apdu: octets)
    requires s.Valid() && s.mode.Offline? && ConfirmedService(apdu) == Some(15)
    ensures var (t, answer) := ServeWrite(s, apdu); var parsed := ParseWritePropertyRequest(apdu);
            if parsed.Raise? then t == s && answer == Raise(parsed.error)
            else t == s.(log := Missed(s.log, apdu)) && answer == Ok(None)
  {
    hide ParseWritePropertyRequest, WriteProperty;
  }

  lemma OfflineOther(s: Peer, apdu: octets)
    requires s.Valid() && s.mode.Offline? && ConfirmedService(apdu) != Some(15)
             && ParseWritePropertyRequest(apdu) == Ok(None)
    ensures ServeOther(s, apdu, false) == (s.(log := Missed(s.log, apdu)), Ok(None))
  {
    hide ParseWritePropertyRequest, ReadMultiple, ReadProperty, WhoIs;
  }

  lemma OfflineFailsNothing(s: Peer, apdu: octets)
    requires s.mode.Offline?
    ensures FailureFor(s, apdu) == Ok(None)
  {
  }

  lemma OtherServiceNoWrite(apdu: octets)
    requires ConfirmedService(apdu) != Some(15)
    ensures ParseWritePropertyRequest(apdu) == Ok(None)
  {
    hide ParseWrite;
  }

  // ---- failures ----

  /** What an online server with a failure set for an object does with a ReadProperty or WriteProperty
      about it: Reject unrecognized-service, Abort segmentation-not-supported, or silence, which
      is counted; nothing is stored. */
  lemma FailureIsServed(s: Peer, invokeId: byte, key: ObjectKey, apdu: octets)
    requires s.Valid() && s.mode.Online? && key in s.failures
    requires |apdu| > 3 && apdu[2] == invokeId && RequestedObject(apdu) == Ok(Some(key)) && ConfirmedService(apdu).Some?
    ensures match s.failures[key]
            case Reject => Answer(s, apdu) == (s, Answered([0x60, invokeId, 9]))
            case Abort => Answer(s, apdu) == (s, Answered([0x71, invokeId, 4]))
            case Silent => Answer(s, apdu) == (s.(log := s.log.(silentRequests := s.log.silentRequests + 1)), Ok(None))
            case Malformed => true
  {
    hide RequestedObject, ServeWrite, ServeOther, ConfirmedService;
  }

  /** Those requests name the object the failure is set for. */
  lemma RequestsNameObjects(invokeId: byte, key: ObjectKey, property: nat, index: Option<nat>, value: octets,
                            priority: Option<nat>)
    requires key.InRange() && property < 0x1_0000_0000 && Encodable(index) && Encodable(priority) && Balanced(value)
    ensures var read := ReadPropertyRequest(invokeId, key, property, None);
            |read| > 3 && read[2] == invokeId && ConfirmedService(read).Some? && RequestedObject(read) == Ok(Some(key))
    ensures var write := WritePropertyRequest(invokeId, key, property, value, priority, index);
            && |write| > 3 && write[2] == invokeId && ConfirmedService(write).Some?
            && RequestedObject(write) == Ok(Some(key))
  {
    hide ReadPropertyRequest, WritePropertyRequest, Balanced, ParseTarget, ParseWritePropertyRequest;
    PlainRequestShape(invokeId, key, property);
    WriteShape(invokeId, WriteRequest(key, property, index, value, priority));
    WritePropertyRoundTrip(invokeId, key, property, value, priority, index);
  }

  /** With the malformed failure set, a read of a listed object is answered with a NULL. */
  lemma MalformedRead(s: Peer, invokeId: byte, key: ObjectKey, property: nat)
    requires s.Valid() && s.mode.Online? && key in s.failures && s.failures[key] == Malformed && key in s.objects
    requires key.InRange() && property < 0x1_0000_0000
    ensures Answer(s, ReadPropertyRequest(invokeId, key, property, None)).0 == s
    ensures ClientReads(s, ReadPropertyRequest(invokeId, key, property, None)) == Ok(Some([0x00]))
  {
    hide ReadPropertyRequest, ReadPropertyAck, ReadPropertyValueFrom, ParseReadPropertyRequest, Balanced, ParseTarget;
    PlainRequestShape(invokeId, key, property);
    ReadPropertyRoundTrip(invokeId, key, property, None);
    NullOctets();
    ReadPropertyAckRoundTrip(invokeId, key, property, None, ApplicationNull());
  }

  /** A failure is met only by an online server, and only in a request about the object it is set for. */
  lemma FailureOnlyThere(s: Peer, apdu: octets)
    ensures var failure := FailureFor(s, apdu);
            failure.Ok? && failure.value.Some? ==>
              && s.mode.Online? && ConfirmedService(apdu).Some? && RequestedObject(apdu).Ok?
              && RequestedObject(apdu).value.Some? && RequestedObject(apdu).value.value in s.failures
              && failure.value.value == s.failures[RequestedObject(apdu).value.value]
  {
    hide RequestedObject, ConfirmedService;
  }
}
