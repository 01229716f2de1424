/** The peer in its own form: an object whose methods update its dictionaries and lists. */
module SimulatedServers {
  import opened Octets
  import opened Values
  import opened Requests
  import opened Multiple
  import opened Commands
  import opened Server
  import opened Frames
  import opened Serving

  class SimulatedServer {
    const deviceInstance: nat
    const vendor: nat
    const objectName: octets
    const writable: Option<set<(ObjectKey, nat)>>
    const commandable: Option<set<ObjectKey>>
    const arrayElements: bool
    const relinquishDefaults: map<ObjectKey, octets>
    var mode: Mode
    var failures: map<ObjectKey, Failure>
    var wholeArraysRefused: set<(ObjectKey, nat)>
    var objects: map<ObjectKey, map<int, octets>>
    var priorityArrays: map<ObjectKey, seq<Option<octets>>>
    var writeRequests: seq<WriteRequest>
    var readRequests: seq<(byte, seq<(ObjectKey, seq<nat>)>)>
    var arrayReads: seq<(ObjectKey, nat, nat)>
    var silentRequests: nat
    var requestsWhileOffline: nat
    var running: bool

    function View(): Peer
      reads this
    {
      Peer(deviceInstance, vendor, objectName, writable, commandable, arrayElements, relinquishDefaults,
           mode, failures, wholeArraysRefused, objects, priorityArrays,
           Log(writeRequests, readRequests, arrayReads, silentRequests, requestsWhileOffline), running)
    }

    constructor (device: nat, vendor: nat, name: octets, objects: map<ObjectKey, map<int, octets>>,
                 writable: Option<set<(ObjectKey, nat)>>, commandable: Option<set<ObjectKey>>, arrayElements: bool)
      requires device < 0x40_0000 && vendor < 0x1_0000_0000
      requires commandable.Some? ==>
                 forall key <- commandable.value :: key in objects && PROPERTY_PRESENT_VALUE in objects[key]
      ensures View() == Start(device, vendor, name, objects, writable, commandable, arrayElements)
    {
      var keys := if commandable.Some? then commandable.value else {};
      this.objects, this.writable, this.commandable := objects, writable, commandable;
      this.arrayElements := arrayElements;
      deviceInstance, this.vendor, objectName := device, vendor, name;
      mode, failures, wholeArraysRefused := Online, map[], {};
      relinquishDefaults := map key | key in keys :: objects[key][PROPERTY_PRESENT_VALUE];
      priorityArrays := map key | key in keys :: NoSlots();
      writeRequests, readRequests, arrayReads, silentRequests, requestsWhileOffline := [], [], [], 0, 0;
      running := true;
    }

    /** winning[0] if winning else the default, over the values that are not None. */
    method Winning(slots: seq<Option<octets>>, default: octets) returns (winner: octets)
      ensures winner == FirstSet(slots, default)
    {
      FirstSetCases(slots, default);
      for i := 0 to |slots|
        invariant forall q | 0 <= q < i :: slots[q].None?
      {
        if slots[i].Some? {
          assert IsFirst(slots, i);
          return slots[i].value;
        }
      }
      return default;
    }

    /** The part of _write for a commandable Present_Value: the slot, then the winner. */
    method Command(request: WriteRequest, isNull: bool)
      requires request.key in objects && request.key in relinquishDefaults && request.key in priorityArrays
      requires |priorityArrays[request.key]| == 16 && WritePriority(request) <= 16
      modifies this`objects, this`priorityArrays
      ensures var slots := Apply(old(priorityArrays)[request.key], CommandOf(request, isNull));
              && priorityArrays == old(priorityArrays)[request.key := slots]
              && var winner := FirstSet(slots, relinquishDefaults[request.key]);
              && objects == old(objects)[request.key := old(objects)[request.key][request.property := winner]]
    {
      hide FirstSet;
      var slots := priorityArrays[request.key];
      slots := slots[WritePriority(request) - 1 := if isNull then None else Some(request.value)];
      priorityArrays := priorityArrays[request.key := slots];
      var winner := Winning(slots, relinquishDefaults[request.key]);
      objects := objects[request.key := objects[request.key][request.property := winner]];
    }

    lemma Overwritten(m: map<ObjectKey, map<int, octets>>, key: ObjectKey, property: nat, first: octets, second: octets)
      requires key in m
      ensures var once := m[key := m[key][property := first]];
              once[key := once[key][property := second]] == m[key := m[key][property := second]]
    {
      assert m[key][property := first][property := second] == m[key][property := second];
    }

    /** The end of _write: the value is stored, then, when commanded, the winner over it. */
    method StoreWrite(request: WriteRequest, isNull: bool) returns (done: Outcome<()>)
      requires View().Valid() && request.key in objects
      modifies this`objects, this`priorityArrays
      ensures (View(), done) == Store(old(View()), request, isNull)
    {
      hide FirstSet, Apply;
      var key, property := request.key, request.property;
      objects := objects[key := objects[key][property := request.value]];
      var commanded := commandable.Some? && key in commandable.value && property == PROPERTY_PRESENT_VALUE;
      if commanded {
        assert old(View()).IsCommandable(key);
        if WritePriority(request) > 16 {
          return Raise(IndexError);
        }
        ghost var winner := FirstSet(Apply(priorityArrays[key], CommandOf(request, isNull)), relinquishDefaults[key]);
        Overwritten(old(objects), key, property, request.value, winner);
        Command(request, isNull);
      }
      done := Ok(());
    }

    /** _write */
    method WriteRequested(invokeId: byte, request: WriteRequest) returns (answer: Response)
      requires View().Valid()
      modifies this`objects, this`priorityArrays
      ensures (View(), answer) == WriteProperty(old(View()), invokeId, request)
    {
      hide Store, ApplicationTag, ErrorPdu;
      var key, property := request.key, request.property;
      var tag := ApplicationTag(request.value);
      if tag.Raise? {
        return Raise(tag.error);
      }
      var isNull := tag.value == Some(0);
      var listed := key in objects && property in objects[key];
      var commanded := commandable.Some? && key in commandable.value && property == PROPERTY_PRESENT_VALUE;
      if commandable.Some? && isNull && !commanded && mode.Online? && listed {
        return Answered(SimpleAck(invokeId, SERVICE_WRITE_PROPERTY));
      }
      if key !in objects {
        return ErrorResponse(invokeId, SERVICE_WRITE_PROPERTY, 1, 31);
      }
      var allowed := if writable.None? then property in objects[key] else (key, property) in writable.value;
      if mode.Refusing? || !allowed {
        return ErrorResponse(invokeId, SERVICE_WRITE_PROPERTY, 2, 40);
      }
      var done := StoreWrite(request, isNull);
      if done.Raise? {
        return Raise(done.error);
      }
      return Answered(SimpleAck(invokeId, SERVICE_WRITE_PROPERTY));
    }

    /** A read of a listed object, with what is noted of it. */
    method ReadRequested(invokeId: byte, r: ReadRequest, malformed: bool) returns (answer: Response)
      requires r.key.InRange()
      modifies this`readRequests, this`arrayReads
      ensures (View(), answer) == ReadListed(old(View()), invokeId, r, malformed)
    {
      hide ReadElement, AckResponse;
      if malformed {
        return AckResponse(invokeId, r.key, r.property, None, ApplicationNull());
      }
      var served: Option<octets> := None;
      if r.key in objects && r.property in objects[r.key] {
        served := Some(objects[r.key][r.property]);
      }
      readRequests := readRequests + [(SERVICE_READ_PROPERTY, [(r.key, [r.property])])];
      if r.index.None? && (r.key, r.property) in wholeArraysRefused {
        return Answered(AbortPdu(invokeId, 4));
      }
      if r.index.Some? && arrayElements && served.Some? {
        arrayReads := arrayReads + [(r.key, r.property, r.index.value)];
        return ReadElement(invokeId, r, r.index.value, served.value);
      }
      if served.None? {
        return ErrorResponse(invokeId, SERVICE_READ_PROPERTY, 2, 32);
      }
      return AckResponse(invokeId, r.key, r.property, None, served.value);
    }

    /** The part of _answer after the failures. */
    method ServeRequested(apdu: octets, malformed: bool) returns (answer: Response)
      requires View().Valid()
      modifies this
      ensures (View(), answer) == if ConfirmedService(apdu) == Some(SERVICE_WRITE_PROPERTY)
              then ServeWrite(old(View()), apdu)
                                  else ServeOther(old(View()), apdu, malformed)
    {
      hide WriteProperty, ReadListed, ReadDevice, MultipleAckReply, WhoIs, ParseWritePropertyRequest,
          ParseReadPropertyRequest, ParseSpecifications;
      var service := ConfirmedService(apdu);
      if service == Some(SERVICE_WRITE_PROPERTY) {
        var request := ParseWriteProperty(apdu);
        if request.Raise? {
          return Raise(request.error);
        }
        if request.value.Some? {
          writeRequests := writeRequests + [request.value.value];
        }
        if mode.Offline? {
          requestsWhileOffline := requestsWhileOffline + 1;
          return Ok(None);
        }
        if request.value.None? {
          return Ok(None);
        }
        answer := WriteRequested(apdu[2], request.value.value);
        return;
      }
      if mode.Offline? {
        if service.Some? && service.value in {SERVICE_READ_PROPERTY, SERVICE_READ_PROPERTY_MULTIPLE} {
          requestsWhileOffline := requestsWhileOffline + 1;
        }
        return Ok(None);
      }
      if service == Some(SERVICE_READ_PROPERTY_MULTIPLE) {
        var specifications := ReadAccessSpecifications(Slice(apdu, 4, |apdu|));
        if specifications.Raise? {
          return Raise(specifications.error);
        }
        var before := View();
        readRequests := readRequests + [(SERVICE_READ_PROPERTY_MULTIPLE, specifications.value)];
        return MultipleAckReply(apdu[2], specifications.value, ServedBy(before));
      }
      if service == Some(SERVICE_READ_PROPERTY) {
        var parsed := ParseReadPropertyRequest(apdu);
        if parsed.Raise? {
          return Raise(parsed.error);
        }
        if parsed.value.Some? && parsed.value.value.key in objects {
          ParsedInRange(apdu, parsed.value.value);
          answer := ReadRequested(apdu[2], parsed.value.value, malformed);
          return;
        }
        return ReadDevice(View(), apdu[2], apdu);
      }
      if service.None? && |apdu| > 1 && apdu[0] / 16 == 1 && apdu[1] == 8 {
        return WhoIs(View(), apdu);
      }
      return Ok(None);
    }

    /** _answer */
    method AnswerRequest(apdu: octets) returns (answer: Response)
      requires View().Valid()
      modifies this
      ensures (View(), answer) == Answer(old(View()), apdu)
    {
      hide ServeWrite, ServeOther, FailureFor;
      var failure := FailureFor(View(), apdu);
      if failure.Raise? {
        return Raise(failure.error);
      }
      if failure.value == Some(Reject) {
        return Answered(RejectPdu(apdu[2], 9));
      }
      if failure.value == Some(Abort) {
        return Answered(AbortPdu(apdu[2], 4));
      }
      if failure.value == Some(Silent) {
        silentRequests := silentRequests + 1;
        return Ok(None);
      }
      answer := ServeRequested(apdu, failure.value == Some(Malformed));
    }

    /** One turn of _serve: decode, answer, reply; an exception ends the loop. */
    method Serve(datagram: octets) returns (reply: Outcome<Option<octets>>)
      requires View().Valid()
      modifies this
      ensures (View(), reply) == ServeDatagram(old(View()), datagram)
    {
      hide Answer, DecodeFrame, ReplyDatagram, Received;
      if !running {
        return Ok(None);
      }
      var frame := DecodeFrame(Received(datagram));
      if frame.Raise? {
        running := false;
        return Raise(frame.error);
      }
      if !frame.value.ok || frame.value.npdu.None? || frame.value.npdu.value.networkMessage.Some? {
        return Ok(None);
      }
      var request := frame.value.npdu.value;
      var answer := AnswerRequest(request.payload);
      reply := Replied(request, answer);
      running := reply.Ok?;
    }
  }
}
