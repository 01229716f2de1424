/** The simulated peer of peer.py: it answers ReadProperty, ReadPropertyMultiple and
    WriteProperty, keeps a priority array for each commandable object, and beside it a cached
    Present_Value that has to agree with it. */
module Server {
  import opened Octets
  import opened Tags
  import opened Values
  import opened Elements
  import opened Requests
  import opened Multiple
  import opened Commands

  const OBJECT_TYPE_DEVICE := 8
  const MAX_INSTANCE := 0x3F_FFFF
  const PROPERTY_OBJECT_IDENTIFIER := 75
  const PROPERTY_OBJECT_NAME := 77
  const PROPERTY_PRESENT_VALUE := 85

  datatype Mode = Online | Offline | Refusing

  datatype Failure = Reject | Abort | Silent | Malformed

  /** What a test may look up of the requests that arrived. */
  datatype Log = Log(
    writeRequests: seq<WriteRequest>, readRequests: seq<(byte, seq<(ObjectKey, seq<nat>)>)>,
    arrayReads: seq<(ObjectKey, nat, nat)>, silentRequests: nat, requestsWhileOffline: nat)

  /** `alive` while the serving thread runs: an exception ends it. */
  datatype Peer = Peer(
    deviceInstance: nat, vendor: nat, objectName: octets,
    writable: Option<set<(ObjectKey, nat)>>, commandable: Option<set<ObjectKey>>, arrayElements: bool,
    defaults: map<ObjectKey, octets>,
    mode: Mode, failures: map<ObjectKey, Failure>, wholeArraysRefused: set<(ObjectKey, nat)>,
    objects: map<ObjectKey, map<int, octets>>, slots: map<ObjectKey, seq<Option<octets>>>,
    log: Log, alive: bool)
  {
    predicate IsCommandable(key: ObjectKey) { commandable.Some? && key in commandable.value }

    /** What the constructor sets up and no answer changes. */
    ghost predicate Valid() {
      && deviceInstance < 0x40_0000 && vendor < 0x1_0000_0000
      && forall key :: IsCommandable(key) ==>
           && key in objects && PROPERTY_PRESENT_VALUE in objects[key]
           && key in defaults && key in slots && |slots[key]| == 16
    }

    /** Nothing but the records of what arrived differs. */
    predicate SameBut(other: Peer) {
      this == other.(log := log)
    }

    /** value(): the octets served, or None. */
    function Served(key: ObjectKey, property: nat): Option<octets> {
      if key in objects && property in objects[key] then Some(objects[key][property]) else None
    }

    /** The cached Present_Value of every commandable object is its winning command. */
    ghost predicate Cached()
      requires Valid()
    {
      forall key :: IsCommandable(key) ==>
        objects[key][PROPERTY_PRESENT_VALUE] == FirstSet(slots[key], defaults[key])
    }
  }

  /** SimulatedServer.__init__: the Relinquish_Default is the Present_Value at the start. */
  function Start(deviceInstance: nat, vendor: nat, objectName: octets, objects: map<ObjectKey, map<int, octets>>,
                 writable: Option<set<(ObjectKey, nat)>>, commandable: Option<set<ObjectKey>>,
                 arrayElements: bool): (s: Peer)
    requires deviceInstance < 0x40_0000 && vendor < 0x1_0000_0000
    requires commandable.Some? ==>
               forall key <- commandable.value :: key in objects && PROPERTY_PRESENT_VALUE in objects[key]
    ensures s.Valid()
  {
    var keys := if commandable.Some? then commandable.value else {};
    Peer(deviceInstance, vendor, objectName, writable, commandable, arrayElements,
         map key | key in keys :: objects[key][PROPERTY_PRESENT_VALUE],
         Online, map[], {}, objects, map key | key in keys :: NoSlots(), Log([], [], [], 0, 0), true)
  }

  type Response = Outcome<Option<octets>>

  function Answered(apdu: octets): Response { Ok(Some(apdu)) }

  function ErrorResponse(invokeId: byte, service: byte, errorClass: nat, errorCode: nat): Response
    requires errorClass < 0x1_0000_0000 && errorCode < 0x1_0000_0000
  {
    Answered(ErrorPdu(invokeId, service, errorClass, errorCode))
  }

  /** context_unsigned raises past four octets. */
  function AckResponse(invokeId: byte, key: ObjectKey, property: nat, index: Option<nat>, value: octets): Response
    requires key.InRange()
  {
    if property >= 0x1_0000_0000 || (index.Some? && index.value >= 0x1_0000_0000) then Raise(ValueError)
    else Answered(ReadPropertyAck(invokeId, key, property, index, value))
  }

  // ---- WriteProperty ----

  /** `request["priority"] or 16` */
  function WritePriority(r: WriteRequest): nat {
    if r.priority.Some? && r.priority.value != 0 then r.priority.value else 16
  }

  datatype Verdict = Ignored | Refused(errorClass: nat, errorCode: nat) | Stored

  predicate IsCommand(s: Peer, r: WriteRequest) { s.IsCommandable(r.key) && r.property == PROPERTY_PRESENT_VALUE }

  /** What becomes of a WriteProperty: a NULL to a property that is not commanded is
      acknowledged and ignored by a server made with `commandable`. */
  function WriteVerdict(s: Peer, r: WriteRequest, isNull: bool): (v: Verdict)
    ensures v.Refused? ==> v.errorClass < 3 && v.errorCode < 100
    ensures v.Stored? ==> r.key in s.objects
  {
    if s.commandable.Some? && isNull && !IsCommand(s, r) && s.mode.Online? && s.Served(r.key, r.property).Some?
    then Ignored
    else if r.key !in s.objects then Refused(1, 31)
    else if s.mode.Refusing? then Refused(2, 40)
    else if (if s.writable.None? then r.property in s.objects[r.key] else (r.key, r.property) in s.writable.value)
    then Stored
    else Refused(2, 40)
  }

  function CommandOf(r: WriteRequest, isNull: bool): Command<octets> {
    if isNull then Relinquish(WritePriority(r)) else Write(WritePriority(r), r.value)
  }

  /** Storing an accepted write; a priority above 16 raises after the value has been stored. */
  function Store(s: Peer, r: WriteRequest, isNull: bool): (t: (Peer, Outcome<()>))
    requires s.Valid() && r.key in s.objects
    ensures t.0.Valid()
  {
    var stored := s.(objects := s.objects[r.key := s.objects[r.key][r.property := r.value]]);
    if !IsCommand(s, r) then (stored, Ok(()))
    else if WritePriority(r) > 16 then (stored, Raise(IndexError))
    else
      var slots := Apply(s.slots[r.key], CommandOf(r, isNull));
      (s.(slots := s.slots[r.key := slots],
          objects := s.objects[r.key := s.objects[r.key][r.property := FirstSet(slots, s.defaults[r.key])]]), Ok(()))
  }

  function IsNull(r: WriteRequest): Outcome<bool> {
    var tag :- ApplicationTag(r.value);
    Ok(tag == Some(0))
  }

  function WriteProperty(s: Peer, invokeId: byte, r: WriteRequest): (t: (Peer, Response))
    requires s.Valid()
    ensures t.0.Valid()
  {
    match IsNull(r)
    case Raise(e) => (s, Raise(e))
    case Ok(isNull) =>
      match WriteVerdict(s, r, isNull)
      case Ignored => (s, Answered(SimpleAck(invokeId, SERVICE_WRITE_PROPERTY)))
      case Refused(errorClass, errorCode) => (s, ErrorResponse(invokeId, SERVICE_WRITE_PROPERTY, errorClass, errorCode))
      case Stored =>
        var (t, done) := Store(s, r, isNull);
        (t, match done case Ok(_) => Answered(SimpleAck(invokeId, SERVICE_WRITE_PROPERTY)) case Raise(e) => Raise(e))
  }

  // ---- ReadProperty ----

  /** SimulatedDevice._read_property: the Device object, for what no listed object answers. */
  function ReadDevice(s: Peer, invokeId: byte, apdu: octets): Response
    requires s.Valid()
  {
    match Caught(ParseTarget(apdu, 4))
    case Raise(e) => Raise(e)
    case Ok(None) => Ok(None)
    case Ok(Some(target)) =>
      var me := ObjectKey(OBJECT_TYPE_DEVICE, s.deviceInstance);
      if target.key.objectType != OBJECT_TYPE_DEVICE || target.key.instance !in {s.deviceInstance, MAX_INSTANCE}
      then ErrorResponse(invokeId, SERVICE_READ_PROPERTY, 1, 31)
      else if target.property == PROPERTY_OBJECT_NAME then
        var name :- ApplicationCharacterString(s.objectName);
        AckResponse(invokeId, me, target.property, None, name)
      else if target.property == PROPERTY_OBJECT_IDENTIFIER then
        AckResponse(invokeId, me, target.property, None, ApplicationObjectId(me))
      else ErrorResponse(invokeId, SERVICE_READ_PROPERTY, 2, 32)
  }

  /** One element of an array: [0] its length, [n] its n-th element. */
  function ReadElement(invokeId: byte, r: ReadRequest, index: nat, served: octets): Response
    requires r.key.InRange()
  {
    var elements :- ElementsFrom(served, 0);
    if index == 0 then
      if |elements| >= 0x1_0000_0000 then Raise(ValueError)
      else AckResponse(invokeId, r.key, r.property, r.index, ApplicationUnsigned(|elements|))
    else if index <= |elements| then AckResponse(invokeId, r.key, r.property, r.index, elements[index - 1])
    else ErrorResponse(invokeId, SERVICE_READ_PROPERTY, 2, 42)
  }

  function NoteRead(s: Peer, r: ReadRequest): Peer {
    s.(log := s.log.(readRequests := s.log.readRequests + [(SERVICE_READ_PROPERTY, [(r.key, [r.property])])]))
  }

  /** A read of a listed object: _read_special first, then the plain value. */
  function ReadListed(s: Peer, invokeId: byte, r: ReadRequest, malformed: bool): (t: (Peer, Response))
    requires r.key.InRange()
    ensures t.0.SameBut(s)
  {
    var served := s.Served(r.key, r.property);
    if malformed then (s, AckResponse(invokeId, r.key, r.property, None, ApplicationNull()))
    else if r.index.None? && (r.key, r.property) in s.wholeArraysRefused then
      (NoteRead(s, r), Answered(AbortPdu(invokeId, 4)))
    else if r.index.Some? && s.arrayElements && served.Some? then
      var t := NoteRead(s, r);
      (t.(log := t.log.(arrayReads := t.log.arrayReads + [(r.key, r.property, r.index.value)])),
       ReadElement(invokeId, r, r.index.value, served.value))
    else if served.None? then (NoteRead(s, r), ErrorResponse(invokeId, SERVICE_READ_PROPERTY, 2, 32))
    else (NoteRead(s, r), AckResponse(invokeId, r.key, r.property, None, served.value))
  }

  function ReadProperty(s: Peer, invokeId: byte, apdu: octets, malformed: bool): (t: (Peer, Response))
    requires s.Valid()
    ensures t.0.SameBut(s)
  {
    match ParseReadPropertyRequest(apdu)
    case Raise(e) => (s, Raise(e))
    case Ok(Some(r)) =>
      ParsedInRange(apdu, r);
      if r.key in s.objects then ReadListed(s, invokeId, r, malformed) else (s, ReadDevice(s, invokeId, apdu))
    case Ok(None) => (s, ReadDevice(s, invokeId, apdu))
  }

  lemma ParsedInRange(apdu: octets, r: ReadRequest)
    requires ParseReadPropertyRequest(apdu) == Ok(Some(r))
    ensures r.key.InRange()
  {
    hide ParseTarget, ReadTag;
  }

  // ---- ReadPropertyMultiple ----

  function ServedBy(s: Peer): (ObjectKey, nat) -> Option<octets> { (key, property) => s.Served(key, property) }

  function ReadMultiple(s: Peer, invokeId: byte, apdu: octets): (t: (Peer, Response))
    ensures t.0.SameBut(s)
  {
    match ParseSpecifications(Slice(apdu, 4, |apdu|))
    case Raise(e) => (s, Raise(e))
    case Ok(specifications) =>
      (s.(log := s.log.(readRequests := s.log.readRequests + [(SERVICE_READ_PROPERTY_MULTIPLE, specifications)])),
       MultipleAckReply(invokeId, specifications, ServedBy(s)))
  }

  // ---- Who-Is ----

  /** Every value of the Who-Is, as an unsigned. */
  function Limits(data: octets, position: nat): Outcome<seq<nat>>
    decreases |data| - position
  {
    if position >= |data| then Ok([]) else
    var tag :- ReadTag(data, position);
    var rest :- Limits(data, tag.next);
    Ok(if tag.kind == Value then [FromBytes(tag.body)] + rest else rest)
  }

  function IAm(deviceInstance: nat, vendor: nat): octets
    requires deviceInstance < 0x40_0000 && vendor < 0x1_0000_0000
  {
    [0x10, 0] + ApplicationObjectId(ObjectKey(OBJECT_TYPE_DEVICE, deviceInstance)) + ApplicationUnsigned(1476)
    + ApplicationEnumerated(3) + ApplicationUnsigned(vendor)
  }

  function WhoIs(s: Peer, apdu: octets): Response
    requires s.Valid()
  {
    var limits :- Limits(Slice(apdu, 2, |apdu|), 0);
    if |limits| == 2 && !(limits[0] <= s.deviceInstance <= limits[1]) then Ok(None)
    else Answered(IAm(s.deviceInstance, s.vendor))
  }

  // ---- one request ----

  function ConfirmedService(apdu: octets): Option<byte> {
    if |apdu| > 3 && apdu[0] / 16 == 0 then Some(apdu[3]) else None
  }

  function RequestedObject(apdu: octets): Outcome<Option<ObjectKey>> {
    if ConfirmedService(apdu) == Some(SERVICE_READ_PROPERTY) then
      var target :- Caught(ParseTarget(apdu, 4));
      Ok(if target.Some? then Some(target.value.key) else None)
    else if ConfirmedService(apdu) == Some(SERVICE_WRITE_PROPERTY) then
      var request :- ParseWritePropertyRequest(apdu);
      Ok(if request.Some? then Some(request.value.key) else None)
    else Ok(None)
  }

  /** The failure set for the object a request is about, while online. */
  function FailureFor(s: Peer, apdu: octets): (r: Outcome<Option<Failure>>)
    ensures r.Ok? && r.value.Some? ==> |apdu| > 3
  {
    if !s.mode.Online? || s.failures == map[] || ConfirmedService(apdu).None? then Ok(None) else
    var object' :- RequestedObject(apdu);
    Ok(if object'.Some? && object'.value in s.failures then Some(s.failures[object'.value]) else None)
  }

  /** A request that comes while offline is counted and goes unanswered. */
  function Unheard(s: Peer): Peer { s.(log := s.log.(requestsWhileOffline := s.log.requestsWhileOffline + 1)) }

  function ServeWrite(s: Peer, apdu: octets): (t: (Peer, Response))
    requires s.Valid() && |apdu| > 3
    ensures t.0.Valid()
  {
    match ParseWritePropertyRequest(apdu)
    case Raise(e) => (s, Raise(e))
    case Ok(None) => (if s.mode.Offline? then Unheard(s) else s, Ok(None))
    case Ok(Some(r)) =>
      var s := s.(log := s.log.(writeRequests := s.log.writeRequests + [r]));
      if s.mode.Offline? then (Unheard(s), Ok(None))
      else WriteProperty(s, apdu[2], r)
  }

  /** Everything but WriteProperty leaves the objects and the slots alone. */
  function ServeOther(s: Peer, apdu: octets, malformed: bool): (t: (Peer, Response))
    requires s.Valid()
    ensures t.0.SameBut(s)
  {
    match ConfirmedService(apdu)
    case None =>
      if s.mode.Offline? then (s, Ok(None))
      else if |apdu| > 1 && apdu[0] / 16 == 1 && apdu[1] == 8 then (s, WhoIs(s, apdu))
      else (s, Ok(None))
    case Some(service) =>
      if s.mode.Offline? then
        (if service in {SERVICE_READ_PROPERTY, SERVICE_READ_PROPERTY_MULTIPLE}
         then Unheard(s) else s, Ok(None))
      else if service == SERVICE_READ_PROPERTY_MULTIPLE then ReadMultiple(s, apdu[2], apdu)
      else if service == SERVICE_READ_PROPERTY then ReadProperty(s, apdu[2], apdu, malformed)
      else (s, Ok(None))
  }

  /** SimulatedServer._answer, on the APDU of a frame that is not a network message. */
  function Answer(s: Peer, apdu: octets): (t: (Peer, Response))
    requires s.Valid()
    ensures t.0.Valid()
  {
    match FailureFor(s, apdu)
    case Raise(e) => (s, Raise(e))
    case Ok(Some(Reject)) => (s, Answered(RejectPdu(apdu[2], 9)))
    case Ok(Some(Abort)) => (s, Answered(AbortPdu(apdu[2], 4)))
    case Ok(Some(Silent)) => (s.(log := s.log.(silentRequests := s.log.silentRequests + 1)), Ok(None))
    case Ok(failure) =>
      if ConfirmedService(apdu) == Some(SERVICE_WRITE_PROPERTY) then ServeWrite(s, apdu)
      else ServeOther(s, apdu, failure == Some(Malformed))
  }
}
