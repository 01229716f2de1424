/** Client, wire and server together: what a client reads after what clients wrote. */
module EndToEnd {
  import opened Octets
  import opened Tags
  import opened Forests
  import opened Values
  import opened Elements
  import opened Requests
  import opened Frames
  import opened Commands
  import opened Server
  import opened ServerRuns
  import opened Serving
  import Multiple

  /** What the client finds in the reply datagram: the APDU in it. */
  function ApduIn(datagram: octets): Outcome<octets> {
    var frame :- DecodeFrame(Received(datagram));
    Ok(if frame.npdu.Some? then frame.npdu.value.payload else [])
  }

  /** An answer whose datagram is received whole, or none. */
  predicate Fits(answer: Response) { answer.Ok? && (answer.value.Some? ==> |answer.value.value| <= 2042) }

  lemma WholeDatagram(datagram: octets)
    requires |datagram| <= 2048
    ensures Received(datagram) == datagram
  {
  }

  /** A request goes through the wire to the server, and the answer comes back through it. */
  lemma Transported(s: Peer, apdu: octets, answer: octets)
    requires s.Valid() && s.alive && |apdu| <= 2042 && |answer| <= 2042
    requires Answer(s, apdu).1 == Answered(answer)
    ensures var (t, reply) := ServeDatagram(s, ApduFrame(None, true, apdu));
            && t == Answer(s, apdu).0.(alive := true) && reply.Ok? && reply.value.Some?
            && ApduIn(reply.value.value) == Ok(answer)
  {
    hide DecodeFrame, ApduFrame, Answer, Received;
    var sent := ApduFrame(None, true, apdu);
    WholeDatagram(sent);
    ApduFrameRoundTrip(None, true, apdu);
    ApduFrameRoundTrip(None, false, answer);
    WholeDatagram(ApduFrame(None, false, answer));
  }

  // ---- commands over the wire ----

  /** A command as a client gives it: a priority or none, a value or NULL. */
  datatype WireCommand = WireCommand(invokeId: byte, priority: Option<nat>, value: Option<octets>)

  /** The octets of the datagram that carries the command. */
  function WriteSize(c: WireCommand): nat { |ValueOctets(c)| + (if c.priority.Some? then 21 else 19) }

  /** The priority is absent, 0 or 1..16, and the datagram has a BVLL length. */
  predicate Sendable(c: WireCommand) { (c.priority.Some? ==> c.priority.value <= 16) && WriteSize(c) < 0x1_0000 }

  /** The datagram is received whole. */
  predicate Carried(c: WireCommand) { Sendable(c) && WriteSize(c) <= 2048 }

  predicate AllCarried(cs: seq<WireCommand>) { forall i | 0 <= i < |cs| :: Carried(cs[i]) }

  /** A value is properly nested octets that are not themselves a NULL. */
  ghost predicate ValidCommand(c: WireCommand) {
    && Sendable(c)
    && (c.value.Some? ==> Balanced(c.value.value) && ApplicationTag(c.value.value) != Ok(Some(0)))
  }

  ghost predicate ValidCommands(cs: seq<WireCommand>) { forall i | 0 <= i < |cs| :: ValidCommand(cs[i]) }

  function ValueOctets(c: WireCommand): octets { if c.value.Some? then c.value.value else ApplicationNull() }

  function AsRequest(key: ObjectKey, c: WireCommand): WriteRequest {
    WriteRequest(key, PROPERTY_PRESENT_VALUE, None, ValueOctets(c), c.priority)
  }

  /** The slot the command is for: the one its priority names, and the last without a priority or
      with priority 0. */
  predicate ForSlot(c: WireCommand, p: int) { c.priority == Some(p) || (p == 16 && c.priority in {None, Some(0)}) }

  /** What the command says, in the terms of clause 19.2. */
  function Meant(c: WireCommand): Command<octets> {
    var priority := if c.priority.Some? then c.priority.value else 16;
    if c.value.Some? then Write(priority, c.value.value) else Relinquish(priority)
  }

  /** What the server makes of a WriteProperty is what it says. */
  lemma MeantIsDone(key: ObjectKey, c: WireCommand, slots: seq<Option<octets>>)
    requires |slots| == 16 && (c.priority.Some? ==> c.priority.value <= 16)
    ensures Apply(slots, CommandOf(AsRequest(key, c), c.value.None?)) == Apply(slots, Meant(c))
    ensures forall p | 1 <= p <= 16 :: Apply(slots, Meant(c))[p - 1] == if ForSlot(c, p) then c.value else slots[p - 1]
  {
  }

  function WriteDatagram(key: ObjectKey, c: WireCommand): octets
    requires key.InRange() && Sendable(c)
  {
    RequestSize(key, c);
    var apdu := WritePropertyRequest(c.invokeId, key, PROPERTY_PRESENT_VALUE, ValueOctets(c), c.priority, None);
    ApduFrame(None, true, apdu)
  }

  lemma OneOctet(v: byte)
    ensures |UnsignedOctets(v)| == 1
  {
    UnsignedOctetsShortest(v, [v]);
  }

  lemma RequestSize(key: ObjectKey, c: WireCommand)
    requires key.InRange() && (c.priority.Some? ==> c.priority.value <= 16)
    ensures WriteSize(c) ==
            6 + |WritePropertyRequest(c.invokeId, key, PROPERTY_PRESENT_VALUE, ValueOctets(c), c.priority, None)|
  {
    hide UnsignedOctets, ObjectId;
    TaggedSize(0, true, ObjectId(key));
    OneOctet(PROPERTY_PRESENT_VALUE);
    TaggedSize(1, true, UnsignedOctets(PROPERTY_PRESENT_VALUE));
    if c.priority.Some? {
      OneOctet(c.priority.value);
      TaggedSize(4, true, UnsignedOctets(c.priority.value));
    }
  }

  lemma AckSize(invokeId: byte, key: ObjectKey, value: octets)
    requires key.InRange()
    ensures |ReadPropertyAck(invokeId, key, PROPERTY_PRESENT_VALUE, None, value)| == |value| + 12
  {
    hide UnsignedOctets, ObjectId;
    TaggedSize(0, true, ObjectId(key));
    OneOctet(PROPERTY_PRESENT_VALUE);
    TaggedSize(1, true, UnsignedOctets(PROPERTY_PRESENT_VALUE));
  }

  lemma TaggedLimit(number: nat, isContext: bool, body: octets)
    requires number < 15 && |body| < 256
    ensures |Tagged(number, isContext, body)| <= |body| + 2
  {
  }

  lemma TaggedSize(number: nat, isContext: bool, body: octets)
    requires number < 15 && |body| <= 4
    ensures |Tagged(number, isContext, body)| == |body| + 1
  {
  }

  /** Balanced octets always have a readable first tag. */
  lemma BalancedTag(value: octets)
    requires Balanced(value)
    ensures ApplicationTag(value).Ok?
  {
    hide ReadTag, Whole;
    var f :| WellFormed(f) && Encode(f) == value;
    if !f.Empty? && value != [] {
      AtWhole(value);
      PiecesAt(value, 0, f);
      if f.Leaf? {
        WholeAt(value, 0, f.element, Value);
      } else {
        WholeAt(value, 0, f.opening, Open);
      }
    }
  }

  lemma NullOctets()
    ensures Balanced(ApplicationNull()) && ApplicationTag(ApplicationNull()) == Ok(Some(0))
  {
    hide ReadTag;
    SimpleElements();
    ElementBalanced(ApplicationNull());
    DecodeElement(ApplicationNull(), 0, []);
  }

  lemma CommandIsNull(key: ObjectKey, c: WireCommand)
    requires ValidCommand(c)
    ensures Balanced(ValueOctets(c)) && IsNull(AsRequest(key, c)) == Ok(c.value.None?)
  {
    hide Balanced, ApplicationTag;
    if c.value.Some? {
      BalancedTag(c.value.value);
    } else {
      NullOctets();
    }
  }

  /** The server is online, fails nothing, and lets the Present_Value of `key` be written and read. */
  ghost predicate Ready(s: Peer, key: ObjectKey) {
    && s.Valid() && s.Cached() && s.alive && s.mode.Online? && s.failures == map[] && s.IsCommandable(key)
    && key.InRange()
    && (s.writable.Some? ==> (key, PROPERTY_PRESENT_VALUE) in s.writable.value)
    && (key, PROPERTY_PRESENT_VALUE) !in s.wholeArraysRefused
  }

  /** A server as it is made serves its commandable objects. */
  lemma StartIsReady(deviceInstance: nat, vendor: nat, objectName: octets, objects: map<ObjectKey, map<int, octets>>,
                     writable: Option<set<(ObjectKey, nat)>>, commandable: Option<set<ObjectKey>>, arrayElements: bool,
                     key: ObjectKey)
    requires deviceInstance < 0x40_0000 && vendor < 0x1_0000_0000
    requires commandable.Some? ==>
               forall k <- commandable.value :: k in objects && PROPERTY_PRESENT_VALUE in objects[k]
    requires commandable.Some? && key in commandable.value && key.InRange()
    requires writable.Some? ==> (key, PROPERTY_PRESENT_VALUE) in writable.value
    ensures var s := Start(deviceInstance, vendor, objectName, objects, writable, commandable, arrayElements);
            && Ready(s, key) && s.slots[key] == NoSlots() && s.defaults[key] == objects[key][PROPERTY_PRESENT_VALUE]
            && s.objects == objects && s.log == Log([], [], [], 0, 0)
  {
    hide FirstSet;
    StartIsCached(deviceInstance, vendor, objectName, objects, writable, commandable, arrayElements);
    assert Start(deviceInstance, vendor, objectName, objects, writable, commandable, arrayElements).IsCommandable(key);
  }

  /** One command over the wire is executed as that command, and acknowledged. */
  lemma CommandExecuted(s: Peer, key: ObjectKey, c: WireCommand)
    requires Ready(s, key) && ValidCommand(c) && Carried(c)
    ensures var (t, reply) := ServeDatagram(s, WriteDatagram(key, c));
            && Ready(t, key) && t.defaults == s.defaults && t.slots[key] == Apply(s.slots[key], Meant(c))
            && (forall p | 1 <= p <= 16 ::
                  t.slots[key][p - 1] == if ForSlot(c, p) then c.value else s.slots[key][p - 1])
            && reply.Ok? && reply.value.Some?
            && ApduIn(reply.value.value) == Ok(SimpleAck(c.invokeId, SERVICE_WRITE_PROPERTY))
  {
    hide ServeDatagram, ApduIn, Answer, WritePropertyRequest, FirstSet, Apply, Balanced, ParseWritePropertyRequest,
        IsNull, ApduFrame;
    CommandIsNull(key, c);
    var apdu := WritePropertyRequest(c.invokeId, key, PROPERTY_PRESENT_VALUE, ValueOctets(c), c.priority, None);
    RequestSize(key, c);
    WritePropertyRoundTrip(c.invokeId, key, PROPERTY_PRESENT_VALUE, ValueOctets(c), c.priority, None);
    ServiceOf(c.invokeId, key, c);
    assert Change(s, apdu) == Some((AsRequest(key, c), c.value.None?));
    AnswerChanges(s, apdu);
    AnswerKeepsCache(s, apdu);
    MeantIsDone(key, c, s.slots[key]);
    Transported(s, apdu, SimpleAck(c.invokeId, SERVICE_WRITE_PROPERTY));
  }

  lemma ServiceOf(invokeId: byte, key: ObjectKey, c: WireCommand)
    requires key.InRange() && Encodable(c.priority)
    ensures var apdu := WritePropertyRequest(invokeId, key, PROPERTY_PRESENT_VALUE, ValueOctets(c), c.priority, None);
            ConfirmedService(apdu) == Some(SERVICE_WRITE_PROPERTY) && |apdu| > 3 && apdu[2] == invokeId
  {
    hide ContextObjectId, ContextUnsigned, Bracketed;
  }

  // ---- whole runs ----

  function SendAll(s: Peer, key: ObjectKey, cs: seq<WireCommand>): (t: Peer)
    requires s.Valid() && key.InRange() && AllCarried(cs)
    ensures t.Valid()
  {
    if cs == [] then s else
    ServeDatagram(SendAll(s, key, cs[..|cs| - 1]), WriteDatagram(key, cs[|cs| - 1])).0
  }

  function History(cs: seq<WireCommand>): seq<Command<octets>> {
    seq(|cs|, i requires 0 <= i < |cs| => Meant(cs[i]))
  }

  lemma {:induction false} CommandsExecuted(s: Peer, key: ObjectKey, cs: seq<WireCommand>)
    requires Ready(s, key) && s.slots[key] == NoSlots() && ValidCommands(cs) && AllCarried(cs)
    ensures var t := SendAll(s, key, cs);
            Ready(t, key) && t.defaults == s.defaults && t.slots[key] == Run(NoSlots(), History(cs))
  {
    hide ServeDatagram, Meant, ForSlot, Apply, Carried, WriteDatagram, FirstSet, Balanced, ApplicationTag;
    if cs != [] {
      var k := |cs| - 1;
      CommandsExecuted(s, key, cs[..k]);
      CommandExecuted(SendAll(s, key, cs[..k]), key, cs[k]);
      HistoryStep(cs);
    }
  }

  lemma HistoryStep(cs: seq<WireCommand>)
    requires cs != []
    ensures var k := |cs| - 1;
            Run(NoSlots(), History(cs)) == Apply(Run(NoSlots(), History(cs[..k])), Meant(cs[k]))
  {
    hide Apply, Meant;
    var k := |cs| - 1;
    assert History(cs)[..k] == History(cs[..k]);
  }

  ghost predicate GoodSlots(slots: seq<Option<octets>>) {
    forall i | 0 <= i < |slots| :: slots[i].Some? ==> Balanced(slots[i].value) && |slots[i].value| <= 2030
  }

  lemma {:induction false} GoodRun(cs: seq<WireCommand>)
    requires ValidCommands(cs) && AllCarried(cs)
    ensures GoodSlots(Run(NoSlots(), History(cs)))
  {
    hide Balanced, IsNull, Run, History;
    if cs == [] {
      assert Run(NoSlots<octets>(), History(cs)) == NoSlots() by { EmptyHistory(); }
    } else {
      var k := |cs| - 1;
      GoodRun(cs[..k]);
      HistoryStep(cs);
    }
  }

  lemma EmptyHistory()
    ensures Run(NoSlots(), History([])) == NoSlots()
  {
  }

  lemma {:induction false} GoodFirst(slots: seq<Option<octets>>, default: octets)
    requires GoodSlots(slots) && Balanced(default) && |default| <= 2030
    ensures Balanced(FirstSet(slots, default)) && |FirstSet(slots, default)| <= 2030
  {
    hide Balanced;
    if slots != [] && slots[0].None? {
      GoodFirst(slots[1..], default);
    }
  }

  /** Reading the Present_Value over the wire gives the client exactly the octets served, when the
      datagram of the answer, eighteen octets longer than the value, is received whole. */
  lemma ReadBack(s: Peer, invokeId: byte, key: ObjectKey)
    requires Ready(s, key)
    requires var value := s.objects[key][PROPERTY_PRESENT_VALUE]; Balanced(value) && |value| <= 2030
    ensures var apdu := ReadPropertyRequest(invokeId, key, PROPERTY_PRESENT_VALUE, None);
            && |apdu| <= 2042
            && var (_, reply) := ServeDatagram(s, ApduFrame(None, true, apdu));
            && reply.Ok? && reply.value.Some? && ApduIn(reply.value.value).Ok?
            && ReadPropertyValueFrom(ApduIn(reply.value.value).value, 3) ==
               Ok(Some(s.objects[key][PROPERTY_PRESENT_VALUE]))
  {
    hide ServeDatagram, ApduIn, ReadPropertyRequest, ReadPropertyAck, Balanced, ApduFrame, ReadPropertyValueFrom,
        FirstSet, ParseReadPropertyRequest;
    var value := s.objects[key][PROPERTY_PRESENT_VALUE];
    var apdu := ReadPropertyRequest(invokeId, key, PROPERTY_PRESENT_VALUE, None);
    ReadRequestShape(invokeId, key);
    ReadPropertyRoundTrip(invokeId, key, PROPERTY_PRESENT_VALUE, None);
    var ack := ReadPropertyAck(invokeId, key, PROPERTY_PRESENT_VALUE, None, value);
    assert s.Served(key, PROPERTY_PRESENT_VALUE) == Some(value);
    assert Answer(s, apdu).1 == Answered(ack);
    AckSize(invokeId, key, value);
    ReadPropertyAckRoundTrip(invokeId, key, PROPERTY_PRESENT_VALUE, None, value);
    Transported(s, apdu, ack);
  }

  lemma ReadRequestShape(invokeId: byte, key: ObjectKey)
    requires key.InRange()
    ensures var apdu := ReadPropertyRequest(invokeId, key, PROPERTY_PRESENT_VALUE, None);
            3 < |apdu| <= 20 && apdu[2] == invokeId && ConfirmedService(apdu) == Some(SERVICE_READ_PROPERTY)
  {
    hide UnsignedOctets, ObjectId, Tagged;
    TaggedSize(0, true, ObjectId(key));
    TaggedSize(1, true, UnsignedOctets(PROPERTY_PRESENT_VALUE));
  }

  /** End to end over whole runs: after any sequence of WriteProperty requests and NULLs, at any
      priorities, framed, sent, decoded and executed, a client that reads the Present_Value gets
      exactly the winning command of clause 19.2, or the value at start-up if every slot is NULL. */
  lemma ClientReadsWinner(s: Peer, key: ObjectKey, cs: seq<WireCommand>, invokeId: byte)
    requires Ready(s, key) && s.slots[key] == NoSlots() && ValidCommands(cs) && AllCarried(cs)
    requires Balanced(s.defaults[key]) && |s.defaults[key]| <= 2030
    ensures var apdu := ReadPropertyRequest(invokeId, key, PROPERTY_PRESENT_VALUE, None);
            && |apdu| <= 2042
            && var (_, reply) := ServeDatagram(SendAll(s, key, cs), ApduFrame(None, true, apdu));
            && reply.Ok? && reply.value.Some? && ApduIn(reply.value.value).Ok?
            && var read := ReadPropertyValueFrom(ApduIn(reply.value.value).value, 3);
            && read.Ok? && read.value.Some? && Wins(History(cs), s.defaults[key], read.value.value)
  {
    hide ServeDatagram, ApduIn, ReadPropertyRequest, Balanced, ApduFrame, ReadPropertyValueFrom, FirstSet, Run,
        SendAll, Wins, History, ValidCommands, AllCarried;
    CommandsExecuted(s, key, cs);
    var t := SendAll(s, key, cs);
    GoodRun(cs);
    GoodFirst(t.slots[key], t.defaults[key]);
    assert t.IsCommandable(key);
    ReadBack(t, invokeId, key);
    WinnerOfHistory(History(cs), s.defaults[key], t.objects[key][PROPERTY_PRESENT_VALUE]);
  }

  // ---- arrays ----

  /** What a client reads out of the answer to a request. */
  function ClientReads(s: Peer, apdu: octets): Outcome<Option<octets>>
    requires s.Valid()
  {
    var answer :- Answer(s, apdu).1;
    if answer.None? then Ok(None) else ReadPropertyValueFrom(answer.value, 3)
  }

  /** Reading an array element by element gives its length and each of its elements, and past
      its end Error PROPERTY / INVALID_ARRAY_INDEX. */
  lemma IndexedReads(s: Peer, invokeId: byte, key: ObjectKey, property: nat, parts: seq<octets>, index: nat)
    requires s.Valid() && s.mode.Online? && s.failures == map[] && s.arrayElements && key.InRange()
    requires property < 0x1_0000_0000 && index < 0x1_0000_0000 && |parts| < 0x1_0000_0000
    requires forall i | 0 <= i < |parts| :: Whole(parts[i], Value)
    requires s.Served(key, property) == Some(Join(parts))
    ensures var apdu := ReadPropertyRequest(invokeId, key, property, Some(index));
            && (index == 0 ==> ClientReads(s, apdu) == Ok(Some(ApplicationUnsigned(|parts|))))
            && (1 <= index <= |parts| ==> ClientReads(s, apdu) == Ok(Some(parts[index - 1])))
            && (index <= |parts| ==>
                  var value := if index == 0 then ApplicationUnsigned(|parts|) else parts[index - 1];
                  Answer(s, apdu).1 == Answered(ReadPropertyAck(invokeId, key, property, Some(index), value)))
            && (index > |parts| ==> Answer(s, apdu).1 == ErrorResponse(invokeId, SERVICE_READ_PROPERTY, 2, 42))
  {
    hide ReadPropertyRequest, ReadPropertyAck, Balanced, ReadPropertyValueFrom, ParseReadPropertyRequest, Join,
         ElementsFrom, Whole, ApplicationUnsigned, ErrorPdu;
    var apdu := ReadPropertyRequest(invokeId, key, property, Some(index));
    IndexedRequestShape(invokeId, key, property, index);
    ReadPropertyRoundTrip(invokeId, key, property, Some(index));
    SplitsBack(parts);
    if index == 0 {
      UnsignedBalanced(|parts|);
      ReadPropertyAckRoundTrip(invokeId, key, property, Some(index), ApplicationUnsigned(|parts|));
    } else if index <= |parts| {
      ElementBalanced(parts[index - 1]);
      ReadPropertyAckRoundTrip(invokeId, key, property, Some(index), parts[index - 1]);
    }
  }

  lemma SplitsBack(parts: seq<octets>)
    requires forall i | 0 <= i < |parts| :: Whole(parts[i], Value)
    ensures ElementsFrom(Join(parts), 0) == Ok(parts)
  {
    hide Join, ElementsFrom, ReadTag, At;
    AtWhole(Join(parts));
    SplitFindsElements(Join(parts), 0, parts);
  }

  lemma UnsignedBalanced(v: nat)
    requires v < 0x1_0000_0000
    ensures Balanced(ApplicationUnsigned(v))
  {
    hide ReadTag, Tagged, UnsignedOctets, Balanced;
    TaggedElement(2, false, UnsignedOctets(v));
    ElementBalanced(ApplicationUnsigned(v));
  }

  lemma IndexedRequestShape(invokeId: byte, key: ObjectKey, property: nat, index: nat)
    requires key.InRange() && property < 0x1_0000_0000 && index < 0x1_0000_0000
    ensures var apdu := ReadPropertyRequest(invokeId, key, property, Some(index));
            3 < |apdu| <= 2042 && apdu[2] == invokeId && ConfirmedService(apdu) == Some(SERVICE_READ_PROPERTY)
  {
    hide ContextObjectId, ContextUnsigned;
    ParameterSizes(key, property);
    ParameterSizes(key, index);
  }

  // ---- ReadPropertyMultiple ----

  /** A client that asks a server for any list of distinct objects learns, for every property
      asked and for no other, the octets the server serves, or that it serves none, if and only if
      the values asked for are balanced. */
  lemma MultipleEndToEnd(s: Peer, invokeId: byte, specifications: seq<Multiple.Specification>)
    requires s.Valid() && !s.mode.Offline?
    requires forall i | 0 <= i < |specifications| :: Multiple.ValidSpecification(specifications[i])
    requires Multiple.Distinct(specifications)
    ensures var (t, answer) := Answer(s, Multiple.MultipleRequest(invokeId, specifications));
            && t == s.(log := s.log.(readRequests := s.log.readRequests + [(14, specifications)]))
            && answer.Ok? && answer.value.Some?
            && var learned := Multiple.ParseMultipleAck(answer.value.value);
            && (&& learned.Ok? && learned.value.Some?
                && Multiple.Complete(learned.value.value, specifications, ServedBy(s))
                <==> Multiple.AskedBalanced(specifications, ServedBy(s)))
  {
    hide Multiple.ParseSpecifications, Multiple.SpecificationsOctets, Multiple.MultipleAckReply,
         Multiple.ParseMultipleAck, Multiple.Complete, Multiple.AskedBalanced, Multiple.ValidSpecification, Slice;
    Multiple.RequestIsUnderstood(invokeId, specifications);
    Multiple.MultipleRoundTrip(invokeId, specifications, ServedBy(s));
  }

  // ---- Who-Is ----

  function WhoIsRequest(limits: Option<(nat, nat)>): octets
    requires limits.Some? ==> limits.value.0 < 0x1_0000_0000 && limits.value.1 < 0x1_0000_0000
  {
    [0x10, 8] + (if limits.Some? then ContextUnsigned(0, limits.value.0) + ContextUnsigned(1, limits.value.1) else [])
  }

  /** i_am_device_instance */
  function IAmDeviceInstance(apdu: octets): Outcome<Option<nat>> {
    if |apdu| < 7 || apdu[0] / 16 != 1 || apdu[1] != 0 then Ok(None) else
    var tag :- ReadTag(apdu, 2);
    if tag.isContext || tag.number != 12 || |tag.body| != 4 then Ok(None) else
    var key := KeyOf(FromBytes(tag.body));
    Ok(if key.objectType == OBJECT_TYPE_DEVICE then Some(key.instance) else None)
  }

  lemma LimitsOf(limits: (nat, nat))
    requires limits.0 < 0x1_0000_0000 && limits.1 < 0x1_0000_0000
    ensures Limits(ContextUnsigned(0, limits.0) + ContextUnsigned(1, limits.1), 0) == Ok([limits.0, limits.1])
  {
    hide ReadTag, ContextUnsigned, At, UnsignedOctets, FromBytes;
    var a, b := ContextUnsigned(0, limits.0), ContextUnsigned(1, limits.1);
    var data := a + b;
    AtWhole(data);
    AtSplit(data, 0, a, b);
    ContextUnsignedAt(data, 0, 0, limits.0);
    ContextUnsignedAt(data, |a|, 1, limits.1);
    assert Limits(data, |data|) == Ok([]);
    assert [limits.1] + [] == [limits.1];
    assert Limits(data, |a|) == Ok([limits.1]);
    assert [limits.0] + [limits.1] == [limits.0, limits.1];
  }

  /** The values among the tags of a Who-Is, as numbers. */
  function NumbersIn(parts: seq<octets>): seq<nat>
    requires forall i | 0 <= i < |parts| :: OneTag(parts[i])
  {
    if parts == [] then [] else
    assert OneTag(parts[0]) && forall i | 0 <= i < |parts| - 1 :: parts[1..][i] == parts[i + 1];
    var tag := ReadTag(parts[0], 0).value;
    (if tag.kind == Value then [FromBytes(tag.body)] else []) + NumbersIn(parts[1..])
  }

  /** Whatever whole tags a Who-Is holds, its limits are the values among them, in order. */
  lemma {:induction false} LimitsAreValues(data: octets, position: nat, parts: seq<octets>)
    requires forall i | 0 <= i < |parts| :: OneTag(parts[i])
    requires At(data, position, Join(parts)) && position + |Join(parts)| == |data|
    ensures Limits(data, position) == Ok(NumbersIn(parts))
    decreases |parts|
  {
    hide ReadTag, At, FromBytes, Limits;
    if parts == [] {
      LimitsEnd(data);
    } else {
      var e := parts[0];
      var tag := ReadTag(e, 0).value;
      AtSplit(data, position, e, Join(parts[1..]));
      ElementAt(data, position, e, tag.number, tag.isContext, tag.kind, tag.body);
      LimitsAreValues(data, position + |e|, parts[1..]);
      LimitsStep(data, position, ReadTag(data, position).value);
      assert [] + NumbersIn(parts[1..]) == NumbersIn(parts[1..]);
    }
  }

  lemma LimitsEnd(data: octets)
    ensures Limits(data, |data|) == Ok([])
  {
  }

  lemma LimitsStep(data: octets, position: nat, tag: Tag)
    requires ReadTag(data, position) == Ok(tag) && Limits(data, tag.next).Ok?
    ensures Limits(data, position) ==
            Ok((if tag.kind == Value then [FromBytes(tag.body)] else []) + Limits(data, tag.next).value)
  {
    hide ReadTag, FromBytes;
    assert [] + Limits(data, tag.next).value == Limits(data, tag.next).value;
  }

  /** Who-Is is answered exactly when the instance is within its limits, or it has none; the
      answer is an I-Am that carries this device's instance. */
  lemma WhoIsAnswered(s: Peer, limits: Option<(nat, nat)>)
    requires s.Valid() && !s.mode.Offline?
    requires limits.Some? ==> limits.value.0 < 0x1_0000_0000 && limits.value.1 < 0x1_0000_0000
    ensures var (t, answer) := Answer(s, WhoIsRequest(limits));
            && t == s
            && (if limits.None? || limits.value.0 <= s.deviceInstance <= limits.value.1
                then && answer.Ok? && answer.value.Some? && Fits(answer)
                     && IAmDeviceInstance(answer.value.value) == Ok(Some(s.deviceInstance))
                else answer == Ok(None))
  {
    hide Limits, ContextUnsigned, IAm, IAmDeviceInstance;
    var apdu := WhoIsRequest(limits);
    assert Slice(apdu, 2, |apdu|) == apdu[2..];
    if limits.Some? {
      assert apdu[2..] == ContextUnsigned(0, limits.value.0) + ContextUnsigned(1, limits.value.1);
      LimitsOf(limits.value);
    } else {
      assert apdu[2..] == [];
      NoLimits();
    }
    IAmSays(s.deviceInstance, s.vendor);
  }

  /** An I-Am that does not begin with an application-tagged object identifier gives none. */
  lemma IAmOfOther(e: octets, number: byte, isContext: bool, kind: Kind, body: octets, rest: octets)
    requires Element(e, number, isContext, kind, body) && (isContext || number != 12 || |body| != 4)
    ensures IAmDeviceInstance([0x10, 0] + (e + rest)) == Ok(None)
  {
    hide ReadTag, FromBytes, At;
    var apdu := [0x10, 0] + (e + rest);
    AtTail([0x10, 0], e + rest);
    AtSplit(apdu, 2, e, rest);
    ElementAt(apdu, 2, e, number, isContext, kind, body);
  }

  /** An I-Am of any object gives the client an instance exactly if the object is a Device. */
  lemma IAmOfObject(key: ObjectKey, rest: octets)
    requires key.InRange()
    ensures IAmDeviceInstance([0x10, 0] + (ApplicationObjectId(key) + rest)) ==
            Ok(if key.objectType == 8 then Some(key.instance) else None)
  {
    hide ReadTag, Tagged, ObjectId, FromBytes, At;
    var a := ApplicationObjectId(key);
    var apdu := [0x10, 0] + (a + rest);
    AtTail([0x10, 0], a + rest);
    AtSplit(apdu, 2, a, rest);
    TaggedElement(12, false, ObjectId(key));
    TaggedSize(12, false, ObjectId(key));
    ElementAt(apdu, 2, a, 12, false, Value, ObjectId(key));
  }

  lemma NoLimits()
    ensures Limits([], 0) == Ok([])
  {
  }

  lemma IAmSays(deviceInstance: nat, vendor: nat)
    requires deviceInstance < 0x40_0000 && vendor < 0x1_0000_0000
    ensures IAmDeviceInstance(IAm(deviceInstance, vendor)) == Ok(Some(deviceInstance))
    ensures |IAm(deviceInstance, vendor)| <= 2042
  {
    hide ReadTag, Tagged, ObjectId, UnsignedOctets, FromBytes, At;
    var key := ObjectKey(OBJECT_TYPE_DEVICE, deviceInstance);
    var a := ApplicationObjectId(key);
    var apdu := IAm(deviceInstance, vendor);
    var rest := ApplicationUnsigned(1476) + ApplicationEnumerated(3) + ApplicationUnsigned(vendor);
    assert apdu == [0x10, 0] + (a + rest);
    AtTail([0x10, 0], a + rest);
    AtSplit(apdu, 2, a, rest);
    TaggedElement(12, false, ObjectId(key));
    TaggedSize(12, false, ObjectId(key));
    TaggedSize(2, false, UnsignedOctets(1476));
    TaggedSize(9, false, UnsignedOctets(3));
    TaggedSize(2, false, UnsignedOctets(vendor));
    ElementAt(apdu, 2, a, 12, false, Value, ObjectId(key));
  }

  /** Everything an I-Am announces: the Device, maximum APDU length 1476, no segmentation (3) and the
      vendor. */
  lemma IAmHolds(deviceInstance: nat, vendor: nat)
    requires deviceInstance < 0x40_0000 && vendor < 0x1_0000_0000
    ensures var apdu := IAm(deviceInstance, vendor);
            && |apdu| > 2 && apdu[..2] == [0x10, 0]
            && ApplicationValues(apdu[2..], 0) ==
               Ok([(12, ObjectId(ObjectKey(8, deviceInstance))), (2, UnsignedOctets(1476)), (9, UnsignedOctets(3)),
                   (2, UnsignedOctets(vendor))])
  {
    hide ReadTag, Tagged, ObjectId, UnsignedOctets, FromBytes, At, ApplicationValues;
    var key := ObjectKey(8, deviceInstance);
    var d: seq<(byte, octets)> := [(2, UnsignedOctets(vendor))];
    var c: seq<(byte, octets)> := [(9, UnsignedOctets(3))] + d;
    var b: seq<(byte, octets)> := [(2, UnsignedOctets(1476))] + c;
    var items: seq<(byte, octets)> := [(12, ObjectId(key))] + b;
    assert items[1..] == b && b[1..] == c && c[1..] == d && |d[1..]| == 0;
    TaggedSize(12, false, ObjectId(key));
    var data := TaggedValues(items);
    assert TaggedValues(d) == ApplicationUnsigned(vendor);
    assert TaggedValues(c) == ApplicationEnumerated(3) + ApplicationUnsigned(vendor);
    assert TaggedValues(b) == ApplicationUnsigned(1476) + TaggedValues(c);
    var apdu := IAm(deviceInstance, vendor);
    assert apdu == [0x10, 0] + data;
    assert apdu[2..] == data;
    AtWhole(data);
    ValuesAt(data, 0, items);
    assert items == [(12, ObjectId(key)), (2, UnsignedOctets(1476)), (9, UnsignedOctets(3)),
                     (2, UnsignedOctets(vendor))];
  }

  // ---- errors ----

  /** Answer.error: the class and code of an Error PDU. */
  function ErrorClassAndCode(apdu: octets): Outcome<Option<(nat, nat)>> {
    var values :- ApplicationValues(Slice(apdu, 3, |apdu|), 0);
    Ok(if |values| < 2 then None else Some((FromBytes(values[0].1), FromBytes(values[1].1))))
  }

  lemma ErrorPduRoundTrip(invokeId: byte, service: byte, errorClass: nat, errorCode: nat)
    requires errorClass < 0x1_0000_0000 && errorCode < 0x1_0000_0000
    ensures ErrorClassAndCode(ErrorPdu(invokeId, service, errorClass, errorCode)) == Ok(Some((errorClass, errorCode)))
  {
    hide ApplicationValues, ErrorOctets, UnsignedOctets, FromBytes, Balanced;
    var apdu := ErrorPdu(invokeId, service, errorClass, errorCode);
    assert Slice(apdu, 3, |apdu|) == ErrorOctets(errorClass, errorCode);
    ErrorValues(errorClass, errorCode);
  }

  lemma ErrorSize(errorClass: nat, errorCode: nat)
    requires errorClass < 0x1_0000_0000 && errorCode < 0x1_0000_0000
    ensures |ErrorOctets(errorClass, errorCode)| <= 10
  {
    hide UnsignedOctets;
    TaggedSize(9, false, UnsignedOctets(errorClass));
    TaggedSize(9, false, UnsignedOctets(errorCode));
  }

  /** What a client learns from the answer to a WriteProperty. */
  datatype WriteOutcome = Done | NotDone(errorClass: nat, errorCode: nat)

  ghost predicate ClientLearns(answer: Response, invokeId: byte, outcome: WriteOutcome) {
    && answer.Ok? && answer.value.Some? && |answer.value.value| > 2 && answer.value.value[1] == invokeId
    && match outcome
       case Done => answer.value.value[0] == 0x20
       case NotDone(c, k) => answer.value.value[0] == 0x50 && ErrorClassAndCode(answer.value.value) == Ok(Some((c, k)))
  }

  /** The answer to every WriteProperty a server in service gets: OBJECT / UNKNOWN_OBJECT for an
      unlisted object; PROPERTY / WRITE_ACCESS_DENIED while refusing, and for what is not
      writable; otherwise a SimpleACK, also for a NULL to a listed property that is not commanded,
      which a server with commandable objects ignores. */
  function OutcomeOf(s: Peer, r: WriteRequest, isNull: bool): WriteOutcome {
    var writable := if s.writable.None? then s.Served(r.key, r.property).Some?
        else (r.key, r.property) in s.writable.value;
    var ignored := s.commandable.Some? && isNull && !IsCommand(s, r) && s.mode.Online?
        && s.Served(r.key, r.property).Some?;
    if r.key !in s.objects then NotDone(1, 31)
    else if ignored || (!s.mode.Refusing? && writable) then Done
    else NotDone(2, 40)
  }

  lemma WriteIsAnswered(s: Peer, invokeId: byte, r: WriteRequest)
    requires s.Valid() && !s.mode.Offline? && s.failures == map[] && r.key.InRange() && r.property < 0x1_0000_0000
    requires Encodable(r.index) && (r.priority.Some? ==> r.priority.value <= 16) && Balanced(r.value)
    ensures var apdu := WritePropertyRequest(invokeId, r.key, r.property, r.value, r.priority, r.index);
            && IsNull(r).Ok?
            && Fits(Answer(s, apdu).1) && ClientLearns(Answer(s, apdu).1, invokeId, OutcomeOf(s, r, IsNull(r).value))
  {
    hide WritePropertyRequest, Balanced, ApplicationTag, ErrorClassAndCode, Answer, WriteProperty;
    var apdu := WritePropertyRequest(invokeId, r.key, r.property, r.value, r.priority, r.index);
    BalancedTag(r.value);
    var noted := s.(log := s.log.(writeRequests := s.log.writeRequests + [r]));
    WriteIsServed(s, noted, invokeId, r);
    WrittenAnswer(noted, invokeId, r);
  }

  /** An encoded write reaches the write it encodes, and is recorded. */
  lemma WriteIsServed(s: Peer, noted: Peer, invokeId: byte, r: WriteRequest)
    requires noted.Valid() && noted == s.(log := s.log.(writeRequests := s.log.writeRequests + [r]))
    requires s.Valid() && !s.mode.Offline? && s.failures == map[] && r.key.InRange() && r.property < 0x1_0000_0000
    requires Encodable(r.index) && Encodable(r.priority) && Balanced(r.value)
    ensures Answer(s, WritePropertyRequest(invokeId, r.key, r.property, r.value, r.priority, r.index)) ==
            WriteProperty(noted, invokeId, r)
  {
    hide WritePropertyRequest, ParseWritePropertyRequest, Balanced, WriteProperty;
    WritePropertyRoundTrip(invokeId, r.key, r.property, r.value, r.priority, r.index);
    WriteShape(invokeId, r);
  }

  lemma WriteShape(invokeId: byte, r: WriteRequest)
    requires r.key.InRange() && r.property < 0x1_0000_0000 && Encodable(r.index) && Encodable(r.priority)
    ensures var apdu := WritePropertyRequest(invokeId, r.key, r.property, r.value, r.priority, r.index);
            ConfirmedService(apdu) == Some(SERVICE_WRITE_PROPERTY) && |apdu| > 3 && apdu[2] == invokeId
  {
    hide ContextObjectId, ContextUnsigned, Bracketed;
  }

  lemma WrittenAnswer(s: Peer, invokeId: byte, r: WriteRequest)
    requires s.Valid() && !s.mode.Offline? && IsNull(r).Ok? && WritePriority(r) <= 16
    ensures ClientLearns(WriteProperty(s, invokeId, r).1, invokeId, OutcomeOf(s, r, IsNull(r).value))
    ensures Fits(WriteProperty(s, invokeId, r).1)
  {
    hide IsNull, ErrorClassAndCode, ErrorOctets, Apply, FirstSet;
    ErrorPduRoundTrip(invokeId, SERVICE_WRITE_PROPERTY, 1, 31);
    ErrorPduRoundTrip(invokeId, SERVICE_WRITE_PROPERTY, 2, 40);
    ErrorSize(1, 31);
    ErrorSize(2, 40);
  }

  /** Reading a property that is not listed, of a listed object, is Error PROPERTY / UNKNOWN_PROPERTY;
      of an object that is neither listed nor the Device, Error OBJECT / UNKNOWN_OBJECT. */
  lemma UnknownReads(s: Peer, invokeId: byte, key: ObjectKey, property: nat)
    requires s.Valid() && !s.mode.Offline? && s.failures == map[] && key.InRange() && property < 0x1_0000_0000
    requires s.Served(key, property).None? && (key, property) !in s.wholeArraysRefused
    requires key in s.objects || key.objectType != OBJECT_TYPE_DEVICE
    ensures var answer := Answer(s, ReadPropertyRequest(invokeId, key, property, None)).1;
            && answer.Ok? && answer.value.Some? && Fits(answer)
            && ErrorClassAndCode(answer.value.value) == Ok(Some(if key in s.objects then (2, 32) else (1, 31)))
  {
    hide ReadPropertyRequest, ErrorClassAndCode, ErrorOctets, ParseReadPropertyRequest, ParseTarget;
    var apdu := ReadPropertyRequest(invokeId, key, property, None);
    PlainRequestShape(invokeId, key, property);
    ReadPropertyRoundTrip(invokeId, key, property, None);
    ErrorPduRoundTrip(invokeId, SERVICE_READ_PROPERTY, 2, 32);
    ErrorPduRoundTrip(invokeId, SERVICE_READ_PROPERTY, 1, 31);
    ErrorSize(2, 32);
    ErrorSize(1, 31);
  }

  /** Any other property of the Device is unknown. */
  lemma DeviceUnknown(s: Peer, invokeId: byte, instance: nat, property: nat)
    requires s.Valid() && !s.mode.Offline? && s.failures == map[] && instance in {s.deviceInstance, MAX_INSTANCE}
    requires ObjectKey(OBJECT_TYPE_DEVICE, instance) !in s.objects && property < 0x1_0000_0000
    requires property !in {PROPERTY_OBJECT_IDENTIFIER, PROPERTY_OBJECT_NAME}
    ensures var key := ObjectKey(OBJECT_TYPE_DEVICE, instance);
            var (t, answer) := Answer(s, ReadPropertyRequest(invokeId, key, property, None));
            && t == s && answer.Ok? && answer.value.Some? && ErrorClassAndCode(answer.value.value) == Ok(Some((2, 32)))
  {
    hide ReadPropertyRequest, ErrorClassAndCode, ErrorOctets, ParseReadPropertyRequest, ParseTarget;
    var key := ObjectKey(OBJECT_TYPE_DEVICE, instance);
    PlainRequestShape(invokeId, key, property);
    ReadPropertyRoundTrip(invokeId, key, property, None);
    ErrorPduRoundTrip(invokeId, SERVICE_READ_PROPERTY, 2, 32);
  }

  lemma PlainRequestShape(invokeId: byte, key: ObjectKey, property: nat)
    requires key.InRange() && property < 0x1_0000_0000
    ensures var apdu := ReadPropertyRequest(invokeId, key, property, None);
            && 3 < |apdu| <= 2042 && apdu[2] == invokeId && ConfirmedService(apdu) == Some(SERVICE_READ_PROPERTY)
            && ParseTarget(apdu, 4).Ok? && ParseTarget(apdu, 4).value.key == key
            && ParseTarget(apdu, 4).value.property == property
  {
    hide ContextObjectId, ContextUnsigned, ParseTarget, At;
    var apdu := ReadPropertyRequest(invokeId, key, property, None);
    AtTail([0x00, 0x05, invokeId, SERVICE_READ_PROPERTY],
        ContextObjectId(0, key) + (ContextUnsigned(1, property) + []));
    TargetAt(apdu, 4, key, property, []);
    ParameterSizes(key, property);
  }

  lemma ParameterSizes(key: ObjectKey, v: nat)
    requires key.InRange() && v < 0x1_0000_0000
    ensures |ContextObjectId(0, key)| == 5
    ensures |ContextUnsigned(1, v)| <= 5 && |ContextUnsigned(2, v)| <= 5
  {
    hide UnsignedOctets, ObjectId;
    TaggedSize(0, true, ObjectId(key));
    TaggedSize(1, true, UnsignedOctets(v));
    TaggedSize(2, true, UnsignedOctets(v));
  }

  /** The Device object of the peer: its Object_Identifier and its Object_Name, a name of
      at most 252 octets, are read back. */
  lemma DeviceReads(s: Peer, invokeId: byte, instance: nat)
    requires s.Valid() && !s.mode.Offline? && s.failures == map[] && instance in {s.deviceInstance, MAX_INSTANCE}
    requires ObjectKey(OBJECT_TYPE_DEVICE, instance) !in s.objects && |s.objectName| <= 252
    ensures var key := ObjectKey(OBJECT_TYPE_DEVICE, instance);
            var identifier := ClientReads(s, ReadPropertyRequest(invokeId, key, PROPERTY_OBJECT_IDENTIFIER, None));
            var name := ClientReads(s, ReadPropertyRequest(invokeId, key, PROPERTY_OBJECT_NAME, None));
            && identifier.Ok? && identifier.value.Some?
            && DecodeApplication(identifier.value.value) == Ok(Object(ObjectKey(OBJECT_TYPE_DEVICE, s.deviceInstance)))
            && name.Ok? && name.value.Some? && DecodeApplication(name.value.value) == Ok(Text(s.objectName))
            && Fits(Answer(s, ReadPropertyRequest(invokeId, key, PROPERTY_OBJECT_IDENTIFIER, None)).1)
            && Fits(Answer(s, ReadPropertyRequest(invokeId, key, PROPERTY_OBJECT_NAME, None)).1)
  {
    hide ReadPropertyRequest, ReadPropertyAck, ReadPropertyValueFrom, ParseReadPropertyRequest, ParseTarget,
         DecodeApplication, Balanced, Tagged, ObjectId, ReadTag;
    var key, me := ObjectKey(OBJECT_TYPE_DEVICE, instance), ObjectKey(OBJECT_TYPE_DEVICE, s.deviceInstance);
    var name := [0] + s.objectName;
    TaggedElement(12, false, ObjectId(me));
    TaggedElement(7, false, name);
    ElementBalanced(ApplicationObjectId(me));
    ElementBalanced(Tagged(7, false, name));
    TaggedLimit(12, false, ObjectId(me));
    TaggedLimit(7, false, name);
    CharacterStringRoundTrip(s.objectName);
    DecodeElement(ApplicationObjectId(me), 12, ObjectId(me));
    DeviceRead(s, invokeId, key, PROPERTY_OBJECT_IDENTIFIER, ApplicationObjectId(me));
    DeviceRead(s, invokeId, key, PROPERTY_OBJECT_NAME, Tagged(7, false, name));
  }

  lemma DeviceRead(s: Peer, invokeId: byte, key: ObjectKey, property: nat, value: octets)
    requires s.Valid() && !s.mode.Offline? && s.failures == map[] && key.objectType == OBJECT_TYPE_DEVICE
    requires key.instance in {s.deviceInstance, MAX_INSTANCE} && key !in s.objects && Balanced(value)
    requires property in {PROPERTY_OBJECT_IDENTIFIER, PROPERTY_OBJECT_NAME}
    requires property == PROPERTY_OBJECT_NAME ==> ApplicationCharacterString(s.objectName) == Ok(value)
    requires property == PROPERTY_OBJECT_IDENTIFIER ==>
               value == ApplicationObjectId(ObjectKey(OBJECT_TYPE_DEVICE, s.deviceInstance))
    requires |value| <= 1000
    ensures ClientReads(s, ReadPropertyRequest(invokeId, key, property, None)) == Ok(Some(value))
    ensures Fits(Answer(s, ReadPropertyRequest(invokeId, key, property, None)).1)
  {
    hide ReadPropertyRequest, ReadPropertyAck, ReadPropertyValueFrom, ParseReadPropertyRequest, ParseTarget, Balanced,
         ApplicationCharacterString, ApplicationObjectId;
    var apdu := ReadPropertyRequest(invokeId, key, property, None);
    PlainRequestShape(invokeId, key, property);
    ReadPropertyRoundTrip(invokeId, key, property, None);
    var me := ObjectKey(OBJECT_TYPE_DEVICE, s.deviceInstance);
    ReadPropertyAckRoundTrip(invokeId, me, property, None, value);
    DeviceAckSize(invokeId, me, property, value);
    assert Answer(s, apdu).1 == Answered(ReadPropertyAck(invokeId, me, property, None, value));
  }

  lemma DeviceAckSize(invokeId: byte, key: ObjectKey, property: nat, value: octets)
    requires key.InRange() && property < 0x1_0000_0000
    ensures |ReadPropertyAck(invokeId, key, property, None, value)| <= |value| + 15
  {
    hide ContextObjectId, ContextUnsigned;
    ParameterSizes(key, property);
  }
}
