/** Event notifications (clauses 13.8 and 13.9 of ANSI/ASHRAE 135-2024): the builder a peer uses
    and the decoder of a recipient. */
module Alarms {
  import opened Octets
  import opened Tags
  import opened Forests
  import opened Values
  import opened Elements
  import opened Requests

  const SERVICE_CONFIRMED_EVENT_NOTIFICATION: byte := 2
  const SERVICE_UNCONFIRMED_EVENT_NOTIFICATION: byte := 3
  const NOTIFY_TYPE_ACK_NOTIFICATION := 2
  const EVENT_TYPE_OUT_OF_RANGE := 5

  // ---- decoding ----

  datatype Notification = Notification(
    processIdentifier: Option<nat>, initiatingDevice: Option<ObjectKey>, eventObject: Option<ObjectKey>,
    timeStamp: Option<(octets, octets)>, notificationClass: Option<nat>, priority: Option<nat>, eventType: Option<nat>,
    notifyType: Option<nat>, ackRequired: Option<bool>, fromState: Option<nat>, toState: Option<nat>)

  const BLANK := Notification(None, None, None, None, None, None, None, None, None, None, None)

  /** A context-tagged value at the top level of the parameters. */
  function TakeField(n: Notification, number: byte, body: octets): Outcome<Notification> {
    var integer := FromBytes(body);
    if number == 0 then Ok(n.(processIdentifier := Some(integer)))
    else if number == 1 then
      var raw :- Unpack(body, 4);
      Ok(n.(initiatingDevice := Some(KeyOf(raw))))
    else if number == 2 then
      var raw :- Unpack(body, 4);
      Ok(n.(eventObject := Some(KeyOf(raw))))
    else if number == 4 then Ok(n.(notificationClass := Some(integer)))
    else if number == 5 then Ok(n.(priority := Some(integer)))
    else if number == 6 then Ok(n.(eventType := Some(integer)))
    else if number == 8 then Ok(n.(notifyType := Some(integer)))
    else if number == 9 then Ok(n.(ackRequired := Some(integer != 0)))
    else if number == 10 then Ok(n.(fromState := Some(integer)))
    else if number == 11 then Ok(n.(toState := Some(integer)))
    else Ok(n)
  }

  /** read_time_stamp_choice: the date and time of the dateTime form, and the position after it. */
  function ReadTimeStampChoice(d: octets, position: nat): (r: Outcome<(Option<(octets, octets)>, nat)>)
    ensures r.Ok? ==> r.value.1 > position
  {
    var tag :- ReadTag(d, position);
    if tag.kind == Open && tag.number == 2 then
      var date :- ReadTag(d, tag.next);
      var time :- ReadTag(d, date.next);
      var close :- ReadTag(d, time.next);
      Ok((Some((date.body, time.body)), close.next))
    else if tag.kind == Open then
      var span :- Descend(d, tag.next);
      Ok((None, span.next))
    else Ok((None, tag.next))
  }

  /** One turn of the loop on a tag that has been read: the new fields and position. */
  function TakeTag(d: octets, n: Notification, tag: Tag): (r: Outcome<(Notification, nat)>)
    ensures r.Ok? ==> r.value.1 >= tag.next
  {
    if tag.kind == Open && tag.number == 3 then
      var (stamp, after) :- ReadTimeStampChoice(d, tag.next);
      var close :- ReadTag(d, after);
      Ok((n.(timeStamp := stamp), close.next))
    else if tag.kind == Open then
      var span :- Descend(d, tag.next);
      Ok((n, span.next))
    else if tag.kind != Value || !tag.isContext then Ok((n, tag.next))
    else
      var m :- TakeField(n, tag.number, tag.body);
      Ok((m, tag.next))
  }

  function DecodeFrom(d: octets, position: nat, n: Notification): Outcome<Notification>
    decreases |d| - position
  {
    if position >= |d| then Ok(n) else
    var tag :- ReadTag(d, position);
    var (m, next) :- TakeTag(d, n, tag);
    DecodeFrom(d, next, m)
  }

  /** EventNotification.__init__ on the service parameters. */
  method DecodeParameters(d: octets) returns (r: Outcome<Notification>)
    ensures r == DecodeFrom(d, 0, BLANK)
  {
    hide ReadTag, TakeTag;
    var n := BLANK;
    var position := 0;
    while position < |d|
      invariant DecodeFrom(d, 0, BLANK) == DecodeFrom(d, position, n)
      decreases |d| - position
    {
      var tag := ReadTag(d, position);
      if tag.Raise? {
        return Raise(tag.error);
      }
      var taken := Take(d, n, tag.value);
      if taken.Raise? {
        return Raise(taken.error);
      }
      n, position := taken.value.0, taken.value.1;
    }
    r := Ok(n);
  }

  /** The body of that loop, with the depth loop over a constructed parameter. */
  method Take(d: octets, n: Notification, tag: Tag) returns (r: Outcome<(Notification, nat)>)
    ensures r == TakeTag(d, n, tag)
  {
    hide ReadTag, Descend, TakeField, ReadTimeStampChoice;
    if tag.kind == Open && tag.number == 3 {
      var stamp := TimeStampChoice(d, tag.next);
      if stamp.Raise? {
        return Raise(stamp.error);
      }
      var close := ReadTag(d, stamp.value.1);
      if close.Raise? {
        return Raise(close.error);
      }
      return Ok((n.(timeStamp := stamp.value.0), close.value.next));
    }
    if tag.kind == Open {
      var end := ConstructedEnd(d, tag.next);
      return if end.Ok? then Ok((n, end.value)) else Raise(end.error);
    }
    if tag.kind != Value || !tag.isContext {
      return Ok((n, tag.next));
    }
    var m := TakeField(n, tag.number, tag.body);
    return if m.Ok? then Ok((m.value, tag.next)) else Raise(m.error);
  }

  /** read_time_stamp_choice with the depth loop over any other choice. */
  method TimeStampChoice(d: octets, position: nat) returns (r: Outcome<(Option<(octets, octets)>, nat)>)
    ensures r == ReadTimeStampChoice(d, position)
  {
    hide ReadTag, Descend;
    var tag := ReadTag(d, position);
    if tag.Raise? {
      return Raise(tag.error);
    }
    if tag.value.kind == Open && tag.value.number == 2 {
      var date := ReadTag(d, tag.value.next);
      if date.Raise? {
        return Raise(date.error);
      }
      var time := ReadTag(d, date.value.next);
      if time.Raise? {
        return Raise(time.error);
      }
      var close := ReadTag(d, time.value.next);
      if close.Raise? {
        return Raise(close.error);
      }
      return Ok((Some((date.value.body, time.value.body)), close.value.next));
    }
    if tag.value.kind == Open {
      var end := ConstructedEnd(d, tag.value.next);
      return if end.Ok? then Ok((None, end.value)) else Raise(end.error);
    }
    return Ok((None, tag.value.next));
  }

  /** Whether it is confirmed, its invoke id, and its fields. */
  datatype Decoded = Decoded(confirmed: bool, invokeId: Option<byte>, notification: Notification)

  function DecodeNotification(apdu: octets): Outcome<Decoded>
    requires apdu != []
  {
    var confirmed := apdu[0] / 16 == 0;
    var n :- DecodeFrom(Slice(apdu, if confirmed then 4 else 2, |apdu|), 0, BLANK);
    Ok(Decoded(confirmed, if confirmed && |apdu| > 2 then Some(apdu[2]) else None, n))
  }

  /** What each context-tagged value of a notification means: two object identifiers, which must have
      four octets, and numbers; any number but 0 requires an acknowledgement. */
  lemma FieldMeans(n: Notification, body: octets, other: byte)
    requires other !in {0, 1, 2, 4, 5, 6, 8, 9, 10, 11}
    ensures var v := FromBytes(body);
            && TakeField(n, 0, body) == Ok(n.(processIdentifier := Some(v)))
            && TakeField(n, 4, body) == Ok(n.(notificationClass := Some(v)))
            && TakeField(n, 5, body) == Ok(n.(priority := Some(v)))
            && TakeField(n, 6, body) == Ok(n.(eventType := Some(v)))
            && TakeField(n, 8, body) == Ok(n.(notifyType := Some(v)))
            && TakeField(n, 9, body) == Ok(n.(ackRequired := Some(v > 0)))
            && TakeField(n, 10, body) == Ok(n.(fromState := Some(v)))
            && TakeField(n, 11, body) == Ok(n.(toState := Some(v)))
            && TakeField(n, other, body) == Ok(n)
    ensures |body| != 4 ==> TakeField(n, 1, body) == Raise(StructError) && TakeField(n, 2, body) == Raise(StructError)
  {
    hide FromBytes;
  }

  /** A Confirmed-Request has its invoke id in the third octet, if it has one at all; any other PDU has none. */
  lemma ConfirmedHasId(apdu: octets)
    requires apdu != [] && DecodeNotification(apdu).Ok?
    ensures var d := DecodeNotification(apdu).value;
            && d.confirmed == (apdu[0] < 16)
            && (apdu[0] < 16 && |apdu| >= 3 ==> d.invokeId == Some(apdu[2]))
            && (apdu[0] >= 16 || |apdu| < 3 ==> d.invokeId == None)
  {
    hide DecodeFrom;
  }

  /** Application-tagged values and closing tags at the top level are passed over. */
  lemma OtherTags(d: octets, position: nat, n: Notification, tag: Tag)
    requires ReadTag(d, position) == Ok(tag) && (tag.kind == Close || (tag.kind == Value && !tag.isContext))
    ensures DecodeFrom(d, position, n) == DecodeFrom(d, tag.next, n)
  {
    hide ReadTag, Descend;
  }

  // ---- a list of parameters ----

  /** What the parameters of a notification are made of. */
  datatype Item =
    | Field(number: nat, body: octets)
    | Stamp(date: octets, time: octets)
    | Group(number: nat, inner: octets)

  predicate SmallItem(i: Item) {
    match i
    case Field(number, body) => number < 15 && |body| < 254
    case Stamp(date, time) => |date| == 4 && |time| == 4
    case Group(number, inner) => number < 15
  }

  ghost predicate ValidItem(i: Item) {
    SmallItem(i) && (i.Group? ==> i.number != 3 && Balanced(i.inner))
  }

  predicate AllSmall(items: seq<Item>) { forall i | 0 <= i < |items| :: SmallItem(items[i]) }

  ghost predicate AllValid(items: seq<Item>) { forall i | 0 <= i < |items| :: ValidItem(items[i]) }

  lemma ValidCons(i: Item, rest: seq<Item>)
    requires ValidItem(i) && AllValid(rest)
    ensures AllValid([i] + rest)
  {
  }

  /** A Group is a nested value; the stamp is context_date_time(3, ...). */
  function ItemOctets(i: Item): octets
    requires SmallItem(i)
  {
    match i
    case Field(number, body) => Tagged(number, true, body)
    case Stamp(date, time) =>
      Opening(3) + (Opening(2) + (Tagged(10, false, date) + (Tagged(11, false, time) + (Closing(2) + Closing(3)))))
    case Group(number, inner) => Bracketed(number, inner, [])
  }

  function ItemsOctets(items: seq<Item>): octets
    requires AllSmall(items)
  {
    if items == [] then [] else ItemOctets(items[0]) + ItemsOctets(items[1..])
  }

  function TakeItem(n: Notification, i: Item): Outcome<Notification> {
    match i
    case Field(number, body) => if number < 256 then TakeField(n, number, body) else Ok(n)
    case Stamp(date, time) => Ok(n.(timeStamp := Some((date, time))))
    case Group(_, _) => Ok(n)
  }

  function Fold(n: Notification, items: seq<Item>): Outcome<Notification>
    decreases |items|
  {
    if items == [] then Ok(n) else
    var m :- TakeItem(n, items[0]);
    Fold(m, items[1..])
  }

  lemma DecodeStep(d: octets, position: nat, n: Notification, tag: Tag)
    requires ReadTag(d, position) == Ok(tag)
    ensures match TakeTag(d, n, tag)
            case Ok((m, next)) => DecodeFrom(d, position, n) == DecodeFrom(d, next, m)
            case Raise(e) => DecodeFrom(d, position, n) == Raise(e)
  {
    hide ReadTag, TakeTag;
  }

  lemma FieldAt(d: octets, position: nat, n: Notification, number: nat, body: octets)
    requires number < 15 && |body| < 254 && At(d, position, Tagged(number, true, body))
    ensures match TakeField(n, number, body)
            case Ok(m) => DecodeFrom(d, position, n) == DecodeFrom(d, position + |Tagged(number, true, body)|, m)
            case Raise(e) => DecodeFrom(d, position, n) == Raise(e)
  {
    hide ReadTag, Tagged, At, TakeField, DecodeFrom;
    TaggedElement(number, true, body);
    ElementAt(d, position, Tagged(number, true, body), number, true, Value, body);
    DecodeStep(d, position, n, ReadTag(d, position).value);
  }

  lemma GroupAt(d: octets, position: nat, n: Notification, number: nat, inner: octets)
    requires number < 15 && number != 3 && Balanced(inner) && At(d, position, Bracketed(number, inner, []))
    ensures DecodeFrom(d, position, n) == DecodeFrom(d, position + |Bracketed(number, inner, [])|, n)
  {
    hide ReadTag, At, Balanced, DecodeFrom, Descend;
    BracketedAt(d, position, number, inner, []);
    DecodeStep(d, position, n, ReadTag(d, position).value);
  }

  /** The pieces of a date and time stamp, in their places. */
  lemma StampTags(d: octets, position: nat, date: octets, time: octets)
    requires |date| == 4 && |time| == 4 && At(d, position, ItemOctets(Stamp(date, time)))
    ensures ReadTag(d, position) == Ok(Tag(3, true, Open, [], position + 1))
    ensures ReadTag(d, position + 1) == Ok(Tag(2, true, Open, [], position + 2))
    ensures ReadTag(d, position + 2) == Ok(Tag(10, false, Value, date, position + 7))
    ensures ReadTag(d, position + 7) == Ok(Tag(11, false, Value, time, position + 12))
    ensures ReadTag(d, position + 12) == Ok(Tag(2, true, Close, [], position + 13))
    ensures ReadTag(d, position + 13) == Ok(Tag(3, true, Close, [], position + 14))
    ensures |ItemOctets(Stamp(date, time))| == 14
  {
    hide ReadTag, At;
    var a, b, c, t := Opening(3), Opening(2), Tagged(10, false, date), Tagged(11, false, time);
    var x, y := Closing(2), Closing(3);
    AtSplit(d, position, a, b + (c + (t + (x + y))));
    AtSplit(d, position + 1, b, c + (t + (x + y)));
    AtSplit(d, position + 2, c, t + (x + y));
    AtSplit(d, position + 7, t, x + y);
    AtSplit(d, position + 12, x, y);
    OpeningElement(3);
    OpeningElement(2);
    ClosingElement(2);
    ClosingElement(3);
    TaggedElement(10, false, date);
    TaggedElement(11, false, time);
    ElementAt(d, position, a, 3, true, Open, []);
    ElementAt(d, position + 1, b, 2, true, Open, []);
    ElementAt(d, position + 2, c, 10, false, Value, date);
    ElementAt(d, position + 7, t, 11, false, Value, time);
    ElementAt(d, position + 12, x, 2, true, Close, []);
    ElementAt(d, position + 13, y, 3, true, Close, []);
  }

  lemma StampAt(d: octets, position: nat, n: Notification, date: octets, time: octets)
    requires |date| == 4 && |time| == 4 && At(d, position, ItemOctets(Stamp(date, time)))
    ensures DecodeFrom(d, position, n) ==
            DecodeFrom(d, position + |ItemOctets(Stamp(date, time))|, n.(timeStamp := Some((date, time))))
  {
    hide ReadTag, At, DecodeFrom, ItemOctets, Descend;
    StampTags(d, position, date, time);
    DecodeStep(d, position, n, ReadTag(d, position).value);
  }

  lemma ItemAt(d: octets, position: nat, n: Notification, i: Item)
    requires ValidItem(i) && At(d, position, ItemOctets(i))
    ensures match TakeItem(n, i)
            case Ok(m) => DecodeFrom(d, position, n) == DecodeFrom(d, position + |ItemOctets(i)|, m)
            case Raise(e) => DecodeFrom(d, position, n) == Raise(e)
  {
    hide At, DecodeFrom, TakeField, Balanced, Tagged, Bracketed;
    match i
    case Field(number, body) => FieldAt(d, position, n, number, body);
    case Stamp(date, time) => StampAt(d, position, n, date, time);
    case Group(number, inner) => GroupAt(d, position, n, number, inner);
  }

  /** Decoding any list of parameters is taking its items one by one: constructed ones are
      skipped whatever they nest, unknown ones are passed over, and later ones replace earlier. */
  lemma {:induction false} ItemsAt(d: octets, position: nat, n: Notification, items: seq<Item>)
    requires AllValid(items) && AllSmall(items)
    requires At(d, position, ItemsOctets(items)) && position + |ItemsOctets(items)| == |d|
    ensures DecodeFrom(d, position, n) == Fold(n, items)
    decreases |items|
  {
    hide At, ReadTag, ItemOctets, TakeItem, ValidItem, SmallItem, TakeTag;
    if items != [] {
      AtSplit(d, position, ItemOctets(items[0]), ItemsOctets(items[1..]));
      ItemAt(d, position, n, items[0]);
      var m := TakeItem(n, items[0]);
      if m.Ok? {
        ItemsAt(d, position + |ItemOctets(items[0])|, m.value, items[1..]);
      }
    }
  }

  // ---- the builder ----

  /** The arguments of event_notification; date, time and REAL values are their octets. */
  datatype Alarm = Alarm(
    device: nat, eventObject: ObjectKey, toState: nat, fromState: nat, processIdentifier: nat, notificationClass: nat,
    priority: nat, notifyType: nat, ackRequired: bool, text: Option<octets>, date: octets, time: octets,
    exceedingValue: octets, exceededLimit: octets)
  {
    predicate Valid() {
      && device < 0x40_0000 && eventObject.InRange() && toState < 0x1_0000_0000 && fromState < 0x1_0000_0000
      && processIdentifier < 0x1_0000_0000 && notificationClass < 0x1_0000_0000 && priority < 0x1_0000_0000
      && notifyType < 0x1_0000_0000 && (text.Some? ==> |text.value| <= 252)
      && |date| == |time| == |exceedingValue| == |exceededLimit| == 4
    }

    function DeviceKey(): ObjectKey { ObjectKey(8, device) }
  }

  const ONE: octets := [0x3F, 0x80, 0x00, 0x00]

  /** The out-of-range choice [5] of the event values. */
  function EventValues(a: Alarm): octets
    requires a.Valid()
  {
    Bracketed(5, ContextReal(0, a.exceedingValue) + (StatusFlags(a.toState != 0) +
              (ContextReal(2, ONE) + (ContextReal(3, a.exceededLimit) + []))), [])
  }

  /** context_bit_string(1, [in_alarm, False, False, False]) */
  function StatusFlags(inAlarm: bool): octets { Tagged(1, true, FlagsBody(inAlarm)) }

  function FlagsBody(inAlarm: bool): (b: octets)
    ensures |b| == 2
  {
    BitStringBody([inAlarm, false, false, false])
  }

  function Unsigned(number: nat, v: nat): Item
    requires v < 0x1_0000_0000
  {
    Field(number, UnsignedOctets(v))
  }

  function Ending(a: Alarm): seq<Item>
    requires a.Valid()
  {
    if a.notifyType == NOTIFY_TYPE_ACK_NOTIFICATION then [Unsigned(8, a.notifyType)] + ([Unsigned(11, a.toState)] + [])
    else [Unsigned(8, a.notifyType)] + ([Field(9, [if a.ackRequired then 1 else 0])] + ([Unsigned(10, a.fromState)] +
         ([Unsigned(11, a.toState)] + ([Group(12, EventValues(a))] + []))))
  }

  function Items(a: Alarm): seq<Item>
    requires a.Valid()
  {
    [Unsigned(0, a.processIdentifier)] + ([Field(1, ObjectId(a.DeviceKey()))] + ([Field(2, ObjectId(a.eventObject))] +
    ([Stamp(a.date, a.time)] + ([Unsigned(4, a.notificationClass)] + ([Unsigned(5, a.priority)] +
    ([Unsigned(6, EVENT_TYPE_OUT_OF_RANGE)] + Worded(a)))))))
  }

  function Worded(a: Alarm): seq<Item>
    requires a.Valid()
  {
    if a.text.Some? then [Field(7, [0] + a.text.value)] + Ending(a) else Ending(a)
  }

  /** event_notification: confirmed with an invoke id, or unconfirmed. */
  function EventNotification(a: Alarm, invokeId: Option<byte>): octets
    requires a.Valid()
  {
    ItemsSmall(a);
    var parameters := ItemsOctets(Items(a));
    if invokeId.Some? then ConfirmedRequest(invokeId.value, SERVICE_CONFIRMED_EVENT_NOTIFICATION, parameters)
    else [0x10, SERVICE_UNCONFIRMED_EVENT_NOTIFICATION] + parameters
  }

  lemma EventValuesBalanced(a: Alarm)
    requires a.Valid()
    ensures Balanced(EventValues(a))
  {
    hide Balanced, Tagged, ReadTag, FlagsBody, Bracketed;
    TaggedElement(0, true, a.exceedingValue);
    TaggedElement(1, true, FlagsBody(a.toState != 0));
    TaggedElement(2, true, ONE);
    TaggedElement(3, true, a.exceededLimit);
    NothingBalanced();
    BalancedPrepend(ContextReal(3, a.exceededLimit), []);
    BalancedPrepend(ContextReal(2, ONE), ContextReal(3, a.exceededLimit) + []);
    BalancedPrepend(StatusFlags(a.toState != 0), ContextReal(2, ONE) + (ContextReal(3, a.exceededLimit) + []));
    BalancedPrepend(ContextReal(0, a.exceedingValue),
                    StatusFlags(a.toState != 0) + (ContextReal(2, ONE) + (ContextReal(3, a.exceededLimit) + [])));
    BalancedBracket(5, ContextReal(0, a.exceedingValue) + (StatusFlags(a.toState != 0) +
                       (ContextReal(2, ONE) + (ContextReal(3, a.exceededLimit) + []))), []);
  }

  /** What the event values hold, element by element: the value that exceeded the limit, the status
      flags, the deadband 1.0 and the limit. */
  lemma EventValuesHold(a: Alarm)
    requires a.Valid()
    ensures var parts := [ContextReal(0, a.exceedingValue), StatusFlags(a.toState != 0), ContextReal(2, ONE),
                          ContextReal(3, a.exceededLimit)];
            && EventValues(a) == Opening(5) + (Join(parts) + Closing(5)) && ElementsFrom(Join(parts), 0) == Ok(parts)
            && Element(parts[0], 0, true, Value, a.exceedingValue)
            && Element(parts[1], 1, true, Value, FlagsBody(a.toState != 0))
            && DecodeBody(8, FlagsBody(a.toState != 0)) == Ok(Bits([a.toState != 0, false, false, false]))
            && Element(parts[2], 2, true, Value, [0x3F, 0x80, 0, 0])
            && Element(parts[3], 3, true, Value, a.exceededLimit)
  {
    hide Tagged, ReadTag, FlagsBody, At, DecodeBody, ElementsFrom;
    var parts := [ContextReal(0, a.exceedingValue), StatusFlags(a.toState != 0), ContextReal(2, ONE),
                  ContextReal(3, a.exceededLimit)];
    TaggedElement(0, true, a.exceedingValue);
    TaggedElement(1, true, FlagsBody(a.toState != 0));
    TaggedElement(2, true, ONE);
    TaggedElement(3, true, a.exceededLimit);
    FlagsHold(a.toState != 0);
    JoinFour(parts);
    assert Closing(5) + [] == Closing(5);
    AtWhole(Join(parts));
    SplitFindsElements(Join(parts), 0, parts);
  }

  lemma JoinFour(parts: seq<octets>)
    requires |parts| == 4
    ensures Join(parts) == parts[0] + (parts[1] + (parts[2] + (parts[3] + [])))
  {
    var b, c, d := parts[1..], parts[2..], parts[3..];
    assert b[1..] == c && c[1..] == d && |d[1..]| == 0;
    assert Join(d) == parts[3] + [] && Join(c) == parts[2] + Join(d) && Join(b) == parts[1] + Join(c);
  }

  lemma FlagsHold(inAlarm: bool)
    ensures DecodeBody(8, FlagsBody(inAlarm)) == Ok(Bits([inAlarm, false, false, false]))
  {
    BitStringBodyDecodes([inAlarm, false, false, false]);
  }

  /** The other forms of a time stamp, a time [0] and a sequence number [1], and any constructed one but
      the dateTime: nothing is kept of them and reading goes on after them. */
  lemma OtherStamps(d: octets, position: nat, number: nat, body: octets, inner: octets)
    requires number < 15 && |body| < 254
    ensures At(d, position, Tagged(number, true, body)) ==>
              ReadTimeStampChoice(d, position) == Ok((None, position + |Tagged(number, true, body)|))
    ensures number != 2 && Balanced(inner) && At(d, position, Bracketed(number, inner, [])) ==>
              ReadTimeStampChoice(d, position) == Ok((None, position + |inner| + 2))
  {
    hide Tagged, ReadTag, At, Balanced, Descend;
    if At(d, position, Tagged(number, true, body)) {
      TaggedElement(number, true, body);
      ElementAt(d, position, Tagged(number, true, body), number, true, Value, body);
    }
    if number != 2 && Balanced(inner) && At(d, position, Bracketed(number, inner, [])) {
      BracketedAt(d, position, number, inner, []);
    }
  }

  lemma EndingValid(a: Alarm)
    requires a.Valid()
    ensures AllValid(Ending(a))
  {
    hide UnsignedOctets, EventValues, Balanced;
    EventValuesBalanced(a);
  }

  lemma ItemsValid(a: Alarm)
    requires a.Valid()
    ensures AllValid(Items(a))
  {
    hide UnsignedOctets, ObjectId, Balanced, Ending, AllValid;
    EndingValid(a);
    if a.text.Some? {
      ValidCons(Field(7, [0] + a.text.value), Ending(a));
    }
    var r6 := [Unsigned(6, EVENT_TYPE_OUT_OF_RANGE)] + Worded(a);
    var r5 := [Unsigned(5, a.priority)] + r6;
    var r4 := [Unsigned(4, a.notificationClass)] + r5;
    var r3 := [Stamp(a.date, a.time)] + r4;
    var r2 := [Field(2, ObjectId(a.eventObject))] + r3;
    ValidCons(Unsigned(6, EVENT_TYPE_OUT_OF_RANGE), Worded(a));
    ValidCons(Unsigned(5, a.priority), r6);
    ValidCons(Unsigned(4, a.notificationClass), r5);
    ValidCons(Stamp(a.date, a.time), r4);
    ValidCons(Field(2, ObjectId(a.eventObject)), r3);
    ValidCons(Field(1, ObjectId(a.DeviceKey())), r2);
    ValidCons(Unsigned(0, a.processIdentifier), [Field(1, ObjectId(a.DeviceKey()))] + r2);
  }

  lemma ItemsSmall(a: Alarm)
    requires a.Valid()
    ensures AllSmall(Items(a))
  {
    hide Items, Balanced;
    ItemsValid(a);
  }

  // ---- round trip ----

  lemma FoldStep(n: Notification, i: Item, rest: seq<Item>, m: Notification)
    requires TakeItem(n, i) == Ok(m)
    ensures Fold(n, [i] + rest) == Fold(m, rest)
  {
    hide TakeItem;
    assert ([i] + rest)[1..] == rest;
  }

  lemma FoldEnding(n: Notification, a: Alarm)
    requires a.Valid()
    ensures var acked := a.notifyType == NOTIFY_TYPE_ACK_NOTIFICATION;
            Fold(n, Ending(a)) == Ok(n.(notifyType := Some(a.notifyType), toState := Some(a.toState),
                                        ackRequired := if acked then n.ackRequired else Some(a.ackRequired),
                                        fromState := if acked then n.fromState else Some(a.fromState)))
  {
    hide Fold, UnsignedOctets, EventValues;
    var n8 := n.(notifyType := Some(a.notifyType));
    FoldNothing(n8.(toState := Some(a.toState)));
    if a.notifyType == NOTIFY_TYPE_ACK_NOTIFICATION {
      FoldStep(n, Unsigned(8, a.notifyType), [Unsigned(11, a.toState)] + [], n8);
      FoldStep(n8, Unsigned(11, a.toState), [], n8.(toState := Some(a.toState)));
    } else {
      var i9, i10, i11, i12 := Field(9, [if a.ackRequired then 1 else 0]), Unsigned(10, a.fromState),
          Unsigned(11, a.toState), Group(12, EventValues(a));
      var n9 := n8.(ackRequired := Some(a.ackRequired));
      var n10 := n9.(fromState := Some(a.fromState));
      var n11 := n10.(toState := Some(a.toState));
      OneOctet(if a.ackRequired then 1 else 0);
      FoldStep(n, Unsigned(8, a.notifyType), [i9] + ([i10] + ([i11] + ([i12] + []))), n8);
      FoldStep(n8, i9, [i10] + ([i11] + ([i12] + [])), n9);
      FoldStep(n9, i10, [i11] + ([i12] + []), n10);
      FoldStep(n10, i11, [i12] + [], n11);
      FoldStep(n11, i12, [], n11);
      FoldNothing(n11);
    }
  }

  lemma OneOctet(b: byte)
    ensures FromBytes([b]) == b
  {
    assert [b][..0] == [];
  }

  lemma FoldNothing(n: Notification)
    ensures Fold(n, []) == Ok(n)
  {
  }

  /** What the fields of a decoded alarm are to be. */
  function Expected(a: Alarm): Notification {
    var acked := a.notifyType == NOTIFY_TYPE_ACK_NOTIFICATION;
    Notification(Some(a.processIdentifier), Some(a.DeviceKey()), Some(a.eventObject), Some((a.date, a.time)),
                 Some(a.notificationClass), Some(a.priority), Some(EVENT_TYPE_OUT_OF_RANGE), Some(a.notifyType),
                 if acked then None else Some(a.ackRequired), if acked then None else Some(a.fromState),
                 Some(a.toState))
  }

  lemma FoldItems(a: Alarm)
    requires a.Valid()
    ensures Fold(BLANK, Items(a)) == Ok(Expected(a))
  {
    hide Fold, UnsignedOctets, ObjectId, FromBytes, Ending;
    var n0 := BLANK.(processIdentifier := Some(a.processIdentifier));
    var n1 := n0.(initiatingDevice := Some(a.DeviceKey()));
    var n2 := n1.(eventObject := Some(a.eventObject));
    var n3 := n2.(timeStamp := Some((a.date, a.time)));
    var n4 := n3.(notificationClass := Some(a.notificationClass));
    var n5 := n4.(priority := Some(a.priority));
    var n6 := n5.(eventType := Some(EVENT_TYPE_OUT_OF_RANGE));
    var r6 := [Unsigned(6, EVENT_TYPE_OUT_OF_RANGE)] + Worded(a);
    var r5 := [Unsigned(5, a.priority)] + r6;
    var r4 := [Unsigned(4, a.notificationClass)] + r5;
    var r3 := [Stamp(a.date, a.time)] + r4;
    var r2 := [Field(2, ObjectId(a.eventObject))] + r3;
    FoldStep(BLANK, Unsigned(0, a.processIdentifier), [Field(1, ObjectId(a.DeviceKey()))] + r2, n0);
    FoldStep(n0, Field(1, ObjectId(a.DeviceKey())), r2, n1);
    FoldStep(n1, Field(2, ObjectId(a.eventObject)), r3, n2);
    FoldStep(n2, Stamp(a.date, a.time), r4, n3);
    FoldStep(n3, Unsigned(4, a.notificationClass), r5, n4);
    FoldStep(n4, Unsigned(5, a.priority), r6, n5);
    FoldStep(n5, Unsigned(6, EVENT_TYPE_OUT_OF_RANGE), Worded(a), n6);
    if a.text.Some? {
      FoldStep(n6, Field(7, [0] + a.text.value), Ending(a), n6);
    }
    FoldEnding(n6, a);
  }

  /** Every event notification, confirmed or not, is decoded back field by field: the message
      text and the nested event values are skipped, and an acknowledgement notification leaves
      from-state and ack-required empty. */
  lemma NotificationRoundTrip(a: Alarm, invokeId: Option<byte>)
    requires a.Valid()
    ensures DecodeNotification(EventNotification(a, invokeId)) == Ok(Decoded(invokeId.Some?, invokeId, Expected(a)))
  {
    hide Items, ItemsOctets, DecodeFrom, Fold, Expected, AllValid, AllSmall;
    ItemsSmall(a);
    ItemsValid(a);
    var parameters := ItemsOctets(Items(a));
    var apdu := EventNotification(a, invokeId);
    assert Slice(apdu, if invokeId.Some? then 4 else 2, |apdu|) == parameters;
    AtWhole(parameters);
    ItemsAt(parameters, 0, BLANK, Items(a));
    FoldItems(a);
  }
}
