/** The decoder of a GetEventInformation-ACK (clause 13.12 of ANSI/ASHRAE 135-2024): a flat loop
    with two loops inside it, none of which counts on the octets being well formed. */
module Summaries {
  import opened Octets
  import opened Tags
  import opened Values
  import Elements
  import opened Requests
  import opened Alarms

  type Stamp = Option<(octets, octets)>

  /** A summary holds only what was read of it so far. */
  datatype Summary = Summary(
    object': ObjectKey, eventState: Option<nat>, ackedTransitions: Option<seq<bool>>, timeStamps: Option<seq<Stamp>>,
    notifyType: Option<nat>, eventEnable: Option<seq<bool>>, priorities: Option<seq<nat>>)

  /** `current` in the source is the last summary, or nothing before the first. */
  datatype Progress = Progress(summaries: seq<Summary>, moreEvents: Option<bool>, inList: bool)

  const START := Progress([], None, false)

  /** Writing into the current summary, which is a TypeError while there is none. */
  function Update(p: Progress, change: Summary -> Summary): Outcome<Progress> {
    if p.summaries == [] then Raise(TypeError) else
    var last := |p.summaries| - 1;
    Ok(p.(summaries := p.summaries[last := change(p.summaries[last])]))
  }

  /** _bits */
  function ReadBits(body: octets): Outcome<seq<bool>> {
    if body == [] then Raise(IndexError) else Ok(DropUnused(UnpackBits(body[1..]), body[0]))
  }

  /** `n` time stamps, one after the other. */
  function ReadStamps(d: octets, position: nat, n: nat): (r: Outcome<(seq<Stamp>, nat)>)
    ensures r.Ok? ==> r.value.1 >= position + n
    decreases n
  {
    if n == 0 then Ok(([], position)) else
    var (before, next) :- ReadStamps(d, position, n - 1);
    var (stamp, after) :- ReadTimeStampChoice(d, next);
    Ok((before + [stamp], after))
  }

  /** Every tag as a number, up to the first closing tag of any number. */
  function ReadPriorities(d: octets, position: nat, before: seq<nat>): (r: Outcome<(seq<nat>, nat)>)
    ensures r.Ok? ==> r.value.1 > position
    decreases |d| - position
  {
    var tag :- ReadTag(d, position);
    if tag.kind == Close then Ok((before, tag.next))
    else ReadPriorities(d, tag.next, before + [FromBytes(tag.body)])
  }

  /** A context-tagged value inside the list. */
  function TakeValue(p: Progress, number: byte, body: octets): Outcome<Progress> {
    if number == 0 then
      var raw :- Unpack(body, 4);
      Ok(p.(summaries := p.summaries + [Summary(KeyOf(raw), None, None, None, None, None, None)]))
    else if number == 1 then Update(p, (s: Summary) => s.(eventState := Some(FromBytes(body))))
    else if number == 2 then
      var bits :- ReadBits(body);
      Update(p, (s: Summary) => s.(ackedTransitions := Some(bits)))
    else if number == 4 then Update(p, (s: Summary) => s.(notifyType := Some(FromBytes(body))))
    else if number == 5 then
      var bits :- ReadBits(body);
      Update(p, (s: Summary) => s.(eventEnable := Some(bits)))
    else Ok(p)
  }

  function WithStamps(p: Progress, stamps: seq<Stamp>): Outcome<Progress> {
    Update(p, (s: Summary) => s.(timeStamps := Some(stamps)))
  }

  function WithPriorities(p: Progress, priorities: seq<nat>): Outcome<Progress> {
    Update(p, (s: Summary) => s.(priorities := Some(priorities)))
  }

  /** One turn outside the list. */
  function TakeOutside(p: Progress, tag: Tag): Progress {
    if tag.kind == Open && tag.number == 0 then p.(inList := true)
    else if tag.kind == Value && tag.isContext && tag.number == 1 then p.(moreEvents := Some(FromBytes(tag.body) != 0))
    else p
  }

  /** One turn of the loop on a tag that has been read: the new progress and position. */
  function Turn(d: octets, p: Progress, tag: Tag): (r: Outcome<(Progress, nat)>)
    ensures r.Ok? ==> r.value.1 >= tag.next
  {
    if !p.inList then Ok((TakeOutside(p, tag), tag.next))
    else if tag.kind == Close && tag.number == 0 then Ok((p.(inList := false), tag.next))
    else if tag.kind == Value && tag.isContext then
      var q :- TakeValue(p, tag.number, tag.body);
      Ok((q, tag.next))
    else if tag.kind == Open && tag.number == 3 then
      var (stamps, after) :- ReadStamps(d, tag.next, 3);
      var q :- WithStamps(p, stamps);
      var close :- ReadTag(d, after);
      Ok((q, close.next))
    else if tag.kind == Open && tag.number == 6 then
      var (priorities, after) :- ReadPriorities(d, tag.next, []);
      var q :- WithPriorities(p, priorities);
      Ok((q, after))
    else Ok((p, tag.next))
  }

  function SummariesFrom(d: octets, position: nat, p: Progress): Outcome<Progress>
    decreases |d| - position
  {
    if position >= |d| then Ok(p) else
    var tag :- ReadTag(d, position);
    var (q, next) :- Turn(d, p, tag);
    SummariesFrom(d, next, q)
  }

  /** A field before the first object has no summary to go to, which is a TypeError; other tags, in the
      list or outside it, are passed over, and closing tags but [0] leave the list open. */
  lemma OutOfPlace(d: octets, p: Progress, number: byte, body: octets, tag: Tag)
    ensures p.summaries == [] && (number in {1, 4} || (number in {2, 5} && body != [])) ==>
              TakeValue(p, number, body) == Raise(TypeError)
    ensures number in {2, 5} && body == [] ==> TakeValue(p, number, body) == Raise(IndexError)
    ensures p.inList && tag.kind == Close && tag.number != 0 ==> Turn(d, p, tag) == Ok((p, tag.next))
    ensures p.inList && tag.kind == Open && tag.number !in {3, 6} ==> Turn(d, p, tag) == Ok((p, tag.next))
    ensures p.inList && tag.kind == Value && !tag.isContext ==> Turn(d, p, tag) == Ok((p, tag.next))
    ensures !p.inList && tag.kind == Value && (!tag.isContext || tag.number != 1) ==>
            Turn(d, p, tag) == Ok((p, tag.next))
  {
    hide ReadTag, ReadStamps, ReadPriorities, FromBytes, UnpackBits;
  }

  // ---- whatever the octets ----

  ghost predicate ThreeStamps(summaries: seq<Summary>) {
    forall i | 0 <= i < |summaries| :: summaries[i].timeStamps.Some? ==> |summaries[i].timeStamps.value| == 3
  }

  lemma {:induction false} StampCount(d: octets, position: nat, n: nat)
    requires ReadStamps(d, position, n).Ok?
    ensures |ReadStamps(d, position, n).value.0| == n
  {
    hide ReadTimeStampChoice;
    if n > 0 {
      StampCount(d, position, n - 1);
    }
  }

  lemma TurnKeepsStamps(d: octets, p: Progress, tag: Tag)
    requires ThreeStamps(p.summaries) && Turn(d, p, tag).Ok?
    ensures ThreeStamps(Turn(d, p, tag).value.0.summaries)
    ensures |p.summaries| <= |Turn(d, p, tag).value.0.summaries|
  {
    hide ReadTag, ReadStamps, ReadPriorities, FromBytes, ReadBits;
    if p.inList && tag.kind == Open && tag.number == 3 {
      StampCount(d, tag.next, 3);
    }
  }

  /** From arbitrary octets, a parse that succeeds yields summaries whose event time stamps, where
      they are present, are three: one for each transition. */
  lemma {:induction false} StampsForEachTransition(d: octets, position: nat, p: Progress)
    requires ThreeStamps(p.summaries) && SummariesFrom(d, position, p).Ok?
    ensures ThreeStamps(SummariesFrom(d, position, p).value.summaries)
    decreases |d| - position
  {
    hide ReadTag, Turn, ThreeStamps;
    if position < |d| {
      var tag := ReadTag(d, position).value;
      TurnKeepsStamps(d, p, tag);
      var turned := Turn(d, p, tag).value;
      StampsForEachTransition(d, turned.1, turned.0);
    }
  }

  /** The loop over three time stamps. */
  method Stamps(d: octets, start: nat) returns (r: Outcome<(seq<Stamp>, nat)>)
    ensures r == ReadStamps(d, start, 3)
  {
    hide ReadTimeStampChoice;
    var stamps: seq<Stamp> := [];
    var position := start;
    for i := 0 to 3
      invariant ReadStamps(d, start, i) == Ok((stamps, position))
    {
      var stamp := TimeStampChoice(d, position);
      StampStep(d, start, i);
      if stamp.Raise? {
        StampsRaise(d, start, i + 1, 3, stamp.error);
        return Raise(stamp.error);
      }
      stamps, position := stamps + [stamp.value.0], stamp.value.1;
    }
    r := Ok((stamps, position));
  }

  lemma StampStep(d: octets, start: nat, i: nat)
    requires ReadStamps(d, start, i).Ok?
    ensures var (before, next) := ReadStamps(d, start, i).value;
            ReadStamps(d, start, i + 1) ==
            match ReadTimeStampChoice(d, next)
            case Ok((stamp, after)) => Ok((before + [stamp], after))
            case Raise(e) => Raise(e)
  {
    hide ReadTimeStampChoice;
  }

  lemma {:induction false} StampsRaise(d: octets, start: nat, i: nat, n: nat, e: Exception)
    requires i <= n && ReadStamps(d, start, i) == Raise(e)
    ensures ReadStamps(d, start, n) == Raise(e)
  {
    hide ReadTimeStampChoice;
    if i < n {
      StampsRaise(d, start, i, n - 1, e);
    }
  }

  /** The loop over the priorities: it ends at a closing tag or at the end of the octets. */
  method Priorities(d: octets, start: nat) returns (r: Outcome<(seq<nat>, nat)>)
    ensures r == ReadPriorities(d, start, [])
  {
    hide ReadTag;
    var priorities: seq<nat> := [];
    var position := start;
    while true
      invariant ReadPriorities(d, start, []) == ReadPriorities(d, position, priorities)
      decreases |d| - position
    {
      var tag := ReadTag(d, position);
      if tag.Raise? {
        return Raise(tag.error);
      }
      position := tag.value.next;
      if tag.value.kind == Close {
        return Ok((priorities, position));
      }
      priorities := priorities + [FromBytes(tag.value.body)];
    }
  }

  /** parse_event_summaries: on every APDU, whatever its octets, all three loops end. */
  method ParseEventSummaries(apdu: octets) returns (r: Outcome<Progress>)
    ensures r == SummariesFrom(Slice(apdu, 3, |apdu|), 0, START)
  {
    hide ReadTag, TakeValue, TakeOutside, ReadStamps, ReadPriorities, Update;
    var d := Slice(apdu, 3, |apdu|);
    var p := START;
    var position := 0;
    while position < |d|
      invariant SummariesFrom(d, 0, START) == SummariesFrom(d, position, p)
      decreases |d| - position
    {
      var tag := ReadTag(d, position);
      if tag.Raise? {
        return Raise(tag.error);
      }
      var turned := TakeTurn(d, p, tag.value);
      if turned.Raise? {
        return Raise(turned.error);
      }
      p, position := turned.value.0, turned.value.1;
    }
    r := Ok(p);
  }

  /** The body of that loop. */
  method TakeTurn(d: octets, p: Progress, tag: Tag) returns (r: Outcome<(Progress, nat)>)
    ensures r == Turn(d, p, tag)
  {
    hide ReadTag, TakeValue, TakeOutside, ReadStamps, ReadPriorities, Update;
    if !p.inList {
      return Ok((TakeOutside(p, tag), tag.next));
    }
    if tag.kind == Close && tag.number == 0 {
      return Ok((p.(inList := false), tag.next));
    }
    var q := Ok(p);
    var position := tag.next;
    if tag.kind == Value && tag.isContext {
      q := TakeValue(p, tag.number, tag.body);
    } else if tag.kind == Open && tag.number == 3 {
      var stamps := Stamps(d, position);
      if stamps.Raise? {
        return Raise(stamps.error);
      }
      q := WithStamps(p, stamps.value.0);
      if q.Raise? {
        return Raise(q.error);
      }
      var close := ReadTag(d, stamps.value.1);
      if close.Raise? {
        return Raise(close.error);
      }
      position := close.value.next;
    } else if tag.kind == Open && tag.number == 6 {
      var priorities := Priorities(d, position);
      if priorities.Raise? {
        return Raise(priorities.error);
      }
      q := WithPriorities(p, priorities.value.0);
      position := priorities.value.1;
    }
    if q.Raise? {
      return Raise(q.error);
    }
    return Ok((q.value, position));
  }

  // ---- round trip ----

  /** One event summary as clause 21 of the standard has it. */
  datatype Event = Event(
    key: ObjectKey, state: nat, acked: seq<bool>, stamps: seq<(octets, octets)>, notify: nat, enable: seq<bool>,
    priorities: seq<nat>)
  {
    predicate Valid() {
      && key.InRange() && state < 0x1_0000_0000 && notify < 0x1_0000_0000 && |acked| <= 24 && |enable| <= 24
      && |stamps| == 3 && (forall i | 0 <= i < 3 :: |stamps[i].0| == 4 && |stamps[i].1| == 4)
      && (forall i | 0 <= i < |priorities| :: priorities[i] < 0x1_0000_0000)
    }
  }

  function StampOctets(stamp: (octets, octets)): octets
    requires |stamp.0| == 4 && |stamp.1| == 4
  {
    Opening(2) + (Tagged(10, false, stamp.0) + (Tagged(11, false, stamp.1) + Closing(2)))
  }

  function StampsOctets(stamps: seq<(octets, octets)>): octets
    requires forall i | 0 <= i < |stamps| :: |stamps[i].0| == 4 && |stamps[i].1| == 4
  {
    if stamps == [] then [] else StampsOctets(stamps[..|stamps| - 1]) + StampOctets(stamps[|stamps| - 1])
  }

  function PrioritiesOctets(priorities: seq<nat>): octets
    requires forall i | 0 <= i < |priorities| :: priorities[i] < 0x1_0000_0000
  {
    if priorities == [] then Closing(6) else ApplicationUnsigned(priorities[0]) + PrioritiesOctets(priorities[1..])
  }

  function EventOctets(e: Event): octets
    requires e.Valid()
  {
    ContextObjectId(0, e.key) + (ContextUnsigned(1, e.state) + (Tagged(2, true, BitStringBody(e.acked)) +
    (Opening(3) + (StampsOctets(e.stamps) + (Closing(3) + (ContextUnsigned(4, e.notify) +
    (Tagged(5, true, BitStringBody(e.enable)) + (Opening(6) + PrioritiesOctets(e.priorities)))))))))
  }

  function EventsOctets(es: seq<Event>): octets
    requires forall i | 0 <= i < |es| :: es[i].Valid()
  {
    if es == [] then [] else EventOctets(es[0]) + EventsOctets(es[1..])
  }

  /** A GetEventInformation-ACK. */
  function EventInformationAck(invokeId: byte, es: seq<Event>, more: bool): octets
    requires forall i | 0 <= i < |es| :: es[i].Valid()
  {
    ComplexAck(invokeId, 29, Opening(0) + (EventsOctets(es) + (Closing(0) + Tagged(1, true, [if more then 1 else 0]))))
  }

  /** What is to be read of a summary. */
  function Read(e: Event): Summary {
    Summary(e.key, Some(e.state), Some(e.acked), Some(Kept(e.stamps)), Some(e.notify), Some(e.enable),
        Some(e.priorities))
  }

  function Kept(stamps: seq<(octets, octets)>): seq<Stamp> {
    seq(|stamps|, i requires 0 <= i < |stamps| => Some(stamps[i]))
  }

  lemma StampAt(d: octets, position: nat, stamp: (octets, octets))
    requires |stamp.0| == 4 && |stamp.1| == 4 && At(d, position, StampOctets(stamp))
    ensures |StampOctets(stamp)| == 12 && ReadTimeStampChoice(d, position) == Ok((Some(stamp), position + 12))
  {
    hide ReadTag, At;
    var a, b, c, e := Opening(2), Tagged(10, false, stamp.0), Tagged(11, false, stamp.1), Closing(2);
    AtSplit(d, position, a, b + (c + e));
    AtSplit(d, position + 1, b, c + e);
    AtSplit(d, position + 6, c, e);
    OpeningElement(2);
    ClosingElement(2);
    TaggedElement(10, false, stamp.0);
    TaggedElement(11, false, stamp.1);
    ElementAt(d, position, a, 2, true, Open, []);
    ElementAt(d, position + 1, b, 10, false, Value, stamp.0);
    ElementAt(d, position + 6, c, 11, false, Value, stamp.1);
    ElementAt(d, position + 11, e, 2, true, Close, []);
  }

  lemma {:induction false} StampsAt(d: octets, position: nat, stamps: seq<(octets, octets)>)
    requires forall i | 0 <= i < |stamps| :: |stamps[i].0| == 4 && |stamps[i].1| == 4
    requires At(d, position, StampsOctets(stamps))
    ensures |StampsOctets(stamps)| == 12 * |stamps|
    ensures ReadStamps(d, position, |stamps|) == Ok((Kept(stamps), position + 12 * |stamps|))
  {
    hide At, StampOctets, ReadTimeStampChoice;
    if stamps != [] {
      var n := |stamps| - 1;
      AtSplit(d, position, StampsOctets(stamps[..n]), StampOctets(stamps[n]));
      StampsAt(d, position, stamps[..n]);
      StampAt(d, position + 12 * n, stamps[n]);
      assert Kept(stamps) == Kept(stamps[..n]) + [Some(stamps[n])];
    }
  }

  lemma {:induction false} PrioritiesAt(d: octets, position: nat, priorities: seq<nat>, before: seq<nat>)
    requires forall i | 0 <= i < |priorities| :: priorities[i] < 0x1_0000_0000
    requires At(d, position, PrioritiesOctets(priorities))
    ensures ReadPriorities(d, position, before) == Ok((before + priorities, position + |PrioritiesOctets(priorities)|))
    decreases |priorities|
  {
    hide ReadTag, At, Tagged, UnsignedOctets, FromBytes;
    if priorities == [] {
      ClosingElement(6);
      ElementAt(d, position, Closing(6), 6, true, Close, []);
      assert before + priorities == before;
    } else {
      var e := ApplicationUnsigned(priorities[0]);
      AtSplit(d, position, e, PrioritiesOctets(priorities[1..]));
      TaggedElement(2, false, UnsignedOctets(priorities[0]));
      ElementAt(d, position, e, 2, false, Value, UnsignedOctets(priorities[0]));
      PrioritiesAt(d, position + |e|, priorities[1..], before + [priorities[0]]);
      assert before + [priorities[0]] + priorities[1..] == before + priorities;
    }
  }

  lemma TurnStep(d: octets, position: nat, p: Progress, tag: Tag, q: Progress, next: nat)
    requires ReadTag(d, position) == Ok(tag) && Turn(d, p, tag) == Ok((q, next))
    ensures SummariesFrom(d, position, p) == SummariesFrom(d, next, q)
  {
    hide ReadTag, Turn;
  }

  /** The progress with `s` as the current summary. */
  function With(p: Progress, s: Summary): Progress { p.(summaries := p.summaries + [s]) }

  lemma UpdateLast(p: Progress, s: Summary, change: Summary -> Summary)
    ensures Update(With(p, s), change) == Ok(With(p, change(s)))
  {
    var all := With(p, s).summaries;
    assert all[|all| - 1 := change(s)] == p.summaries + [change(s)];
  }

  lemma FieldTurn(d: octets, position: nat, p: Progress, s: Summary, t: Summary, number: nat, body: octets)
    requires number < 15 && |body| < 254 && p.inList && At(d, position, Tagged(number, true, body))
    requires TakeValue(With(p, s), number, body) == Ok(With(p, t))
    ensures SummariesFrom(d, position, With(p, s)) ==
            SummariesFrom(d, position + |Tagged(number, true, body)|, With(p, t))
  {
    hide ReadTag, Tagged, At, TakeValue;
    TaggedElement(number, true, body);
    ElementAt(d, position, Tagged(number, true, body), number, true, Value, body);
    TurnStep(d, position, With(p, s), ReadTag(d, position).value, With(p, t), position + |Tagged(number, true, body)|);
  }

  /** The fields of a summary that are single values. */
  lemma FieldsTaken(p: Progress, s: Summary, v: nat, bits: seq<bool>, key: ObjectKey)
    requires v < 0x1_0000_0000 && key.InRange()
    ensures TakeValue(p, 0, ObjectId(key)) == Ok(With(p, Summary(key, None, None, None, None, None, None)))
    ensures TakeValue(With(p, s), 1, UnsignedOctets(v)) == Ok(With(p, s.(eventState := Some(v))))
    ensures TakeValue(With(p, s), 2, BitStringBody(bits)) == Ok(With(p, s.(ackedTransitions := Some(bits))))
    ensures TakeValue(With(p, s), 4, UnsignedOctets(v)) == Ok(With(p, s.(notifyType := Some(v))))
    ensures TakeValue(With(p, s), 5, BitStringBody(bits)) == Ok(With(p, s.(eventEnable := Some(bits))))
  {
    hide ObjectId, UnsignedOctets, BitStringBody, Update, FromBytes, ReadBits;
    BitsRead(bits);
    UpdateLast(p, s, (x: Summary) => x.(eventState := Some(FromBytes(UnsignedOctets(v)))));
    UpdateLast(p, s, (x: Summary) => x.(ackedTransitions := Some(bits)));
    UpdateLast(p, s, (x: Summary) => x.(notifyType := Some(FromBytes(UnsignedOctets(v)))));
    UpdateLast(p, s, (x: Summary) => x.(eventEnable := Some(bits)));
  }

  lemma BitsRead(bits: seq<bool>)
    ensures ReadBits(BitStringBody(bits)) == Ok(bits)
  {
    BitStringBodyDecodes(bits);
  }

  /** The time stamps between their tags. */
  lemma StampsTurn(d: octets, position: nat, p: Progress, s: Summary, stamps: seq<(octets, octets)>)
    requires p.inList && |stamps| == 3 && forall i | 0 <= i < 3 :: |stamps[i].0| == 4 && |stamps[i].1| == 4
    requires At(d, position, Opening(3)) && At(d, position + 1, StampsOctets(stamps))
    requires At(d, position + 1 + |StampsOctets(stamps)|, Closing(3))
    ensures SummariesFrom(d, position, With(p, s)) ==
            SummariesFrom(d, position + 2 + |StampsOctets(stamps)|, With(p, s.(timeStamps := Some(Kept(stamps)))))
  {
    hide ReadTag, At, StampsOctets, ReadStamps, Update;
    OpeningElement(3);
    ElementAt(d, position, Opening(3), 3, true, Open, []);
    StampsAt(d, position + 1, stamps);
    ClosingElement(3);
    ElementAt(d, position + 37, Closing(3), 3, true, Close, []);
    UpdateLast(p, s, (x: Summary) => x.(timeStamps := Some(Kept(stamps))));
    TurnStep(d, position, With(p, s), ReadTag(d, position).value, With(p, s.(timeStamps := Some(Kept(stamps)))),
             position + 38);
  }

  lemma PrioritiesTurn(d: octets, position: nat, p: Progress, s: Summary, priorities: seq<nat>)
    requires p.inList && forall i | 0 <= i < |priorities| :: priorities[i] < 0x1_0000_0000
    requires At(d, position, Opening(6)) && At(d, position + 1, PrioritiesOctets(priorities))
    ensures SummariesFrom(d, position, With(p, s)) ==
            SummariesFrom(d, position + 1 + |PrioritiesOctets(priorities)|, With(p, s.(priorities := Some(priorities))))
  {
    hide ReadTag, At, PrioritiesOctets, ReadPriorities, Update;
    OpeningElement(6);
    ElementAt(d, position, Opening(6), 6, true, Open, []);
    PrioritiesAt(d, position + 1, priorities, []);
    assert [] + priorities == priorities;
    UpdateLast(p, s, (x: Summary) => x.(priorities := Some(priorities)));
    TurnStep(d, position, With(p, s), ReadTag(d, position).value, With(p, s.(priorities := Some(priorities))),
             position + 1 + |PrioritiesOctets(priorities)|);
  }

  lemma KeyTurn(d: octets, position: nat, p: Progress, key: ObjectKey)
    requires p.inList && key.InRange() && At(d, position, ContextObjectId(0, key))
    ensures SummariesFrom(d, position, p) ==
            SummariesFrom(d, position + |ContextObjectId(0, key)|,
                          With(p, Summary(key, None, None, None, None, None, None)))
  {
    hide ReadTag, At, ContextObjectId, TakeValue, ObjectId, BitStringBody, UnsignedOctets;
    var s := Summary(key, None, None, None, None, None, None);
    ContextObjectIdAt(d, position, 0, key);
    FieldsTaken(p, s, 0, [], key);
    TurnStep(d, position, p, ReadTag(d, position).value, With(p, s), position + |ContextObjectId(0, key)|);
  }

  lemma FlagsLength(bits: seq<bool>)
    requires |bits| <= 24
    ensures |BitStringBody(bits)| < 254
  {
  }

  /** One summary is read as what it holds, each field in its place. */
  lemma EventAt(d: octets, position: nat, p: Progress, e: Event)
    requires p.inList && e.Valid() && At(d, position, EventOctets(e))
    ensures SummariesFrom(d, position, p) == SummariesFrom(d, position + |EventOctets(e)|, With(p, Read(e)))
  {
    hide At, SummariesFrom, ContextObjectId, UnsignedOctets, Tagged, BitStringBody, StampsOctets, PrioritiesOctets,
         TakeValue, ObjectId, With;
    FlagsLength(e.acked);
    FlagsLength(e.enable);
    var a, b, c := ContextObjectId(0, e.key), ContextUnsigned(1, e.state), Tagged(2, true, BitStringBody(e.acked));
    var f, g, h := Opening(3), StampsOctets(e.stamps), Closing(3);
    var i, j, k := ContextUnsigned(4, e.notify), Tagged(5, true, BitStringBody(e.enable)), Opening(6);
    var l := PrioritiesOctets(e.priorities);
    NinePieces(d, position, a, b, c, f, g, h, i, j, k, l);
    var s0 := Summary(e.key, None, None, None, None, None, None);
    var s1 := s0.(eventState := Some(e.state));
    var s2 := s1.(ackedTransitions := Some(e.acked));
    var s3 := s2.(timeStamps := Some(Kept(e.stamps)));
    var s4 := s3.(notifyType := Some(e.notify));
    var s5 := s4.(eventEnable := Some(e.enable));
    var q := position + |a|;
    KeyTurn(d, position, p, e.key);
    FieldsTaken(p, s0, e.state, e.acked, e.key);
    FieldTurn(d, q, p, s0, s1, 1, UnsignedOctets(e.state));
    FieldsTaken(p, s1, e.state, e.acked, e.key);
    FieldTurn(d, q + |b|, p, s1, s2, 2, BitStringBody(e.acked));
    var r := q + |b| + |c|;
    StampsTurn(d, r, p, s2, e.stamps);
    FieldsTaken(p, s3, e.notify, e.enable, e.key);
    FieldTurn(d, r + 2 + |g|, p, s3, s4, 4, UnsignedOctets(e.notify));
    FieldsTaken(p, s4, e.notify, e.enable, e.key);
    FieldTurn(d, r + 2 + |g| + |i|, p, s4, s5, 5, BitStringBody(e.enable));
    PrioritiesTurn(d, r + 2 + |g| + |i| + |j|, p, s5, e.priorities);
  }

  lemma NinePieces(d: octets, position: nat, a: octets, b: octets, c: octets, f: octets, g: octets, h: octets,
                   i: octets, j: octets, k: octets, l: octets)
    requires |f| == 1 && |h| == 1 && |k| == 1
    requires At(d, position, a + (b + (c + (f + (g + (h + (i + (j + (k + l)))))))))
    ensures var q := position + |a|; var r := q + |b| + |c|; var t := r + 2 + |g|;
            && At(d, position, a) && At(d, q, b) && At(d, q + |b|, c)
            && At(d, r, f) && At(d, r + 1, g) && At(d, r + 1 + |g|, h)
            && At(d, t, i) && At(d, t + |i|, j) && At(d, t + |i| + |j|, k) && At(d, t + |i| + |j| + 1, l)
  {
    hide At;
    var q := position + |a|;
    var r := q + |b| + |c|;
    var t := r + 2 + |g|;
    AtSplit(d, position, a, b + (c + (f + (g + (h + (i + (j + (k + l))))))));
    AtSplit(d, q, b, c + (f + (g + (h + (i + (j + (k + l)))))));
    AtSplit(d, q + |b|, c, f + (g + (h + (i + (j + (k + l))))));
    AtSplit(d, r, f, g + (h + (i + (j + (k + l)))));
    AtSplit(d, r + 1, g, h + (i + (j + (k + l))));
    AtSplit(d, r + 1 + |g|, h, i + (j + (k + l)));
    AtSplit(d, t, i, j + (k + l));
    AtSplit(d, t + |i|, j, k + l);
    AtSplit(d, t + |i| + |j|, k, l);
  }

  function ReadAll(es: seq<Event>): seq<Summary> { seq(|es|, i requires 0 <= i < |es| => Read(es[i])) }

  lemma {:induction false} EventsAt(d: octets, position: nat, p: Progress, es: seq<Event>)
    requires p.inList && (forall i | 0 <= i < |es| :: es[i].Valid()) && At(d, position, EventsOctets(es))
    ensures SummariesFrom(d, position, p) ==
            SummariesFrom(d, position + |EventsOctets(es)|, p.(summaries := p.summaries + ReadAll(es)))
    decreases |es|
  {
    hide At, SummariesFrom, EventOctets, Read;
    if es == [] {
      assert p.summaries + ReadAll(es) == p.summaries;
    } else {
      AtSplit(d, position, EventOctets(es[0]), EventsOctets(es[1..]));
      EventAt(d, position, p, es[0]);
      EventsAt(d, position + |EventOctets(es[0])|, With(p, Read(es[0])), es[1..]);
      assert p.summaries + [Read(es[0])] + ReadAll(es[1..]) == p.summaries + ReadAll(es);
    }
  }

  /** Every GetEventInformation-ACK is read back: each summary, field by field and in order, and whether
      there are more events. */
  lemma SummariesRoundTrip(invokeId: byte, es: seq<Event>, more: bool)
    requires forall i | 0 <= i < |es| :: es[i].Valid()
    ensures var apdu := EventInformationAck(invokeId, es, more);
            SummariesFrom(Slice(apdu, 3, |apdu|), 0, START) == Ok(Progress(ReadAll(es), Some(more), false))
  {
    hide At, SummariesFrom, EventsOctets, Tagged, ReadTag, FromBytes;
    var a, b, c, e := Opening(0), EventsOctets(es), Closing(0), Tagged(1, true, [if more then 1 else 0]);
    var apdu := EventInformationAck(invokeId, es, more);
    var d := a + (b + (c + e));
    assert Slice(apdu, 3, |apdu|) == d;
    Elements.AtWhole(d);
    AtSplit(d, 0, a, b + (c + e));
    AtSplit(d, 1, b, c + e);
    AtSplit(d, 1 + |b|, c, e);
    OpeningElement(0);
    ElementAt(d, 0, a, 0, true, Open, []);
    var p := START.(inList := true);
    TurnStep(d, 0, START, ReadTag(d, 0).value, p, 1);
    EventsAt(d, 1, p, es);
    assert [] + ReadAll(es) == ReadAll(es);
    ClosingElement(0);
    ElementAt(d, 1 + |b|, c, 0, true, Close, []);
    var q := Progress(ReadAll(es), None, true);
    TurnStep(d, 1 + |b|, q, ReadTag(d, 1 + |b|).value, q.(inList := false), 2 + |b|);
    TaggedElement(1, true, [if more then 1 else 0]);
    ElementAt(d, 2 + |b|, e, 1, true, Value, [if more then 1 else 0]);
    OneOctet(if more then 1 else 0);
    TurnStep(d, 2 + |b|, q.(inList := false), ReadTag(d, 2 + |b|).value, Progress(ReadAll(es), Some(more), false), |d|);
    AtEnd(d, Progress(ReadAll(es), Some(more), false));
  }

  lemma AtEnd(d: octets, p: Progress)
    ensures SummariesFrom(d, |d|, p) == Ok(p)
  {
  }
}
