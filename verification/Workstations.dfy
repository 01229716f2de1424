/** The operator workstation (workstation.py) as two actors over shared lists: a receiver that
    keeps notifications, acknowledges them and queues responses, and a requester that takes the
    response with its invoke id. A step is what one actor does while it holds the lock, or one
    send; a schedule is any sequence of steps. */
module Workstations {
  import opened Octets
  import opened Frames
  import opened Walkers
  import Alarms

  // ---- what a datagram is to the receiver ----

  /** Fatal: decoding it raises, which ends the receiver thread. Bare: a response too short to
      hold an invoke id. */
  datatype Kind = Ignored | Noted(confirmed: bool, invokeId: Option<byte>) | Response(id: byte) | Bare | Fatal

  predicate IsEventNotification(f: Frame) {
    && NetworkMessage(f).None?
    && match PduType(f)
       case Some(0) => Service(f) == Ok(Some(Alarms.SERVICE_CONFIRMED_EVENT_NOTIFICATION))
       case Some(1) => Service(f) == Ok(Some(Alarms.SERVICE_UNCONFIRMED_EVENT_NOTIFICATION))
       case _ => false
  }

  /** RESPONSE_TYPES */
  predicate IsResponseType(pduType: byte) {
    pduType in {PDU_SIMPLE_ACK, PDU_COMPLEX_ACK, PDU_ERROR, PDU_REJECT, PDU_ABORT}
  }

  function Classify(data: octets): Kind {
    match DecodeFrame(data)
    case Raise(_) => Fatal
    case Ok(f) =>
      if !f.ok || NetworkMessage(f).Some? then Ignored
      else if IsEventNotification(f) then
        match Alarms.DecodeNotification(Payload(f))
        case Raise(_) => Fatal
        case Ok(d) => Noted(d.confirmed, d.invokeId)
      else if PduType(f).Some? && IsResponseType(PduType(f).value) then
        if |Payload(f)| > 1 then Response(Payload(f)[1]) else Bare
      else Ignored
  }

  // ---- the state ----

  /** A request in progress: its number, and how many datagrams had arrived when it began. */
  datatype Waiting = Waiting(number: nat, since: nat)

  /** Which response was handed to which request. */
  datatype Delivery = Delivery(request: Waiting, arrival: nat)

  /** What was decided about a confirmed notification: acknowledged or not. */
  datatype Decision = Decision(arrival: nat, answered: bool)

  /** Lists hold positions in `arrived`, so that equal datagrams stay distinct. `pending` is a
      notification the receiver has kept but not yet decided about. */
  datatype Station = Station(
    arrived: seq<octets>, notifications: seq<nat>, responses: seq<nat>, pending: Option<nat>, alive: bool,
    answering: bool, decisions: seq<Decision>, acks: seq<octets>,
    invokeId: byte, requests: nat, waiting: Option<Waiting>, delivered: seq<Delivery>)

  const START := Station([], [], [], None, true, true, [], [], 0, 0, None, [])

  datatype Step =
    | Receive(data: octets)
    | Decide
    | SetAnswering(on: bool)
    | Begin
    | Poll
    | GiveUp

  function KindOf(s: Station, i: nat): Kind
    requires i < |s.arrived|
  {
    Classify(s.arrived[i])
  }

  function AckDatagram(invokeId: byte): octets {
    ApduFrame(None, false, [0x20, invokeId, Alarms.SERVICE_CONFIRMED_EVENT_NOTIFICATION])
  }

  /** The receiver on one datagram, up to the notification or response it appends. */
  function DoReceive(s: Station, data: octets): Station {
    if !s.alive || s.pending.Some? then s else
    var i := |s.arrived|;
    var t := s.(arrived := s.arrived + [data]);
    match Classify(data)
    case Noted(_, _) => t.(notifications := t.notifications + [i], pending := Some(i))
    case Response(_) => t.(responses := t.responses + [i])
    case Bare => t.(responses := t.responses + [i])
    case Fatal => t.(alive := false)
    case Ignored => t
  }

  /** The receiver after it has kept a notification: a confirmed one is answered while
      answering is on. */
  function DoDecide(s: Station): Station {
    if s.pending.None? || s.pending.value >= |s.arrived| then s else
    var i := s.pending.value;
    var t := s.(pending := None);
    match KindOf(s, i)
    case Noted(true, Some(id)) =>
      t.(decisions := t.decisions + [Decision(i, s.answering)],
         acks := if s.answering then t.acks + [AckDatagram(id)] else t.acks)
    case _ => t
  }

  /** The responses that do not carry `id`, in order. */
  function Purge(s: Station, responses: seq<nat>, id: byte): seq<nat> {
    if responses == [] then [] else
    var last := responses[|responses| - 1];
    Purge(s, responses[..|responses| - 1], id) +
    (if last < |s.arrived| && KindOf(s, last) == Response(id) then [] else [last])
  }

  /** A response without an invoke id is in the queue; looking at it raises. */
  predicate HasBare(s: Station) {
    exists k | 0 <= k < |s.responses| :: s.responses[k] < |s.arrived| && KindOf(s, s.responses[k]).Bare?
  }

  /** The start of request(): a new id, and what was queued under that id is dropped. */
  function DoBegin(s: Station): Station {
    if s.waiting.Some? then s else
    var id := (s.invokeId + 1) % 256;
    var t := s.(invokeId := id, requests := s.requests + 1);
    if HasBare(s) then t
    else t.(responses := Purge(s, s.responses, id), waiting := Some(Waiting(s.requests + 1, |s.arrived|)))
  }

  predicate Stops(s: Station, i: nat, id: byte) {
    i < |s.arrived| && (KindOf(s, i) == Response(id) || KindOf(s, i).Bare?)
  }

  /** Where a scan of the queue from `k` stops: the first response with `id`, or one without any. */
  function FindFrom(s: Station, id: byte, k: nat): (r: nat)
    requires k <= |s.responses|
    ensures k <= r <= |s.responses|
    ensures r < |s.responses| ==> Stops(s, s.responses[r], id)
    decreases |s.responses| - k
  {
    if k == |s.responses| || Stops(s, s.responses[k], id) then k else FindFrom(s, id, k + 1)
  }

  /** The requester woken up: it takes the first response with its id, if there is one; a response
      without an id on the way ends the request with an exception. */
  function DoPoll(s: Station): Station {
    if s.waiting.None? then s else
    var k := FindFrom(s, s.invokeId, 0);
    if k == |s.responses| then s
    else if KindOf(s, s.responses[k]).Bare? then s.(waiting := None)
    else s.(responses := s.responses[..k] + s.responses[k + 1..], waiting := None,
            delivered := s.delivered + [Delivery(s.waiting.value, s.responses[k])])
  }

  function Next(s: Station, step: Step): Station {
    match step
    case Receive(data) => DoReceive(s, data)
    case Decide => DoDecide(s)
    case SetAnswering(on) => s.(answering := on)
    case Begin => DoBegin(s)
    case Poll => DoPoll(s)
    case GiveUp => s.(waiting := None)
  }

  function Run(schedule: seq<Step>): Station {
    if schedule == [] then START else Next(Run(schedule[..|schedule| - 1]), schedule[|schedule| - 1])
  }

  // ---- the receiver: notifications and acknowledgements ----

  /** The positions of the event notifications among the datagrams that arrived. */
  function NotedAt(arrived: seq<octets>): seq<nat> {
    if arrived == [] then [] else
    var k := |arrived| - 1;
    NotedAt(arrived[..k]) + (if Classify(arrived[k]).Noted? then [k] else [])
  }

  predicate IsConfirmed(kind: Kind) { kind.Noted? && kind.confirmed && kind.invokeId.Some? }

  /** The positions of the confirmed ones, which carry an invoke id. */
  function ConfirmedAt(arrived: seq<octets>): seq<nat> {
    if arrived == [] then [] else
    var k := |arrived| - 1;
    ConfirmedAt(arrived[..k]) + (if IsConfirmed(Classify(arrived[k])) then [k] else [])
  }

  function Arrivals(decisions: seq<Decision>): seq<nat> {
    if decisions == [] then [] else Arrivals(decisions[..|decisions| - 1]) + [decisions[|decisions| - 1].arrival]
  }

  /** One acknowledgement, with the invoke id of the notification, for each decision to answer. */
  function AcksOf(arrived: seq<octets>, decisions: seq<Decision>): seq<octets> {
    if decisions == [] then [] else
    var last := decisions[|decisions| - 1];
    AcksOf(arrived, decisions[..|decisions| - 1]) +
    (if last.answered && last.arrival < |arrived| && IsConfirmed(Classify(arrived[last.arrival]))
     then [AckDatagram(Classify(arrived[last.arrival]).invokeId.value)] else [])
  }

  /** Every datagram but a pending last one has been dealt with. */
  function Settled(s: Station): seq<octets> {
    if s.pending.Some? && s.arrived != [] then s.arrived[..|s.arrived| - 1] else s.arrived
  }

  ghost predicate ReceiverInv(s: Station) {
    && s.notifications == NotedAt(s.arrived)
    && (s.pending.Some? ==>
          s.arrived != [] && s.pending.value == |s.arrived| - 1 && Classify(s.arrived[s.pending.value]).Noted?)
    && Arrivals(s.decisions) == ConfirmedAt(Settled(s))
    && s.acks == AcksOf(s.arrived, s.decisions)
    && forall i | 0 <= i < |s.decisions| :: s.decisions[i].arrival < |s.arrived|
  }

  lemma {:induction false} AcksOfMore(arrived: seq<octets>, data: octets, decisions: seq<Decision>)
    requires forall i | 0 <= i < |decisions| :: decisions[i].arrival < |arrived|
    ensures AcksOf(arrived + [data], decisions) == AcksOf(arrived, decisions)
  {
    hide Classify, AckDatagram;
    if decisions != [] {
      AcksOfMore(arrived, data, decisions[..|decisions| - 1]);
    }
  }

  lemma NotedMore(arrived: seq<octets>, data: octets)
    ensures NotedAt(arrived + [data]) == NotedAt(arrived) + (if Classify(data).Noted? then [|arrived|] else [])
    ensures ConfirmedAt(arrived + [data]) ==
            ConfirmedAt(arrived) + (if IsConfirmed(Classify(data)) then [|arrived|] else [])
  {
    hide Classify;
    assert (arrived + [data])[..|arrived|] == arrived;
  }

  lemma DecideMore(arrived: seq<octets>, decisions: seq<Decision>, d: Decision)
    requires d.arrival < |arrived|
    ensures Arrivals(decisions + [d]) == Arrivals(decisions) + [d.arrival]
    ensures IsConfirmed(Classify(arrived[d.arrival])) ==>
              AcksOf(arrived, decisions + [d]) ==
              AcksOf(arrived, decisions) + (if d.answered
                  then [AckDatagram(Classify(arrived[d.arrival]).invokeId.value)] else [])
  {
    hide Classify, AckDatagram;
    assert (decisions + [d])[..|decisions|] == decisions;
  }

  lemma ReceiveKeepsReceiver(s: Station, data: octets)
    requires ReceiverInv(s)
    ensures ReceiverInv(DoReceive(s, data))
  {
    hide Classify, AckDatagram, NotedAt, ConfirmedAt, AcksOf, Arrivals;
    if s.alive && s.pending.None? {
      NotedMore(s.arrived, data);
      AcksOfMore(s.arrived, data, s.decisions);
      assert (s.arrived + [data])[..|s.arrived|] == s.arrived;
    }
  }

  lemma DecideKeepsReceiver(s: Station)
    requires ReceiverInv(s)
    ensures ReceiverInv(DoDecide(s))
  {
    hide Classify, AckDatagram, NotedAt, ConfirmedAt, AcksOf, Arrivals;
    if s.pending.Some? {
      var k := |s.arrived| - 1;
      assert s.arrived == s.arrived[..k] + [s.arrived[k]];
      NotedMore(s.arrived[..k], s.arrived[k]);
      DecideMore(s.arrived, s.decisions, Decision(k, s.answering));
    }
  }

  lemma NextKeepsReceiver(s: Station, step: Step)
    requires ReceiverInv(s)
    ensures ReceiverInv(Next(s, step))
  {
    hide Classify, AckDatagram, DoReceive, DoDecide, NotedAt, ConfirmedAt, AcksOf, Arrivals, Purge, FindFrom, HasBare;
    match step
    case Receive(data) => ReceiveKeepsReceiver(s, data);
    case Decide => DecideKeepsReceiver(s);
    case _ =>
  }

  // ---- the requester: who gets which response ----

  ghost predicate Increasing(r: seq<nat>) { forall i, j | 0 <= i < j < |r| :: r[i] < r[j] }

  predicate IsQueued(s: Station, i: nat) { i < |s.arrived| && (KindOf(s, i).Response? || KindOf(s, i).Bare?) }

  ghost predicate QueueInv(s: Station) {
    && Increasing(s.responses)
    && (forall k | 0 <= k < |s.responses| :: IsQueued(s, s.responses[k]))
  }

  /** Each delivery is of a response with the request's id that arrived after the request began. */
  predicate GoodDelivery(s: Station, d: Delivery) {
    && d.arrival < |s.arrived| && KindOf(s, d.arrival) == Response(d.request.number % 256)
    && d.request.since <= d.arrival && d.request.number <= s.requests
  }

  ghost predicate DeliveryInv(s: Station) {
    && (forall k | 0 <= k < |s.delivered| :: GoodDelivery(s, s.delivered[k]) && s.delivered[k].arrival !in s.responses)
    && (forall i, j | 0 <= i < j < |s.delivered| ::
          s.delivered[i].arrival != s.delivered[j].arrival
              && s.delivered[i].request.number < s.delivered[j].request.number)
  }

  /** While a request waits, what is queued under its id arrived after it began. */
  ghost predicate WaitingInv(s: Station) {
    && s.invokeId == s.requests % 256
    && (s.waiting.Some? ==>
          && s.waiting.value.number == s.requests && s.waiting.value.since <= |s.arrived|
          && (forall k | 0 <= k < |s.delivered| :: s.delivered[k].request.number < s.requests)
          && forall k | 0 <= k < |s.responses| :: Fresh(s, s.responses[k]))
  }

  predicate Fresh(s: Station, i: nat)
    requires s.waiting.Some?
  {
    i < |s.arrived| && KindOf(s, i) == Response(s.invokeId) ==> s.waiting.value.since <= i
  }

  ghost predicate RequesterInv(s: Station) { QueueInv(s) && DeliveryInv(s) && WaitingInv(s) }

  lemma IncreasingMore(r: seq<nat>, k: nat)
    requires Increasing(r) && forall i | i in r :: i < k
    ensures Increasing(r + [k])
  {
    forall i, j | 0 <= i < j < |r + [k]|
      ensures (r + [k])[i] < (r + [k])[j]
    {
      assert r[i] in r;
    }
  }

  /** More datagrams, or less of a wait, do not disturb what was queued and delivered. */
  ghost predicate Grown(s: Station, t: Station) {
    && s.arrived <= t.arrived && t.requests == s.requests && t.invokeId == s.invokeId && t.delivered == s.delivered
    && (t.waiting.None? || t.waiting == s.waiting)
  }

  lemma GrownKinds(s: Station, t: Station, i: nat)
    requires Grown(s, t) && i < |s.arrived|
    ensures KindOf(t, i) == KindOf(s, i)
  {
    hide Classify;
  }

  lemma GrownDeliveries(s: Station, t: Station)
    requires DeliveryInv(s) && Grown(s, t)
    requires forall i | i in t.responses :: i in s.responses || i >= |s.arrived|
    ensures DeliveryInv(t)
  {
    hide Classify;
    forall k | 0 <= k < |t.delivered|
      ensures GoodDelivery(t, t.delivered[k]) && t.delivered[k].arrival !in t.responses
    {
      assert GoodDelivery(s, s.delivered[k]) && s.delivered[k].arrival !in s.responses;
      GrownKinds(s, t, s.delivered[k].arrival);
    }
  }

  lemma GrownQueue(s: Station, t: Station)
    requires RequesterInv(s) && Grown(s, t)
    requires t.responses == s.responses || (t.responses == s.responses + [|s.arrived|] && IsQueued(t, |s.arrived|))
    ensures RequesterInv(t)
  {
    hide Classify, KindOf;
    forall k | 0 <= k < |t.responses|
      ensures IsQueued(t, t.responses[k]) && (t.waiting.Some? ==> Fresh(t, t.responses[k]))
    {
      if k < |s.responses| {
        assert IsQueued(s, s.responses[k]) && (s.waiting.Some? ==> Fresh(s, s.responses[k]));
        GrownKinds(s, t, s.responses[k]);
      }
    }
    assert forall i | i in s.responses :: i < |s.arrived|;
    IncreasingMore(s.responses, |s.arrived|);
    GrownDeliveries(s, t);
  }

  lemma ReceiveKeepsRequester(s: Station, data: octets)
    requires RequesterInv(s)
    ensures RequesterInv(DoReceive(s, data))
  {
    hide Classify, RequesterInv;
    var t := DoReceive(s, data);
    assert s.arrived <= t.arrived;
    GrownQueue(s, t);
  }

  lemma {:induction false} Purged(s: Station, r: seq<nat>, id: byte)
    requires Increasing(r)
    ensures var p := Purge(s, r, id);
            && Increasing(p)
            && forall i :: i in p <==> i in r && !(i < |s.arrived| && KindOf(s, i) == Response(id))
  {
    hide Classify;
    if r != [] {
      var k := |r| - 1;
      Purged(s, r[..k], id);
      var before := Purge(s, r[..k], id);
      forall i | i in before
        ensures i < r[k]
      {
        assert i in r[..k];
      }
      assert forall i :: i in r <==> i in r[..k] || i == r[k];
      IncreasingMore(before, r[k]);
    }
  }

  lemma BeginKeepsRequester(s: Station)
    requires RequesterInv(s)
    ensures RequesterInv(DoBegin(s))
  {
    hide Classify, Purge, HasBare;
    var t := DoBegin(s);
    if s.waiting.None? && HasBare(s) {
      assert forall k | 0 <= k < |s.delivered| :: GoodDelivery(s, s.delivered[k]) ==> GoodDelivery(t, t.delivered[k]);
      assert forall k | 0 <= k < |s.responses| :: IsQueued(s, s.responses[k]) ==> IsQueued(t, t.responses[k]);
    } else if s.waiting.None? {
      Purged(s, s.responses, t.invokeId);
      forall k | 0 <= k < |t.responses|
        ensures IsQueued(t, t.responses[k]) && Fresh(t, t.responses[k]) && t.responses[k] in s.responses
      {
        assert t.responses[k] in t.responses;
        var j :| 0 <= j < |s.responses| && s.responses[j] == t.responses[k];
      }
      forall k | 0 <= k < |t.delivered|
        ensures GoodDelivery(t, t.delivered[k]) && t.delivered[k].arrival !in t.responses
                && t.delivered[k].request.number < t.requests
      {
        assert GoodDelivery(s, s.delivered[k]) && s.delivered[k].arrival !in s.responses;
      }
    }
  }

  lemma PollKeepsRequester(s: Station)
    requires RequesterInv(s)
    ensures RequesterInv(DoPoll(s))
  {
    hide Classify, FindFrom;
    if s.waiting.Some? {
      var k := FindFrom(s, s.invokeId, 0);
      if k < |s.responses| && KindOf(s, s.responses[k]).Bare? {
        GrownQueue(s, DoPoll(s));
      } else if k < |s.responses| {
        var t := DoPoll(s);
        var taken := s.responses[k];
        assert Fresh(s, taken);
        forall j | 0 <= j < |t.responses|
          ensures t.responses[j] in s.responses && t.responses[j] != taken && IsQueued(t, t.responses[j])
        {
          assert t.responses[j] == s.responses[if j < k then j else j + 1];
        }
        forall j | 0 <= j < |t.delivered|
          ensures GoodDelivery(t, t.delivered[j]) && t.delivered[j].arrival !in t.responses
          ensures j < |s.delivered| ==> t.delivered[j].arrival != taken && t.delivered[j].request.number < s.requests
        {
          if j < |s.delivered| {
            assert GoodDelivery(s, s.delivered[j]) && s.delivered[j].arrival !in s.responses;
          }
        }
      }
    }
  }

  lemma NextKeepsRequester(s: Station, step: Step)
    requires RequesterInv(s)
    ensures RequesterInv(Next(s, step))
  {
    hide Classify, DoReceive, DoBegin, DoPoll, QueueInv, DeliveryInv, WaitingInv;
    match step
    case Receive(data) => ReceiveKeepsRequester(s, data);
    case Begin => BeginKeepsRequester(s);
    case Poll => PollKeepsRequester(s);
    case _ => QuietStep(s, step);
  }

  lemma QuietStep(s: Station, step: Step)
    requires RequesterInv(s) && (step.Decide? || step.SetAnswering? || step.GiveUp?)
    ensures RequesterInv(Next(s, step))
  {
    hide Classify, RequesterInv;
    GrownQueue(s, Next(s, step));
  }

  // ---- every schedule ----

  lemma {:induction false} EverySchedule(schedule: seq<Step>)
    ensures ReceiverInv(Run(schedule)) && RequesterInv(Run(schedule))
  {
    hide Next, Classify;
    if schedule != [] {
      var k := |schedule| - 1;
      EverySchedule(schedule[..k]);
      NextKeepsReceiver(Run(schedule[..k]), schedule[k]);
      NextKeepsRequester(Run(schedule[..k]), schedule[k]);
    }
  }

  /** Over every schedule: no response is handed to two requests, no request gets two, and each
      carries the id of the request it is handed to and arrived after that request began. */
  lemma ResponsesAreExclusive(schedule: seq<Step>, i: nat, j: nat)
    requires var s := Run(schedule); i < |s.delivered| && j < |s.delivered|
    ensures var s := Run(schedule); var a, b := s.delivered[i], s.delivered[j];
            && (i != j ==> a.arrival != b.arrival && a.request.number != b.request.number)
            && a.arrival < |s.arrived| && Classify(s.arrived[a.arrival]) == Response(a.request.number % 256)
            && a.request.since <= a.arrival && a.arrival !in s.notifications
  {
    hide Run, Classify, NotedAt;
    EverySchedule(schedule);
    var s := Run(schedule);
    assert GoodDelivery(s, s.delivered[i]);
    NotedIsNoted(s.arrived, s.delivered[i].arrival);
  }

  lemma {:induction false} NotedIsNoted(arrived: seq<octets>, i: nat)
    ensures i in NotedAt(arrived) <==> i < |arrived| && Classify(arrived[i]).Noted?
    ensures Increasing(NotedAt(arrived)) && forall j | j in NotedAt(arrived) :: j < |arrived|
  {
    hide Classify;
    if arrived != [] {
      var k := |arrived| - 1;
      NotedIsNoted(arrived[..k], i);
      IncreasingMore(NotedAt(arrived[..k]), k);
    }
  }

  lemma {:induction false} ConfirmedIsConfirmed(arrived: seq<octets>, i: nat)
    ensures i in ConfirmedAt(arrived) <==>
            i < |arrived| && IsConfirmed(Classify(arrived[i]))
    ensures Increasing(ConfirmedAt(arrived)) && forall j | j in ConfirmedAt(arrived) :: j < |arrived|
  {
    hide Classify;
    if arrived != [] {
      var k := |arrived| - 1;
      ConfirmedIsConfirmed(arrived[..k], i);
      IncreasingMore(ConfirmedAt(arrived[..k]), k);
    }
  }

  /** Over every schedule: the notifications kept are exactly those that arrived, each once and in
      the order of arrival, and none of them ever enters the queue of responses. */
  lemma NotificationsAreKept(schedule: seq<Step>, i: nat)
    ensures var s := Run(schedule);
            && Increasing(s.notifications)
            && (i in s.notifications <==> i < |s.arrived| && Classify(s.arrived[i]).Noted?)
            && !(i in s.notifications && i in s.responses)
  {
    hide Run, Classify, NotedAt;
    EverySchedule(schedule);
    var s := Run(schedule);
    NotedIsNoted(s.arrived, i);
    if i in s.responses {
      var k :| 0 <= k < |s.responses| && s.responses[k] == i;
      assert IsQueued(s, s.responses[k]);
    }
  }

  /** Over every schedule: a decision is taken exactly once about every confirmed notification but
      a last one still pending, in the order of arrival, and the acknowledgements sent are one,
      with its own invoke id, for each of those decided to be answered. */
  lemma AcknowledgedOnce(schedule: seq<Step>, i: nat)
    ensures var s := Run(schedule);
            && Increasing(Arrivals(s.decisions)) && s.acks == AcksOf(s.arrived, s.decisions)
            && (i in Arrivals(s.decisions) <==>
                i < |s.arrived| && s.pending != Some(i) && IsConfirmed(Classify(s.arrived[i])))
  {
    hide Run, Classify, ConfirmedAt, AcksOf, Arrivals;
    EverySchedule(schedule);
    ConfirmedIsConfirmed(Settled(Run(schedule)), i);
  }

  /** `d` is what the receiver decided in step `k`: about the notification pending then, and to
      answer it exactly when answering was on then. */
  ghost predicate DecidedAt(schedule: seq<Step>, k: nat, d: Decision) {
    && k < |schedule| && schedule[k] == Decide
    && Run(schedule[..k]).pending == Some(d.arrival) && d.answered == Run(schedule[..k]).answering
  }

  lemma NewDecision(s: Station, step: Step, d: Decision)
    requires d in Next(s, step).decisions && d !in s.decisions
    ensures step == Decide && s.pending == Some(d.arrival) && d.answered == s.answering
  {
    hide Classify, AckDatagram, Purge, HasBare, FindFrom;
  }

  /** Over every schedule: every decision was taken in a step of the receiver, and it is to answer
      if and only if answering was on in that step. */
  lemma {:induction false} AnsweredIffAnswering(schedule: seq<Step>, d: Decision)
    requires d in Run(schedule).decisions
    ensures exists k: nat :: DecidedAt(schedule, k, d)
  {
    hide Next;
    var last := |schedule| - 1;
    var before := schedule[..last];
    if d in Run(before).decisions {
      AnsweredIffAnswering(before, d);
      var k: nat :| DecidedAt(before, k, d);
      assert before[..k] == schedule[..k];
      assert DecidedAt(schedule, k, d);
    } else {
      NewDecision(Run(before), schedule[last], d);
      assert DecidedAt(schedule, last, d);
    }
  }

  ghost predicate NeverOff(schedule: seq<Step>) {
    forall k | 0 <= k < |schedule| :: schedule[k] != SetAnswering(false)
  }

  lemma {:induction false} StaysOn(schedule: seq<Step>)
    requires NeverOff(schedule)
    ensures Run(schedule).answering
  {
    hide Classify, AckDatagram;
    if schedule != [] {
      StaysOn(schedule[..|schedule| - 1]);
    }
  }

  /** The acknowledgements of the confirmed notifications at these positions. */
  function AcksAt(arrived: seq<octets>, positions: seq<nat>): seq<octets> {
    if positions == [] then [] else
    var k := positions[|positions| - 1];
    AcksAt(arrived, positions[..|positions| - 1]) +
    (if k < |arrived| && IsConfirmed(Classify(arrived[k])) then [AckDatagram(Classify(arrived[k]).invokeId.value)]
        else [])
  }

  lemma {:induction false} AllAnswered(arrived: seq<octets>, decisions: seq<Decision>)
    requires forall i | 0 <= i < |decisions| :: decisions[i].answered
    ensures AcksOf(arrived, decisions) == AcksAt(arrived, Arrivals(decisions))
  {
    hide Classify, AckDatagram;
    if decisions != [] {
      AllAnswered(arrived, decisions[..|decisions| - 1]);
    }
  }

  /** Over every schedule in which answering is never switched off: the acknowledgements sent are
      exactly one for each confirmed notification that arrived and is not still pending, in the
      order of arrival, each with its own invoke id. */
  lemma EveryNotificationIsAcknowledged(schedule: seq<Step>)
    requires NeverOff(schedule)
    ensures var s := Run(schedule); s.acks == AcksAt(s.arrived, ConfirmedAt(Settled(s)))
  {
    hide Run, Classify, ConfirmedAt, AcksOf, Arrivals, AcksAt;
    EverySchedule(schedule);
    var s := Run(schedule);
    forall i | 0 <= i < |s.decisions|
      ensures s.decisions[i].answered
    {
      AnsweredIffAnswering(schedule, s.decisions[i]);
      var k: nat :| DecidedAt(schedule, k, s.decisions[i]);
      StaysOn(schedule[..k]);
    }
    AllAnswered(s.arrived, s.decisions);
  }

  /** What is sent: a SimpleACK of ConfirmedEventNotification with this invoke id. */
  lemma AckHolds(invokeId: byte)
    ensures var f := DecodeFrame(AckDatagram(invokeId));
            f.Ok? && f.value.ok && NetworkMessage(f.value).None? && Payload(f.value) == [0x20, invokeId, 2]
  {
    hide DecodeFrame, ApduFrame;
    ApduFrameRoundTrip(None, false, [0x20, invokeId, 2]);
  }

  /** What a confirmed notification is, octet by octet: a Confirmed-Request of service 2, its invoke
      id in the third octet. */
  lemma ConfirmedHolds(data: octets)
    requires IsConfirmed(Classify(data))
    ensures DecodeFrame(data).Ok?
    ensures var p := Payload(DecodeFrame(data).value);
            |p| > 3 && p[0] / 16 == 0 && p[3] == 2 && Classify(data).invokeId == Some(p[2])
  {
    hide DecodeFrame, Alarms.DecodeFrom;
  }

  /** The notifications decided to be answered, in order. */
  function AnsweredAt(decisions: seq<Decision>): seq<nat> {
    if decisions == [] then [] else
    var last := decisions[|decisions| - 1];
    AnsweredAt(decisions[..|decisions| - 1]) + (if last.answered then [last.arrival] else [])
  }

  /** The `k`-th acknowledgement is for the `k`-th notification to be answered: its payload is a
      SimpleACK of service 2 with the very octet that is that notification's invoke id. */
  ghost predicate AckFor(ack: octets, notification: octets) {
    && DecodeFrame(ack).Ok? && DecodeFrame(notification).Ok?
    && var p := Payload(DecodeFrame(notification).value);
    && |p| > 3 && p[0] / 16 == 0 && p[3] == 2 && Payload(DecodeFrame(ack).value) == [0x20, p[2], 2]
  }

  lemma {:induction false} AcksAreFor(arrived: seq<octets>, decisions: seq<Decision>)
    requires forall i | 0 <= i < |decisions| ::
               decisions[i].arrival < |arrived| && IsConfirmed(Classify(arrived[decisions[i].arrival]))
    ensures |AcksOf(arrived, decisions)| == |AnsweredAt(decisions)|
    ensures forall k | 0 <= k < |AnsweredAt(decisions)| ::
              && AnsweredAt(decisions)[k] < |arrived|
              && AckFor(AcksOf(arrived, decisions)[k], arrived[AnsweredAt(decisions)[k]])
  {
    hide Classify, AckDatagram, DecodeFrame;
    if decisions != [] {
      AcksAreFor(arrived, decisions[..|decisions| - 1]);
      var last := decisions[|decisions| - 1];
      ConfirmedHolds(arrived[last.arrival]);
      AckHolds(Classify(arrived[last.arrival]).invokeId.value);
    }
  }

  /** Over every schedule: the acknowledgements sent are, one for one and in order, for the
      notifications decided to be answered, and each carries that notification's own invoke id. */
  lemma AcknowledgementsCarryIds(schedule: seq<Step>, k: nat)
    ensures var s := Run(schedule); var answered := AnsweredAt(s.decisions);
            && |s.acks| == |answered|
            && (k < |answered| ==> answered[k] < |s.arrived| && AckFor(s.acks[k], s.arrived[answered[k]]))
  {
    hide Run, Classify, AcksOf, Arrivals, AnsweredAt, AckFor;
    EverySchedule(schedule);
    var s := Run(schedule);
    forall i | 0 <= i < |s.decisions|
      ensures s.decisions[i].arrival < |s.arrived| && IsConfirmed(Classify(s.arrived[s.decisions[i].arrival]))
    {
      DecidedArrival(s.decisions, i);
      AcknowledgedOnce(schedule, s.decisions[i].arrival);
    }
    AcksAreFor(s.arrived, s.decisions);
  }

  lemma {:induction false} DecidedArrival(decisions: seq<Decision>, i: nat)
    requires i < |decisions|
    ensures decisions[i].arrival in Arrivals(decisions)
  {
    if i < |decisions| - 1 {
      DecidedArrival(decisions[..|decisions| - 1], i);
    }
  }

  // ---- exceptions ----

  /** Over every schedule: the receiver lives exactly until a datagram arrives that raises, which is
      then the last that arrives; and a response too short for an invoke id stays queued for good. */
  lemma {:induction false} AliveIff(schedule: seq<Step>)
    ensures var s := Run(schedule);
            && (s.alive <==> forall i | 0 <= i < |s.arrived| :: !Classify(s.arrived[i]).Fatal?)
            && (forall i | 0 <= i < |s.arrived| - 1 :: !Classify(s.arrived[i]).Fatal?)
            && (forall i | 0 <= i < |s.arrived| && Classify(s.arrived[i]).Bare? :: i in s.responses)
  {
    hide Classify, Next;
    if schedule != [] {
      var k := |schedule| - 1;
      AliveIff(schedule[..k]);
      AliveStep(Run(schedule[..k]), schedule[k]);
      forall i | 0 <= i < |Run(schedule).arrived| && Classify(Run(schedule).arrived[i]).Bare?
        ensures i in Run(schedule).responses
      {
        EverySchedule(schedule[..k]);
        BareStays(Run(schedule[..k]), schedule[k], i);
      }
    }
  }

  lemma AliveStep(s: Station, step: Step)
    ensures var t := Next(s, step);
            && s.arrived <= t.arrived && |t.arrived| <= |s.arrived| + 1
            && (t.arrived == s.arrived ==> t.alive == s.alive)
            && (t.arrived != s.arrived ==> s.alive && (t.alive <==> !Classify(t.arrived[|s.arrived|]).Fatal?))
  {
    hide Classify, AckDatagram, Purge, HasBare, FindFrom;
  }

  lemma BareStays(s: Station, step: Step, i: nat)
    requires RequesterInv(s) && i < |Next(s, step).arrived| && Classify(Next(s, step).arrived[i]).Bare?
    requires i < |s.arrived| ==> i in s.responses
    ensures i in Next(s, step).responses
  {
    hide Classify, AckDatagram, Purge, HasBare, FindFrom;
    match step
    case Begin =>
      Purged(s, s.responses, DoBegin(s).invokeId);
    case Poll =>
      if s.waiting.Some? {
        PollKeepsOthers(s, i);
        PollTakesResponses(s, i);
      }
    case _ =>
  }

  lemma PollTakesResponses(s: Station, i: nat)
    requires RequesterInv(s) && s.waiting.Some? && i < |s.arrived| && KindOf(s, i).Bare? && i in s.responses
    ensures i in DoPoll(s).responses
  {
    hide Classify, FindFrom;
    var k := FindFrom(s, s.invokeId, 0);
    var t := DoPoll(s);
    if t.responses != s.responses {
      var j :| 0 <= j < |s.responses| && s.responses[j] == i;
      if j < k {
        assert t.responses[j] == i;
      } else {
        assert j != k;
        assert t.responses[j - 1] == i;
      }
    }
  }

  /** Over every schedule: the receiver that has decided is free for the next datagram. */
  lemma DecideFrees(schedule: seq<Step>)
    ensures DoDecide(Run(schedule)).pending.None?
  {
    hide Run, Classify, AckDatagram, NotedAt, ConfirmedAt, AcksOf, Arrivals;
    EverySchedule(schedule);
  }

  /** While such a response is queued every new request ends at once, its id used up; and a request
      whose time is over waits no more. */
  lemma RequestsEnd(s: Station, on: bool)
    ensures s.waiting.None? && HasBare(s) ==>
              DoBegin(s) == s.(invokeId := (s.invokeId + 1) % 256, requests := s.requests + 1)
    ensures s.waiting.None? && !HasBare(s) ==>
              && DoBegin(s).waiting == Some(Waiting(s.requests + 1, |s.arrived|))
              && DoBegin(s).invokeId == (s.invokeId + 1) % 256
    ensures Next(s, GiveUp) == s.(waiting := None)
    ensures Next(s, SetAnswering(on)) == s.(answering := on)
  {
    hide Classify, Purge, HasBare, DoReceive, DoDecide, DoPoll;
  }

  /** What is neither an event notification nor a response is passed over: frames that are not ok,
      network layer messages, and requests of other services. */
  lemma OthersAreIgnored(data: octets)
    requires DecodeFrame(data).Ok?
    ensures var f := DecodeFrame(data).value; var p := Payload(f);
            var notification := (|p| > 3 && p[0] / 16 == 0 && p[3] == 2) || (|p| > 1 && p[0] / 16 == 1 && p[1] == 3);
            var response := |p| > 0 && p[0] / 16 in {2, 3, 5, 6, 7};
            Classify(data).Ignored? <==> !f.ok || NetworkMessage(f).Some? || !(notification || response)
  {
    hide DecodeFrame, Alarms.DecodeNotification;
  }

  // ---- what the receiver makes of what a device sends ----

  /** A notification, framed, is kept as what it is, with its invoke id if it is confirmed. */
  lemma NotificationIsNoted(a: Alarms.Alarm, invokeId: Option<byte>, destination: Option<Address>, expectingReply: bool)
    requires a.Valid() && ValidAddress(destination)
    requires HeaderSize(destination) + |Alarms.EventNotification(a, invokeId)| < 0x1_0000
    ensures Classify(ApduFrame(destination, expectingReply, Alarms.EventNotification(a, invokeId)))
            == Noted(invokeId.Some?, invokeId)
  {
    hide DecodeFrame, ApduFrame, Alarms.EventNotification, Alarms.DecodeNotification;
    var apdu := Alarms.EventNotification(a, invokeId);
    ApduFrameRoundTrip(destination, expectingReply, apdu);
    NotificationOctets(a, invokeId);
    Alarms.NotificationRoundTrip(a, invokeId);
  }

  lemma NotificationOctets(a: Alarms.Alarm, invokeId: Option<byte>)
    requires a.Valid()
    ensures var apdu := Alarms.EventNotification(a, invokeId);
            if invokeId.Some? then |apdu| > 3 && apdu[0] / 16 == 0 && apdu[2] == invokeId.value && apdu[3] == 2
            else |apdu| > 1 && apdu[0] / 16 == 1 && apdu[1] == 3
  {
    hide Alarms.ItemsOctets, Alarms.Items;
  }

  /** Every response, framed, is queued under the id in its second octet. */
  lemma ResponseIsQueued(apdu: octets, destination: Option<Address>, expectingReply: bool)
    requires ValidAddress(destination) && HeaderSize(destination) + |apdu| < 0x1_0000
    requires |apdu| > 1 && apdu[0] / 16 in {2, 3, 5, 6, 7}
    ensures Classify(ApduFrame(destination, expectingReply, apdu)) == Response(apdu[1])
  {
    hide DecodeFrame, ApduFrame, Alarms.DecodeNotification;
    ApduFrameRoundTrip(destination, expectingReply, apdu);
  }

  // ---- no response is lost ----

  /** In step `k` a request began under the id of the queued response `i` and dropped it. */
  ghost predicate PurgedAt(schedule: seq<Step>, k: nat, i: nat) {
    && k < |schedule| && schedule[k] == Begin
    && var s, t := Run(schedule[..k]), Run(schedule[..k + 1]);
    && i in s.responses && i !in t.responses
    && i < |s.arrived| && i < |t.arrived| && KindOf(s, i) == Response(t.invokeId)
  }

  ghost predicate Delivered(s: Station, i: nat) {
    exists k | 0 <= k < |s.delivered| :: s.delivered[k].arrival == i
  }

  /** A step keeps a queued response queued, unless it begins a request under its id or hands it over. */
  lemma QueuedStays(s: Station, step: Step, i: nat)
    requires RequesterInv(s) && i in s.responses && i < |s.arrived|
    ensures var t := Next(s, step);
            i in t.responses || Delivered(t, i) || (step == Begin && KindOf(s, i) == Response(t.invokeId))
  {
    hide Classify, AckDatagram, Purge, HasBare, FindFrom;
    match step
    case Begin =>
      Purged(s, s.responses, DoBegin(s).invokeId);
    case Poll =>
      if s.waiting.Some? {
        PollKeepsOthers(s, i);
      }
    case _ =>
  }

  lemma PollKeepsOthers(s: Station, i: nat)
    requires s.waiting.Some? && i in s.responses
    ensures i in DoPoll(s).responses || Delivered(DoPoll(s), i)
  {
    hide Classify, FindFrom;
    var k := FindFrom(s, s.invokeId, 0);
    var t := DoPoll(s);
    if t.delivered != s.delivered {
      var j :| 0 <= j < |s.responses| && s.responses[j] == i;
      if j < k {
        assert t.responses[j] == i;
      } else if j > k {
        assert t.responses[j - 1] == i;
      } else {
        assert t.delivered[|s.delivered|].arrival == i;
      }
    }
  }

  lemma DeliveredStays(s: Station, step: Step, i: nat)
    requires Delivered(s, i)
    ensures Delivered(Next(s, step), i)
  {
    hide Classify, AckDatagram, Purge, HasBare, FindFrom;
    var k :| 0 <= k < |s.delivered| && s.delivered[k].arrival == i;
    assert Next(s, step).delivered[k] == s.delivered[k];
  }

  lemma ArrivedStays(s: Station, step: Step, i: nat)
    requires i < |Next(s, step).arrived|
    ensures i < |s.arrived| ==> KindOf(Next(s, step), i) == KindOf(s, i)
    ensures i >= |s.arrived| && KindOf(Next(s, step), i).Response? ==> i in Next(s, step).responses
  {
    hide AckDatagram, Purge, HasBare, FindFrom, Classify;
  }

  /** Over every schedule: a response that arrived is still queued, was handed to a request, or was
      dropped by a request that began later under the same id. None is lost otherwise. */
  lemma {:induction false} NoResponseIsLost(schedule: seq<Step>, i: nat)
    requires i < |Run(schedule).arrived| && KindOf(Run(schedule), i).Response?
    ensures i in Run(schedule).responses || Delivered(Run(schedule), i) || exists k: nat :: PurgedAt(schedule, k, i)
  {
    hide Classify, Next, KindOf, RequesterInv, ReceiverInv;
    if schedule != [] {
      var last := |schedule| - 1;
      var before := schedule[..last];
      var s := Run(before);
      assert schedule[..last + 1] == schedule;
      ArrivedStays(s, schedule[last], i);
      if i < |s.arrived| {
        NoResponseIsLost(before, i);
        if i in s.responses {
          EverySchedule(before);
          QueuedStays(s, schedule[last], i);
          if i !in Run(schedule).responses && schedule[last] == Begin
              && KindOf(s, i) == Response(Run(schedule).invokeId) {
            assert PurgedAt(schedule, last, i);
          }
        } else if Delivered(s, i) {
          DeliveredStays(s, schedule[last], i);
        } else {
          var k: nat :| PurgedAt(before, k, i);
          assert before[..k] == schedule[..k] && before[..k + 1] == schedule[..k + 1];
          assert PurgedAt(schedule, k, i);
        }
      }
    }
  }

  /** A requester woken up takes the first queued response with its id, and only that one; if one
      without an id stands before it, the request ends with an exception; while there is neither it
      goes on waiting. */
  lemma PollHandsOver(s: Station, k: nat)
    requires s.waiting.Some? && k <= |s.responses| && forall j | 0 <= j < k :: !Stops(s, s.responses[j], s.invokeId)
    ensures k == |s.responses| ==> DoPoll(s) == s
    ensures k < |s.responses| && s.responses[k] < |s.arrived| && KindOf(s, s.responses[k]).Bare? ==>
              DoPoll(s) == s.(waiting := None)
    ensures k < |s.responses| && s.responses[k] < |s.arrived| && KindOf(s, s.responses[k]) == Response(s.invokeId) ==>
              DoPoll(s) == s.(responses := s.responses[..k] + s.responses[k + 1..], waiting := None,
                              delivered := s.delivered + [Delivery(s.waiting.value, s.responses[k])])
  {
    hide Classify, FindFrom;
    FoundFirst(s, s.invokeId, 0);
    var r := FindFrom(s, s.invokeId, 0);
    if r < k {
      assert false;
    }
  }

  lemma {:induction false} FoundFirst(s: Station, id: byte, k: nat)
    requires k <= |s.responses|
    ensures forall j | k <= j < FindFrom(s, id, k) :: !Stops(s, s.responses[j], id)
    decreases |s.responses| - k
  {
    hide Stops;
    if k < |s.responses| && !Stops(s, s.responses[k], id) {
      FoundFirst(s, id, k + 1);
    }
  }
}
