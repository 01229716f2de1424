/** What every answer of the simulated peer keeps, over whole runs. */
module ServerRuns {
  import opened Octets
  import opened Values
  import opened Requests
  import opened Commands
  import opened Server

  /** The write an APDU makes the peer store, with whether it is a NULL; None when answering it
      stores nothing. */
  function Change(s: Peer, apdu: octets): Option<(WriteRequest, bool)> {
    if || ConfirmedService(apdu) != Some(SERVICE_WRITE_PROPERTY) || s.mode.Offline?
       || FailureFor(s, apdu) !in {Ok(None), Ok(Some(Malformed))}
    then None
    else match ParseWritePropertyRequest(apdu)
         case Ok(Some(r)) =>
           var isNull := IsNull(r);
           if isNull.Ok? && WriteVerdict(s, r, isNull.value).Stored? then Some((r, isNull.value)) else None
         case _ => None
  }

  lemma ChangeTarget(s: Peer, apdu: octets)
    requires Change(s, apdu).Some?
    ensures Change(s, apdu).value.0.key in s.objects
  {
    hide FailureFor, ConfirmedService, ParseWritePropertyRequest, IsNull;
  }

  predicate IsError(reply: Response) {
    reply.Ok? && reply.value.Some? && |reply.value.value| > 0 && reply.value.value[0] == 0x50
  }

  lemma NoteKeepsVerdict(s: Peer, t: Peer, r: WriteRequest, isNull: bool)
    requires t.SameBut(s)
    ensures WriteVerdict(t, r, isNull) == WriteVerdict(s, r, isNull)
  {
  }

  lemma NoteKeepsStore(s: Peer, t: Peer, r: WriteRequest, isNull: bool)
    requires s.Valid() && t.Valid() && t.SameBut(s) && r.key in s.objects
    ensures Store(t, r, isNull).0.SameBut(Store(s, r, isNull).0) && Store(t, r, isNull).1 == Store(s, r, isNull).1
  {
    hide Apply, FirstSet;
  }

  lemma WriteChanges(s: Peer, invokeId: byte, r: WriteRequest)
    requires s.Valid()
    ensures var (t, reply) := WriteProperty(s, invokeId, r);
            var stored := IsNull(r).Ok? && WriteVerdict(s, r, IsNull(r).value).Stored?;
            && (!stored ==> t == s)
            && (stored ==> var (u, done) := Store(s, r, IsNull(r).value);
                  t == u && reply == if done.Ok? then Answered(SimpleAck(invokeId, SERVICE_WRITE_PROPERTY))
                      else Raise(IndexError))
  {
    hide IsNull, WriteVerdict, ErrorResponse;
  }

  lemma ServeWriteChanges(s: Peer, apdu: octets)
    requires s.Valid() && |apdu| > 3 && FailureFor(s, apdu) in {Ok(None), Ok(Some(Malformed))}
    requires ConfirmedService(apdu) == Some(SERVICE_WRITE_PROPERTY)
    ensures var (t, reply) := ServeWrite(s, apdu);
            match Change(s, apdu)
            case None => t.SameBut(s)
            case Some((r, isNull)) =>
              && r.key in s.objects && t.SameBut(Store(s, r, isNull).0)
              && reply == if Store(s, r, isNull).1.Ok? then Answered(SimpleAck(apdu[2], SERVICE_WRITE_PROPERTY))
                  else Raise(IndexError)
  {
    hide IsNull, WriteVerdict, WriteProperty, Store, FailureFor, ParseWritePropertyRequest;
    match ParseWritePropertyRequest(apdu)
    case Ok(Some(r)) =>
      var noted := s.(log := s.log.(writeRequests := s.log.writeRequests + [r]));
      if !s.mode.Offline? {
        WriteChanges(noted, apdu[2], r);
        if IsNull(r).Ok? {
          NoteKeepsVerdict(s, noted, r, IsNull(r).value);
        }
        if Change(s, apdu).Some? {
          ChangeTarget(s, apdu);
          NoteKeepsStore(s, noted, r, IsNull(r).value);
        }
      }
    case _ =>
  }

  lemma ChangeIsWritten(s: Peer, apdu: octets)
    ensures ConfirmedService(apdu).Some? ==> |apdu| > 3
    ensures Change(s, apdu).Some? ==>
              && ConfirmedService(apdu) == Some(SERVICE_WRITE_PROPERTY)
              && FailureFor(s, apdu) in {Ok(None), Ok(Some(Malformed))}
  {
    hide FailureFor, ParseWritePropertyRequest, IsNull, WriteVerdict;
  }

  /** Answering a request either stores the one write it carries, and says so, or leaves
      objects and slots exactly as they were. */
  lemma AnswerChanges(s: Peer, apdu: octets)
    requires s.Valid()
    ensures var (t, reply) := Answer(s, apdu);
            match Change(s, apdu)
            case None => t.SameBut(s)
            case Some((r, isNull)) =>
              && r.key in s.objects && |apdu| > 3 && t.SameBut(Store(s, r, isNull).0)
              && reply == if Store(s, r, isNull).1.Ok? then Answered(SimpleAck(apdu[2], SERVICE_WRITE_PROPERTY))
                  else Raise(IndexError)
  {
    hide Answer, ServeWrite, Store, FailureFor, ConfirmedService, Change, SimpleAck;
    ChangeIsWritten(s, apdu);
    AnswerPath(s, apdu);
    if FailureFor(s, apdu) in {Ok(None), Ok(Some(Malformed))}
        && ConfirmedService(apdu) == Some(SERVICE_WRITE_PROPERTY) {
      ServeWriteChanges(s, apdu);
    }
  }

  /** A WriteProperty no failure stands in the way of goes to the write; nothing else changes
      objects or slots. */
  lemma AnswerPath(s: Peer, apdu: octets)
    requires s.Valid()
    ensures if FailureFor(s, apdu) in {Ok(None), Ok(Some(Malformed))}
            && ConfirmedService(apdu) == Some(SERVICE_WRITE_PROPERTY)
            then |apdu| > 3 && Answer(s, apdu) == ServeWrite(s, apdu)
            else Answer(s, apdu).0.SameBut(s)
  {
    hide ServeWrite, ServeOther, FailureFor, RejectPdu, AbortPdu;
  }

  /** Every Error answer leaves objects and slots unchanged. */
  lemma ErrorsChangeNothing(s: Peer, apdu: octets)
    requires s.Valid()
    ensures var (t, reply) := Answer(s, apdu); IsError(reply) ==> t.SameBut(s)
  {
    hide Answer, Store, Change;
    AnswerChanges(s, apdu);
  }

  /** What storing a write makes the peer serve: the value that was written, or for a command the
      winner, and everything else as before. */
  lemma StoreServes(s: Peer, r: WriteRequest, isNull: bool, key: ObjectKey, property: nat)
    requires s.Valid() && r.key in s.objects
    ensures var t := Store(s, r, isNull).0;
            && ((key, property) != (r.key, r.property) ==> t.Served(key, property) == s.Served(key, property))
            && (!IsCommand(s, r) ==> t.Served(r.key, r.property) == Some(r.value) && t.slots == s.slots)
            && (key != r.key ==>
                  (key in t.slots <==> key in s.slots) && (key in s.slots ==> t.slots[key] == s.slots[key]))
  {
    hide Apply, FirstSet;
  }

  /** Answering a request changes what is served only at the property it writes, and there to the
      value it carries, unless that is a command. */
  lemma AnswerServes(s: Peer, apdu: octets, key: ObjectKey, property: nat)
    requires s.Valid()
    ensures var t := Answer(s, apdu).0;
            match Change(s, apdu)
            case None => t.Served(key, property) == s.Served(key, property) && t.slots == s.slots
            case Some((r, _)) =>
              && ((key, property) != (r.key, r.property) ==> t.Served(key, property) == s.Served(key, property))
              && (!IsCommand(s, r) ==> t.Served(r.key, r.property) == Some(r.value) && t.slots == s.slots)
  {
    hide Answer, Change, Store;
    AnswerChanges(s, apdu);
    match Change(s, apdu)
    case None =>
    case Some((r, isNull)) =>
      StoreServes(s, r, isNull, key, property);
      StoreServes(s, r, isNull, r.key, r.property);
  }

  // ---- the cache ----

  /** A write to a commandable Present_Value whose priority has no slot. */
  predicate Overflows(s: Peer, r: WriteRequest) { IsCommand(s, r) && WritePriority(r) > 16 }

  /** Storing a write keeps the cache exact unless its priority has no slot; then the raw value
      stands in the cache, which is exact only if it was the winner already. */
  lemma StoreKeepsCache(s: Peer, r: WriteRequest, isNull: bool)
    requires s.Valid() && s.Cached() && r.key in s.objects
    ensures Store(s, r, isNull).0.Cached() <==>
            (Overflows(s, r) ==> r.value == s.objects[r.key][PROPERTY_PRESENT_VALUE])
    ensures Store(s, r, isNull).1.Raise? <==> Overflows(s, r)
  {
    hide Store, FirstSet, Overflows;
    var t := Store(s, r, isNull).0;
    StoreOne(s, r, isNull, r.key);
    forall key | t.IsCommandable(key)
      ensures s.IsCommandable(key)
      ensures key != r.key || !Overflows(s, r) ==>
                t.objects[key][PROPERTY_PRESENT_VALUE] == FirstSet(t.slots[key], t.defaults[key])
    {
      StoreOne(s, r, isNull, key);
    }
  }

  /** What storing a write makes of the cache of one object. */
  lemma StoreOne(s: Peer, r: WriteRequest, isNull: bool, key: ObjectKey)
    requires s.Valid() && s.Cached() && r.key in s.objects
    ensures Store(s, r, isNull).1.Raise? <==> Overflows(s, r)
    ensures Overflows(s, r) ==> s.IsCommandable(r.key)
    ensures var t := Store(s, r, isNull).0;
            && (t.IsCommandable(key) <==> s.IsCommandable(key))
            && (s.IsCommandable(key) ==>
                  (t.objects[key][PROPERTY_PRESENT_VALUE] == FirstSet(t.slots[key], t.defaults[key]) <==>
                   (Overflows(s, r) && key == r.key ==> r.value == s.objects[key][PROPERTY_PRESENT_VALUE])))
  {
    hide Apply, FirstSet;
    if s.IsCommandable(key) {
      assert s.objects[key][PROPERTY_PRESENT_VALUE] == FirstSet(s.slots[key], s.defaults[key]);
    }
  }

  lemma SameButCached(s: Peer, t: Peer)
    requires s.Valid() && t.Valid() && t.SameBut(s)
    ensures t.Cached() <==> s.Cached()
  {
    hide FirstSet;
    assert forall key :: t.IsCommandable(key) <==> s.IsCommandable(key);
  }

  /** Whatever APDU arrives, in whatever mode: the cache stays the winner of its priority array,
      exactly unless a stored write to a commandable Present_Value has a priority above 16. */
  lemma AnswerKeepsCache(s: Peer, apdu: octets)
    requires s.Valid() && s.Cached()
    ensures Answer(s, apdu).0.Cached() <==>
            match Change(s, apdu)
            case None => true
            case Some((r, _)) => Overflows(s, r) ==> s.Served(r.key, r.property) == Some(r.value)
  {
    hide Answer, Store, Change, FirstSet;
    AnswerChanges(s, apdu);
    var t := Answer(s, apdu).0;
    match Change(s, apdu)
    case None => SameButCached(s, t);
    case Some((r, isNull)) =>
      StoreKeepsCache(s, r, isNull);
      SameButCached(Store(s, r, isNull).0, t);
  }

  // ---- runs ----

  /** A request, which goes unheard once an exception has ended the serving thread; or a test
      changing how the peer answers. */
  datatype Event =
    | Request(apdu: octets)
    | SetMode(mode: Mode)
    | SetFailures(failures: map<ObjectKey, Failure>)
    | SetWholeArraysRefused(refused: set<(ObjectKey, nat)>)

  function Next(s: Peer, e: Event): (t: Peer)
    requires s.Valid()
    ensures t.Valid()
  {
    match e
    case Request(apdu) =>
      if !s.alive then s else
      var (t, reply) := Answer(s, apdu);
      t.(alive := reply.Ok?)
    case SetMode(m) => s.(mode := m)
    case SetFailures(f) => s.(failures := f)
    case SetWholeArraysRefused(w) => s.(wholeArraysRefused := w)
  }

  function Reach(s: Peer, es: seq<Event>): (t: Peer)
    requires s.Valid()
    ensures t.Valid()
  {
    if es == [] then s else Next(Reach(s, es[..|es| - 1]), es[|es| - 1])
  }

  /** The command an event gives to the Present_Value of `key`. */
  function CommandTo(s: Peer, e: Event, key: ObjectKey): Option<Command<octets>> {
    if !e.Request? || !s.alive then None else
    match Change(s, e.apdu)
    case Some((r, isNull)) => if r.key == key && IsCommand(s, r) then Some(CommandOf(r, isNull)) else None
    case None => None
  }

  /** All commands accepted for `key`, in order. */
  function Accepted(s: Peer, es: seq<Event>, key: ObjectKey): seq<Command<octets>>
    requires s.Valid()
  {
    if es == [] then [] else
    var k := |es| - 1;
    var c := CommandTo(Reach(s, es[..k]), es[k], key);
    Accepted(s, es[..k], key) + (if c.Some? then [c.value] else [])
  }

  /** No event of the run stores a command whose priority has no slot. */
  predicate InSlots(s: Peer, es: seq<Event>)
    requires s.Valid()
  {
    es == [] ||
    (var k := |es| - 1;
     && InSlots(s, es[..k])
     && (es[k].Request? && Reach(s, es[..k]).alive ==>
           match Change(Reach(s, es[..k]), es[k].apdu)
           case Some((r, _)) => !Overflows(Reach(s, es[..k]), r)
           case None => true))
  }

  /** One event moves the slots of an object as the command it gives says, and nothing else. */
  lemma NextSlots(s: Peer, e: Event, key: ObjectKey)
    requires s.Valid() && s.IsCommandable(key)
    requires e.Request? && s.alive && Change(s, e.apdu).Some? ==> !Overflows(s, Change(s, e.apdu).value.0)
    ensures var t := Next(s, e);
            && t.commandable == s.commandable && t.defaults == s.defaults && t.IsCommandable(key)
            && t.slots[key] ==
               match CommandTo(s, e, key) case Some(c) => Apply(s.slots[key], c) case None => s.slots[key]
  {
    hide Answer, Change, FirstSet, Apply;
    if e.Request? && s.alive {
      AnswerChanges(s, e.apdu);
    }
  }

  lemma NextCached(s: Peer, e: Event)
    requires s.Valid() && s.Cached()
    requires e.Request? && s.alive && Change(s, e.apdu).Some? ==> !Overflows(s, Change(s, e.apdu).value.0)
    ensures Next(s, e).Cached()
  {
    hide Answer, Change, FirstSet;
    var t := Next(s, e);
    var served := if e.Request? && s.alive then Answer(s, e.apdu).0 else s;
    if e.Request? && s.alive {
      AnswerKeepsCache(s, e.apdu);
    }
    assert forall key :: t.IsCommandable(key) <==> served.IsCommandable(key);
  }

  /** In every state reachable from start-up by any traffic, mode changes and failures included,
      the served Present_Value of a commandable object is the winner of clause 19.2 of exactly
      the commands that were accepted, and its Relinquish_Default is what it was at the start. */
  lemma {:induction false} ReachableCache(s: Peer, es: seq<Event>, key: ObjectKey)
    requires s.Valid() && s.Cached() && s.IsCommandable(key) && s.slots[key] == NoSlots() && InSlots(s, es)
    ensures var t := Reach(s, es);
            && t.Cached() && t.commandable == s.commandable && t.defaults == s.defaults
            && t.slots[key] == Run(NoSlots(), Accepted(s, es, key))
            && Wins(Accepted(s, es, key), s.defaults[key], t.objects[key][PROPERTY_PRESENT_VALUE])
  {
    hide Next, CommandTo, FirstSet, Apply, Change, Overflows, Wins;
    if es != [] {
      var k := |es| - 1;
      ReachableCache(s, es[..k], key);
      var m := Reach(s, es[..k]);
      NextSlots(m, es[k], key);
      NextCached(m, es[k]);
      RunOneMore(Accepted(s, es[..k], key), CommandTo(m, es[k], key));
    }
    var t := Reach(s, es);
    assert t.IsCommandable(key);
    WinnerOfHistory(Accepted(s, es, key), s.defaults[key], t.objects[key][PROPERTY_PRESENT_VALUE]);
  }

  /** A freshly made server satisfies what the run theorem starts from. */
  lemma StartIsCached(deviceInstance: nat, vendor: nat, objectName: octets, objects: map<ObjectKey, map<int, octets>>,
                      writable: Option<set<(ObjectKey, nat)>>, commandable: Option<set<ObjectKey>>, arrayElements: bool)
    requires deviceInstance < 0x40_0000 && vendor < 0x1_0000_0000
    requires commandable.Some? ==>
               forall key <- commandable.value :: key in objects && PROPERTY_PRESENT_VALUE in objects[key]
    ensures var s := Start(deviceInstance, vendor, objectName, objects, writable, commandable, arrayElements);
            && s.Cached()
            && forall key :: s.IsCommandable(key) ==>
                 s.slots[key] == NoSlots() && s.defaults[key] == objects[key][PROPERTY_PRESENT_VALUE]
  {
    hide FirstSet;
    var s := Start(deviceInstance, vendor, objectName, objects, writable, commandable, arrayElements);
    forall key | s.IsCommandable(key)
      ensures s.objects[key][PROPERTY_PRESENT_VALUE] == FirstSet(s.slots[key], s.defaults[key])
    {
      FirstSetCases(s.slots[key], s.defaults[key]);
    }
  }
}
