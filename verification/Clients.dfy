/** Requests and their answers (client.py, endpoint.py): invoke ids modulo 256, retries with the
    same id, and late replies. */
module Clients {
  import opened Octets
  import opened Frames
  import opened Walkers

  /** A datagram the socket delivers, with the number of the request it replies to (the
      sender's knowledge; no code reads it); an ICMP reset, which is skipped; or the end of the
      wait. */
  datatype Arrival = Datagram(data: octets, origin: nat) | Reset | Expired

  datatype Received = Received(frame: Frame, origin: nat)

  predicate IsResponse(f: Frame) {
    f.ok && NetworkMessage(f).None? && PduType(f).Some?
    && PduType(f).value in {PDU_SIMPLE_ACK, PDU_COMPLEX_ACK, PDU_ERROR, PDU_REJECT, PDU_ABORT}
  }

  /** The predicate Client.request waits with; reading the invoke id of a one-octet APDU raises. */
  function Matches(f: Frame, invokeId: byte): Outcome<bool> {
    if !IsResponse(f) then Ok(false) else
    var id :- InvokeId(f);
    Ok(id == Some(invokeId))
  }

  /** The frames among the first arrivals, as far as they decode. */
  function Decoded(arrivals: seq<Arrival>): seq<Received> {
    if arrivals == [] then [] else
    var last := arrivals[|arrivals| - 1];
    Decoded(arrivals[..|arrivals| - 1]) +
    (if last.Datagram? && DecodeFrame(last.data).Ok? then [Received(DecodeFrame(last.data).value, last.origin)] else [])
  }

  /** The first `i` frames do not match. */
  ghost predicate NoMatch(frames: seq<Received>, invokeId: byte, i: nat) {
    i <= |frames| && forall j | 0 <= j < i :: Matches(frames[j].frame, invokeId) == Ok(false)
  }

  /** What one kept frame decides: nothing, that it is the answer, or an exception. */
  function FrameDecides(r: Received, invokeId: byte): Option<Outcome<Option<Received>>> {
    match Matches(r.frame, invokeId)
    case Ok(false) => None
    case Ok(true) => Some(Ok(Some(r)))
    case Raise(e) => Some(Raise(e))
  }

  /** What one arrival decides: as a frame if it decodes, an exception if it does not; the end of
      the wait decides that there is no answer, a reset nothing. */
  function ArrivalDecides(a: Arrival, invokeId: byte): Option<Outcome<Option<Received>>> {
    match a
    case Reset => None
    case Expired => Some(Ok(None))
    case Datagram(data, origin) =>
      match DecodeFrame(data)
      case Raise(e) => Some(Raise(e))
      case Ok(frame) => FrameDecides(Received(frame, origin), invokeId)
  }

  /** The answer a request is to get, and how often it is to be sent for it. */
  datatype Exchange = Exchange(answer: Outcome<Option<Received>>, sends: nat)

  /** The reference: the first arrival that decides, where the end of a wait decides only when no
      attempt is left. Without any more arrivals every attempt left goes unanswered. */
  function Exchanged(arrivals: seq<Arrival>, invokeId: byte, attempts: nat): Exchange {
    if attempts == 0 || arrivals == [] then Exchange(Ok(None), attempts) else
    match ArrivalDecides(arrivals[0], invokeId)
    case None => Exchanged(arrivals[1..], invokeId, attempts)
    case Some(Ok(None)) =>
      var later := Exchanged(arrivals[1..], invokeId, attempts - 1);
      later.(sends := 1 + later.sends)
    case Some(answer) => Exchange(answer, 1)
  }

  /** The same with frames kept from before, which are looked at first. */
  function ExchangedAfter(frames: seq<Received>, arrivals: seq<Arrival>, invokeId: byte, attempts: nat): Exchange {
    if frames == [] then Exchanged(arrivals, invokeId, attempts) else
    match FrameDecides(frames[0], invokeId)
    case None => ExchangedAfter(frames[1..], arrivals, invokeId, attempts)
    case Some(answer) => Exchange(answer, 1)
  }

  function Expirations(arrivals: seq<Arrival>): nat {
    if arrivals == [] then 0 else Expirations(arrivals[1..]) + (if arrivals[0].Expired? then 1 else 0)
  }

  /** The arrival at `k` is the answer, or the exception: it decides, nothing before it does, and
      fewer waits ended before it than there are attempts. */
  ghost predicate DecidesFirst(arrivals: seq<Arrival>, invokeId: byte, attempts: nat, k: nat) {
    && k < |arrivals| && Expirations(arrivals[..k]) < attempts
    && (forall j | 0 <= j < k :: arrivals[j].Expired? || ArrivalDecides(arrivals[j], invokeId).None?)
    && ArrivalDecides(arrivals[k], invokeId).Some? && !arrivals[k].Expired?
  }

  /** A request is answered, or fails, by exactly the first arrival that decides, having been sent
      once for each wait that ended before and once more. */
  lemma {:induction false} FirstArrivalDecides(arrivals: seq<Arrival>, invokeId: byte, attempts: nat, k: nat)
    requires DecidesFirst(arrivals, invokeId, attempts, k)
    ensures Exchanged(arrivals, invokeId, attempts) ==
            Exchange(ArrivalDecides(arrivals[k], invokeId).value, 1 + Expirations(arrivals[..k]))
  {
    hide ArrivalDecides;
    ExpiredDecides(invokeId);
    if k > 0 {
      var rest := arrivals[1..];
      assert arrivals[..k][1..] == rest[..k - 1];
      forall j | 0 <= j < k - 1
        ensures rest[j].Expired? || ArrivalDecides(rest[j], invokeId).None?
      {
        assert rest[j] == arrivals[j + 1];
      }
      assert arrivals[0].Expired? || ArrivalDecides(arrivals[0], invokeId).None?;
      FirstArrivalDecides(rest, invokeId, if arrivals[0].Expired? then attempts - 1 else attempts, k - 1);
    }
    OnlyExpiredEnds(arrivals[0], invokeId);
  }

  /** A request that is not answered was sent in every attempt: no arrival within them decides. */
  lemma {:induction false} UnansweredIff(arrivals: seq<Arrival>, invokeId: byte, attempts: nat)
    ensures var x := Exchanged(arrivals, invokeId, attempts);
            && (x.answer == Ok(None) <==> forall k: nat :: !DecidesFirst(arrivals, invokeId, attempts, k))
            && (x.answer == Ok(None) ==> x.sends == attempts)
    decreases |arrivals|
  {
    hide ArrivalDecides;
    ExpiredDecides(invokeId);
    if attempts > 0 && arrivals != [] {
      var rest := arrivals[1..];
      var left := if arrivals[0].Expired? then attempts - 1 else attempts;
      OnlyExpiredEnds(arrivals[0], invokeId);
      if arrivals[0].Expired? || ArrivalDecides(arrivals[0], invokeId).None? {
        UnansweredIff(rest, invokeId, left);
        forall k: nat
          ensures DecidesFirst(arrivals, invokeId, attempts, k) <==> k > 0 && DecidesFirst(rest, invokeId, left, k - 1)
        {
          LaterDecides(arrivals, invokeId, attempts, k);
        }
        if k: nat :| DecidesFirst(rest, invokeId, left, k) {
          assert DecidesFirst(arrivals, invokeId, attempts, k + 1);
        }
      } else {
        assert DecidesFirst(arrivals, invokeId, attempts, 0);
      }
    }
  }

  /** Every answer and every exception is that of the first arrival that decides. */
  lemma OutcomeOfFirst(arrivals: seq<Arrival>, invokeId: byte, attempts: nat)
    requires Exchanged(arrivals, invokeId, attempts).answer != Ok(None)
    ensures exists k: nat :: DecidesFirst(arrivals, invokeId, attempts, k) &&
              Exchanged(arrivals, invokeId, attempts) ==
              Exchange(ArrivalDecides(arrivals[k], invokeId).value, 1 + Expirations(arrivals[..k]))
  {
    hide ArrivalDecides, Exchanged, DecidesFirst;
    UnansweredIff(arrivals, invokeId, attempts);
    var k: nat :| DecidesFirst(arrivals, invokeId, attempts, k);
    FirstArrivalDecides(arrivals, invokeId, attempts, k);
  }

  lemma LaterDecides(arrivals: seq<Arrival>, invokeId: byte, attempts: nat, k: nat)
    requires attempts > 0 && arrivals != [] && (arrivals[0].Expired? || ArrivalDecides(arrivals[0], invokeId).None?)
    ensures var left := if arrivals[0].Expired? then attempts - 1 else attempts;
            DecidesFirst(arrivals, invokeId, attempts, k) <==>
            k > 0 && DecidesFirst(arrivals[1..], invokeId, left, k - 1)
  {
    hide ArrivalDecides;
    if 0 < k < |arrivals| {
      var rest := arrivals[1..];
      assert arrivals[..k][1..] == rest[..k - 1];
      assert forall j | 0 <= j < k - 1 :: rest[j] == arrivals[j + 1];
      assert forall j | 1 <= j < k :: arrivals[j] == rest[j - 1];
    }
  }

  lemma ExpiredDecides(invokeId: byte)
    ensures ArrivalDecides(Expired, invokeId) == Some(Ok(None))
  {
  }

  lemma OnlyExpiredEnds(a: Arrival, invokeId: byte)
    ensures ArrivalDecides(a, invokeId) == Some(Ok(None)) <==> a.Expired?
  {
    hide Matches, DecodeFrame;
  }

  /** An exception comes from a datagram that does not decode, or from a response too short to
      hold an invoke id; an answer is a datagram that decodes to a frame that matches. */
  lemma WhatDecides(a: Arrival, invokeId: byte)
    ensures match ArrivalDecides(a, invokeId)
            case None => true
            case Some(Ok(None)) => a.Expired?
            case Some(Ok(Some(r))) =>
              && a.Datagram? && DecodeFrame(a.data) == Ok(r.frame) && r.origin == a.origin
              && Matches(r.frame, invokeId) == Ok(true)
            case Some(Raise(e)) =>
              a.Datagram? && (DecodeFrame(a.data) == Raise(e) ||
                              (DecodeFrame(a.data).Ok? && Matches(DecodeFrame(a.data).value, invokeId) == Raise(e)))
  {
    hide DecodeFrame, Matches;
  }

  /** Every response carries the invoke id of the request it replies to. */
  ghost predicate Honest(arrivals: seq<Arrival>) {
    forall i | 0 <= i < |arrivals| :: arrivals[i].Datagram? ==> HonestDatagram(arrivals[i].data, arrivals[i].origin)
  }

  ghost predicate HonestDatagram(data: octets, origin: nat) {
    DecodeFrame(data).Ok? && IsResponse(DecodeFrame(data).value) ==>
      InvokeId(DecodeFrame(data).value) == Ok(Some(origin % 256))
  }

  ghost predicate HonestFrames(frames: seq<Received>) {
    forall i | 0 <= i < |frames| :: IsResponse(frames[i].frame) ==>
        InvokeId(frames[i].frame) == Ok(Some(frames[i].origin % 256))
  }

  lemma {:induction false} DecodedHonest(arrivals: seq<Arrival>)
    requires Honest(arrivals)
    ensures HonestFrames(Decoded(arrivals))
  {
    hide DecodeFrame, IsResponse, InvokeId;
    if arrivals != [] {
      var k := |arrivals| - 1;
      DecodedHonest(arrivals[..k]);
      if arrivals[k].Datagram? {
        assert HonestDatagram(arrivals[k].data, arrivals[k].origin);
      }
    }
  }

  /** Ids repeat every 256 requests, so within that span the id names the request. */
  lemma IdNamesRequest(origin: nat, request: nat)
    requires origin % 256 == request % 256
    ensures origin <= request < origin + 256 ==> origin == request
  {
  }

  /** A reply delayed across a multiple of 256 requests that arrives first is the answer the later
      request gets, however many attempts it has. */
  lemma LateReplyIsMistaken(data: octets, origin: nat, request: nat, later: seq<Arrival>, attempts: nat)
    requires attempts > 0 && request % 256 == origin % 256
    requires DecodeFrame(data).Ok? && IsResponse(DecodeFrame(data).value) && HonestDatagram(data, origin)
    ensures Exchanged([Datagram(data, origin)] + later, request % 256, attempts) ==
            Exchange(Ok(Some(Received(DecodeFrame(data).value, origin))), 1)
  {
    hide DecodeFrame, IsResponse, InvokeId;
    var arrivals := [Datagram(data, origin)] + later;
    assert arrivals[0] == Datagram(data, origin);
  }

  /** Endpoint and Client in one: a socket, the frames kept from it, and the invoke ids.
      `requests` numbers the requests made. */
  class Client {
    const retries: nat
    var frames: seq<Received>
    var inbox: seq<Arrival>
    var sent: seq<octets>
    var invokeId: byte
    ghost var requests: nat

    ghost predicate Valid()
      reads this
    {
      invokeId == requests % 256
    }

    constructor (retries: nat, arrivals: seq<Arrival>)
      ensures Valid() && requests == 0 && this.retries == retries && frames == [] && inbox == arrivals && sent == []
    {
      this.retries := retries;
      frames, inbox, sent, invokeId, requests := [], arrivals, [], 0, 0;
    }

    /** _receive: False when the wait is over; it raises exactly when a datagram does not decode. */
    method Receive() returns (more: Outcome<bool>)
      modifies this`frames, this`inbox
      ensures old(inbox) == [] ==> inbox == [] && frames == old(frames) && more == Ok(false)
      ensures old(inbox) != [] ==>
                && inbox == old(inbox)[1..] && frames == old(frames) + Decoded(old(inbox)[..1])
                && more == match old(inbox)[0]
                           case Expired => Ok(false)
                           case Reset => Ok(true)
                           case Datagram(data, _) =>
                             (match DecodeFrame(data) case Ok(_) => Ok(true) case Raise(e) => Raise(e))
    {
      hide DecodeFrame;
      if inbox == [] {
        return Ok(false);
      }
      var arrival := inbox[0];
      assert inbox[..1] == [arrival] && [arrival][..0] == [];
      inbox := inbox[1..];
      match arrival
      case Expired => more := Ok(false);
      case Reset => more := Ok(true);
      case Datagram(data, origin) =>
        var frame := DecodeFrame(data);
        if frame.Raise? {
          return Raise(frame.error);
        }
        frames := frames + [Received(frame.value, origin)];
        more := Ok(true);
    }

    /** The for loop of wait_for over frames[seen:]; `index` is where it stopped, `tested` the
        positions it tested, in order. */
    method Scan(invokeId: byte, seen: nat) returns (r: Outcome<bool>, index: nat, ghost tested: seq<nat>)
      requires seen <= |frames|
      ensures seen <= index <= |frames|
      ensures forall j | seen <= j < index :: Matches(frames[j].frame, invokeId) == Ok(false)
      ensures r == Ok(false) ==> index == |frames|
      ensures r != Ok(false) ==> index < |frames| && r == Matches(frames[index].frame, invokeId)
      ensures tested == Range(seen, if r == Ok(false) then index else index + 1)
    {
      index, tested := seen, [];
      while index < |frames|
        invariant seen <= index <= |frames|
        invariant forall j | seen <= j < index :: Matches(frames[j].frame, invokeId) == Ok(false)
        invariant tested == Range(seen, index)
      {
        r := Matches(frames[index].frame, invokeId);
        tested := tested + [index];
        if r != Ok(false) {
          return;
        }
        index := index + 1;
      }
      r := Ok(false);
    }

    /** wait_for: what the first decisive frame says, among those kept before and those that
        arrive. Every frame up to it is tested, in order and none twice, and receiving stops with
        it. `attempts` counts this wait and those a caller may still begin after it. */
    method WaitFor(invokeId: byte, ghost attempts: nat)
      returns (r: Outcome<Option<Received>>, ghost n: nat, ghost found: nat, ghost tested: seq<nat>)
      requires attempts > 0
      modifies this`frames, this`inbox
      ensures n <= |old(inbox)| && inbox == old(inbox)[n..]
      ensures frames == old(frames) + Decoded(old(inbox)[..n])
      ensures NoMatch(frames, invokeId, found)
      ensures found < |frames| ==>
                (match Matches(frames[found].frame, invokeId)
                 case Ok(hit) => hit && r == Ok(Some(frames[found]))
                 case Raise(e) => r == Raise(e))
      ensures found == |frames| ==>
                (match r
                 case Ok(answer) => answer.None? && (inbox == [] || (n > 0 && old(inbox)[n - 1].Expired?))
                 case Raise(e) =>
                   n > 0 && old(inbox)[n - 1].Datagram? && DecodeFrame(old(inbox)[n - 1].data) == Raise(e))
      ensures |old(frames)| <= found < |frames| ==> found == |frames| - 1
      ensures tested == Range(0, if found < |frames| then found + 1 else found)
      ensures Resumed(r, inbox, invokeId, attempts) == ExchangedAfter(old(frames), old(inbox), invokeId, attempts)
    {
      hide Matches, DecodeFrame, Decoded, ExchangedAfter, Exchanged, ArrivalDecides;
      n, found, tested := 0, 0, [];
      var seen: nat := 0;
      NoneYet(frames, inbox);
      while true
        invariant n <= |old(inbox)| && inbox == old(inbox)[n..]
        invariant frames == old(frames) + Decoded(old(inbox)[..n])
        invariant seen <= |frames| && NoMatch(frames, invokeId, seen)
        invariant |frames| > |old(frames)| ==> |frames| <= seen + 1
        invariant tested == Range(0, seen)
        invariant ExchangedAfter(frames[seen..], inbox, invokeId, attempts) ==
                  ExchangedAfter(old(frames), old(inbox), invokeId, attempts)
        decreases |inbox|
      {
        var hit, index;
        ghost var more';
        hit, index, more' := Scan(invokeId, seen);
        tested := tested + more';
        found := index;
        Scanned(frames, seen, index, inbox, invokeId, attempts);
        if hit.Raise? {
          return Raise(hit.error), n, found, tested;
        }
        if hit.value {
          return Ok(Some(frames[index])), n, found, tested;
        }
        seen := |frames|;
        Arrived(inbox, invokeId, attempts);
        if inbox != [] {
          OneMore(old(frames), old(inbox), n);
          n := n + 1;
        }
        var more := Receive();
        if more.Raise? {
          return Raise(more.error), n, found, tested;
        }
        if !more.value {
          ghost var none;
          hit, index, none := Scan(invokeId, seen);
          // Nothing has arrived since the scan before.
          assert hit == Ok(false) && none == [];
          return Ok(None), n, |frames|, tested;
        }
      }
    }

    /** send_with_retries: the same datagram up to 1 + retries times, until a wait is decided. The
        answer and the number of sends are those of the reference. */
    method SendWithRetries(datagram: octets)
      returns (r: Outcome<Option<Received>>, ghost n: nat, ghost sends: nat, ghost found: nat)
      requires frames == []
      modifies this`frames, this`inbox, this`sent
      ensures n <= |old(inbox)| && inbox == old(inbox)[n..] && frames == Decoded(old(inbox)[..n])
      ensures Exchange(r, sends) == Exchanged(old(inbox), invokeId, 1 + retries)
      ensures 1 <= sends <= 1 + retries && sent == old(sent) + Copies(datagram, sends)
      ensures r.Ok? && r.value.None? ==> sends == 1 + retries && NoMatch(frames, invokeId, |frames|)
      ensures r.Ok? && r.value.Some? ==>
                && found < |frames| && frames[found] == r.value.value && NoMatch(frames, invokeId, found)
                && Matches(frames[found].frame, invokeId) == Ok(true)
    {
      hide Decoded, Matches, DecodeFrame, Exchanged, ExchangedAfter;
      n, sends, found := 0, 0, 0;
      NoneYet([], inbox);
      r := Ok(None);
      for attempt := 0 to 1 + retries
        invariant r == Ok(None) && sends == attempt
        invariant n <= |old(inbox)| && inbox == old(inbox)[n..] && frames == Decoded(old(inbox)[..n])
        invariant sent == old(sent) + Copies(datagram, attempt)
        invariant NoMatch(frames, invokeId, |frames|)
        invariant Plus(attempt, Exchanged(inbox, invokeId, 1 + retries - attempt)) ==
                  Exchanged(old(inbox), invokeId, 1 + retries)
      {
        sent := sent + [datagram];
        sends := attempt + 1;
        assert Copies(datagram, attempt) + [datagram] == Copies(datagram, sends);
        ghost var m, tested;
        KeptSayNothing(frames, inbox, invokeId, 1 + retries - attempt);
        r, m, found, tested := WaitFor(invokeId, 1 + retries - attempt);
        SplitDecoded(old(inbox), n, m);
        n := n + m;
        if r != Ok(None) {
          return;
        }
      }
      NoAttemptLeft(inbox, invokeId);
    }

    /** Client.request: a new invoke id, no frames kept from before, and the first response with
        that id. If every response carries the id of the request it replies to, the answer
        belongs to a request with the same number modulo 256, so to this one, unless it was
        delayed across 256 or more later requests; and one delayed across any multiple of 256 that
        arrives first is taken. */
    method Request(build: byte -> octets, destination: Option<Address>)
      returns (r: Outcome<Option<Received>>, ghost n: nat, ghost sends: nat)
      requires Valid() && ValidAddress(destination)
      requires forall id: byte :: HeaderSize(destination) + |build(id)| < 0x1_0000
      modifies this
      ensures Valid() && requests == old(requests) + 1
      ensures n <= |old(inbox)| && inbox == old(inbox)[n..] && frames == Decoded(old(inbox)[..n])
      ensures Exchange(r, sends) == Exchanged(old(inbox), invokeId, 1 + retries)
      ensures 1 <= sends <= 1 + retries
      ensures sent == old(sent) + Copies(ApduFrame(destination, true, build(invokeId)), sends)
      ensures r.Ok? && r.value.Some? ==> r.value.value in frames && Matches(r.value.value.frame, invokeId) == Ok(true)
      ensures r.Ok? && r.value.None? ==> sends == 1 + retries && NoMatch(frames, invokeId, |frames|)
      ensures r.Ok? && r.value.Some? && Honest(old(inbox)[..n]) ==>
                var origin := r.value.value.origin;
                origin % 256 == requests % 256 && (origin <= requests < origin + 256 ==> origin == requests)
      ensures old(inbox) != [] && IsReply(old(inbox)[0]) && old(inbox)[0].origin % 256 == requests % 256 ==>
                r == Ok(Some(Received(DecodeFrame(old(inbox)[0].data).value, old(inbox)[0].origin)))
    {
      hide Decoded, ApduFrame, Matches, Honest, HonestFrames, Copies, Exchanged, DecodeFrame, HonestDatagram,
          IsResponse;
      requests := requests + 1;
      invokeId := (invokeId + 1) % 256;
      frames := [];
      var datagram := ApduFrame(destination, true, build(invokeId));
      ghost var found;
      r, n, sends, found := SendWithRetries(datagram);
      if r.Ok? && r.value.Some? {
        MatchedOrigin(frames, found, old(inbox)[..n], invokeId, requests);
      }
      if old(inbox) != [] && IsReply(old(inbox)[0]) && old(inbox)[0].origin % 256 == requests % 256 {
        assert old(inbox) == [old(inbox)[0]] + old(inbox)[1..];
        LateReplyIsMistaken(old(inbox)[0].data, old(inbox)[0].origin, requests, old(inbox)[1..], 1 + retries);
      }
    }
  }

  /** A response that carries the id of the request it replies to. */
  ghost predicate IsReply(a: Arrival) {
    && a.Datagram? && DecodeFrame(a.data).Ok? && IsResponse(DecodeFrame(a.data).value)
    && HonestDatagram(a.data, a.origin)
  }

  /** The positions from `low` up to `high`. */
  function Range(low: nat, high: nat): seq<nat>
    requires low <= high
  {
    seq(high - low, i requires 0 <= i => low + i)
  }

  function Plus(before: nat, x: Exchange): Exchange { x.(sends := before + x.sends) }

  /** How an exchange goes on after a wait: it is over, or, when nothing answered, resumed with the
      arrivals and attempts that are left. */
  function Resumed(r: Outcome<Option<Received>>, arrivals: seq<Arrival>, invokeId: byte, attempts: nat): Exchange
    requires attempts > 0
  {
    if r == Ok(None) then Plus(1, Exchanged(arrivals, invokeId, attempts - 1)) else Exchange(r, 1)
  }

  lemma {:induction false} Scanned(frames: seq<Received>, seen: nat, index: nat, arrivals: seq<Arrival>,
                                   invokeId: byte, attempts: nat)
    requires seen <= index <= |frames|
    requires forall j | seen <= j < index :: Matches(frames[j].frame, invokeId) == Ok(false)
    ensures ExchangedAfter(frames[seen..], arrivals, invokeId, attempts) ==
              if index == |frames| then Exchanged(arrivals, invokeId, attempts)
              else match FrameDecides(frames[index], invokeId)
                   case Some(answer) => Exchange(answer, 1)
                   case None => ExchangedAfter(frames[index..], arrivals, invokeId, attempts)
    decreases index - seen
  {
    hide Exchanged, Matches;
    if seen < index {
      Scanned(frames, seen + 1, index, arrivals, invokeId, attempts);
      assert frames[seen..][1..] == frames[seen + 1..];
    } else if index < |frames| {
      assert frames[seen..][0] == frames[index];
      assert frames[seen..] == frames[index..];
    }
  }

  /** One arrival of an exchange: a frame that is kept is looked at next. */
  lemma {:induction false} Arrived(arrivals: seq<Arrival>, invokeId: byte, attempts: nat)
    requires attempts > 0
    ensures Exchanged(arrivals, invokeId, attempts) ==
              if arrivals == [] then Resumed(Ok(None), arrivals, invokeId, attempts)
              else match arrivals[0]
                   case Expired => Resumed(Ok(None), arrivals[1..], invokeId, attempts)
                   case Reset => ExchangedAfter([], arrivals[1..], invokeId, attempts)
                   case Datagram(data, origin) =>
                     match DecodeFrame(data)
                     case Raise(e) => Exchange(Raise(e), 1)
                     case Ok(frame) => ExchangedAfter([Received(frame, origin)], arrivals[1..], invokeId, attempts)
  {
    hide Matches, DecodeFrame;
  }

  lemma {:induction false} KeptSayNothing(frames: seq<Received>, arrivals: seq<Arrival>, invokeId: byte, attempts: nat)
    requires attempts > 0 && NoMatch(frames, invokeId, |frames|)
    ensures ExchangedAfter(frames, arrivals, invokeId, attempts) == Exchanged(arrivals, invokeId, attempts)
  {
    hide Exchanged, Matches;
    if frames != [] {
      assert Matches(frames[0].frame, invokeId) == Ok(false);
      KeptSayNothing(frames[1..], arrivals, invokeId, attempts);
    }
  }

  lemma NoAttemptLeft(arrivals: seq<Arrival>, invokeId: byte)
    ensures Exchanged(arrivals, invokeId, 0) == Exchange(Ok(None), 0)
  {
  }

  function Copies(datagram: octets, n: nat): seq<octets> { seq(n, _ => datagram) }

  lemma {:induction false} SplitDecoded(arrivals: seq<Arrival>, n: nat, m: nat)
    requires n + m <= |arrivals|
    ensures Decoded(arrivals[..n]) + Decoded(arrivals[n..][..m]) == Decoded(arrivals[..n + m])
    ensures arrivals[n..][m..] == arrivals[n + m..]
  {
    hide DecodeFrame;
    if m == 0 {
      assert arrivals[..n + 0] == arrivals[..n] && arrivals[n..][..0] == [];
    } else {
      SplitDecoded(arrivals, n, m - 1);
      assert arrivals[..n + m][..n + m - 1] == arrivals[..n + (m - 1)];
      assert arrivals[n..][..m][..m - 1] == arrivals[n..][..m - 1];
    }
  }

  /** A match among honest frames comes from a request with the same number modulo 256. */
  lemma MatchedOrigin(frames: seq<Received>, i: nat, arrivals: seq<Arrival>, invokeId: byte, request: nat)
    requires frames == Decoded(arrivals) && i < |frames| && Matches(frames[i].frame, invokeId) == Ok(true)
    requires invokeId == request % 256
    ensures var origin := frames[i].origin;
            Honest(arrivals) ==>
              origin % 256 == request % 256 && (origin <= request < origin + 256 ==> origin == request)
  {
    hide Decoded, InvokeId, IsResponse;
    if Honest(arrivals) {
      DecodedHonest(arrivals);
      assert InvokeId(frames[i].frame) == Ok(Some(frames[i].origin % 256));
      IdNamesRequest(frames[i].origin, request);
    }
  }

  lemma NoneYet(frames: seq<Received>, arrivals: seq<Arrival>)
    ensures arrivals[0..] == arrivals && frames + Decoded(arrivals[..0]) == frames
  {
  }

  lemma OneMore(frames: seq<Received>, arrivals: seq<Arrival>, k: nat)
    requires k < |arrivals|
    ensures frames + Decoded(arrivals[..k + 1]) == frames + Decoded(arrivals[..k]) + Decoded(arrivals[k..][..1])
    ensures Decoded(arrivals[k..][..1]) ==
            if arrivals[k].Datagram? && DecodeFrame(arrivals[k].data).Ok?
            then [Received(DecodeFrame(arrivals[k].data).value, arrivals[k].origin)] else []
    ensures arrivals[k..][1..] == arrivals[k + 1..]
  {
    hide DecodeFrame;
    assert arrivals[..k + 1][..k] == arrivals[..k];
    var one := arrivals[k..][..1];
    assert one == [arrivals[k]] && one[..0] == [];
  }
}
