/** The serving thread of the simulated peer: datagrams in, datagrams out. */
module Serving {
  import opened Octets
  import opened Frames
  import opened Server

  /** recvfrom(2048): a longer datagram is cut off. */
  function Received(datagram: octets): octets { Slice(datagram, 0, 2048) }

  /** SimulatedDevice._serve on one datagram: the reply datagram, if there is one. An exception
      leaves the loop, which ends the thread; nothing is served from then on. */
  function ServeDatagram(s: Peer, datagram: octets): (t: (Peer, Outcome<Option<octets>>))
    requires s.Valid()
    ensures t.0.Valid()
  {
    if !s.alive then (s, Ok(None)) else
    match DecodeFrame(Received(datagram))
    case Raise(e) => (s.(alive := false), Raise(e))
    case Ok(frame) =>
      if !frame.ok || frame.npdu.None? || frame.npdu.value.networkMessage.Some? then (s, Ok(None)) else
      var (t, answer) := Answer(s, frame.npdu.value.payload);
      var reply := Replied(frame.npdu.value, answer);
      (t.(alive := reply.Ok?), reply)
  }

  /** The datagram that carries an answer back. */
  function Replied(request: Npdu, answer: Response): Outcome<Option<octets>>
    requires ValidAddress(request.source)
  {
    var apdu :- answer;
    if apdu.None? then Ok(None) else
    var datagram :- ReplyDatagram(request, apdu.value);
    Ok(Some(datagram))
  }
}
