/** BACnet/IP frames: the BVLL of Annex J and the NPDU of clause 6.2 of ANSI/ASHRAE 135-2024,
    their encoders and decoder, and the routing of replies. */
module Frames {
  import opened Octets

  const BVLC_TYPE: byte := 0x81
  const BVLC_FORWARDED_NPDU: byte := 0x04
  const BVLC_DISTRIBUTE_BROADCAST_TO_NETWORK: byte := 0x09
  const BVLC_ORIGINAL_UNICAST: byte := 0x0A
  const BVLC_ORIGINAL_BROADCAST: byte := 0x0B

  /** A network number and the MAC address on it: DNET/DADR or SNET/SADR. */
  datatype Address = Address(network: nat, mac: octets) {
    predicate Valid() { network < 0x1_0000 && |mac| < 256 }
  }

  predicate ValidAddress(a: Option<Address>) { a.Some? ==> a.value.Valid() }

  datatype Npdu = Npdu(destination: Option<Address>, source: Option<Address>, expectingReply: bool,
                       networkMessage: Option<byte>, payload: octets)

  // ---- encoding ----

  function AddressOctets(a: Option<Address>): octets
    requires ValidAddress(a)
  {
    if a.None? then [] else ToBytes(a.value.network, 2) + ([|a.value.mac|] + a.value.mac)
  }

  function Flag(b: bool, bit: nat): nat { if b then bit else 0 }

  function Control(n: Npdu): byte {
    Flag(n.networkMessage.Some?, 0x80) + Flag(n.destination.Some?, 0x20) + Flag(n.source.Some?, 0x08)
    + Flag(n.expectingReply, 0x04)
  }

  /** The hop count that goes with a destination, then the message type of a network message. */
  function Trailer(n: Npdu, hopCount: byte): octets {
    (if n.destination.Some? then [hopCount] else []) + (if n.networkMessage.Some? then [n.networkMessage.value] else [])
  }

  /** npdu */
  function NpduOctets(n: Npdu, hopCount: byte): octets
    requires ValidAddress(n.destination) && ValidAddress(n.source)
  {
    [0x01, Control(n)] + (AddressOctets(n.destination) + (AddressOctets(n.source) + (Trailer(n, hopCount) + n.payload)))
  }

  /** bvll: type, function, length of the whole, body. */
  function Bvll(bvlcFunction: byte, body: octets): octets
    requires |body| + 4 < 0x1_0000
  {
    [BVLC_TYPE, bvlcFunction] + ToBytes(|body| + 4, 2) + body
  }

  function ForwardedNpdu(originatingMac: octets, npdu: octets): octets
    requires |originatingMac| == 6 && |npdu| + 10 < 0x1_0000
  {
    Bvll(BVLC_FORWARDED_NPDU, originatingMac + npdu)
  }

  // ---- decoding ----

  /** A received datagram; `npdu` is None for a BVLL-only message and for one that is not `ok`. */
  datatype Frame = Frame(ok: bool, bvlcFunction: Option<byte>, originatingMac: octets, npdu: Option<Npdu>)

  predicate Bit(v: byte, weight: nat)
    requires weight > 0
  {
    v / weight % 2 == 1
  }

  /** struct.unpack(">HB", ...), then that many octets of address. */
  function ReadAddress(d: octets, position: nat): (r: Outcome<(Option<Address>, nat)>)
    ensures r.Ok? ==> ValidAddress(r.value.0)
  {
    var head := Slice(d, position, position + 3);
    if |head| != 3 then Raise(StructError) else
    ToFromBytes(head[..2]);
    Pow256Values();
    Ok((Some(Address(FromBytes(head[..2]), Slice(d, position + 3, position + 3 + head[2]))), position + 3 + head[2]))
  }

  function ReadAddressIf(present: bool, d: octets, position: nat): (r: Outcome<(Option<Address>, nat)>)
    ensures r.Ok? ==> ValidAddress(r.value.0)
  {
    if present then ReadAddress(d, position) else Ok((None, position))
  }

  /** The message type and what follows it; a proprietary message carries a vendor id, which is skipped. */
  function ReadPayload(d: octets, position: nat, isMessage: bool): Outcome<(Option<byte>, octets)> {
    if !isMessage then Ok((None, Slice(d, position, |d|)))
    else if position >= |d| then Raise(IndexError)
    else Ok((Some(d[position]), Slice(d, position + (if d[position] >= 0x80 then 3 else 1), |d|)))
  }

  function DecodeNpdu(d: octets): (r: Outcome<Npdu>)
    requires |d| >= 2
    ensures r.Ok? ==> ValidAddress(r.value.destination) && ValidAddress(r.value.source)
  {
    var control := d[1];
    var (destination, p) :- ReadAddressIf(Bit(control, 0x20), d, 2);
    var (source, q) :- ReadAddressIf(Bit(control, 0x08), d, p);
    var (message, payload) :- ReadPayload(d, if Bit(control, 0x20) then q + 1 else q, Bit(control, 0x80));
    Ok(Npdu(destination, source, Bit(control, 0x04), message, payload))
  }

  predicate CarriesNpdu(bvlcFunction: byte) {
    bvlcFunction in {BVLC_FORWARDED_NPDU, BVLC_DISTRIBUTE_BROADCAST_TO_NETWORK, BVLC_ORIGINAL_UNICAST,
                     BVLC_ORIGINAL_BROADCAST}
  }

  /** Frame._decode */
  function DecodeFrame(data: octets): (r: Outcome<Frame>)
    ensures r.Ok? && r.value.npdu.Some? ==>
              ValidAddress(r.value.npdu.value.destination) && ValidAddress(r.value.npdu.value.source)
  {
    if |data| < 4 || data[0] != BVLC_TYPE then Ok(Frame(false, None, [], None))
    else if !CarriesNpdu(data[1]) then Ok(Frame(true, Some(data[1]), [], None))
    else
      var forwarded := data[1] == BVLC_FORWARDED_NPDU;
      var mac := if forwarded then Slice(data, 4, 10) else [];
      var d := Slice(data, if forwarded then 10 else 4, |data|);
      if |d| < 2 || d[0] != 0x01 then Ok(Frame(false, Some(data[1]), mac, None)) else
      var npdu :- DecodeNpdu(d);
      Ok(Frame(true, Some(data[1]), mac, Some(npdu)))
  }

  // ---- round trip ----

  lemma AddressAt(d: octets, position: nat, a: Option<Address>)
    requires ValidAddress(a) && At(d, position, AddressOctets(a))
    ensures ReadAddressIf(a.Some?, d, position) == Ok((a, position + |AddressOctets(a)|))
  {
    if a.Some? {
      var network, mac := ToBytes(a.value.network, 2), a.value.mac;
      AtSplit(d, position, network, [|mac|] + mac);
      AtSplit(d, position + 2, [|mac|], mac);
      var head := Slice(d, position, position + 3);
      assert head[..2] == d[position..position + 2] == network;
      assert head[2] == d[position + 2..position + 3][0] == |mac|;
      Pow256Values();
      FromToBytes(a.value.network, 2);
      assert Slice(d, position + 3, position + 3 + |mac|) == mac;
    }
  }

  lemma ControlBits(n: Npdu)
    ensures Bit(Control(n), 0x80) == n.networkMessage.Some? && Bit(Control(n), 0x20) == n.destination.Some?
    ensures Bit(Control(n), 0x08) == n.source.Some? && Bit(Control(n), 0x04) == n.expectingReply
  {
  }

  /** What a network message of a proprietary type delivers: its data without the vendor id. */
  function Delivered(n: Npdu): Npdu {
    if n.networkMessage.Some? && n.networkMessage.value >= 0x80
    then n.(payload := Slice(n.payload, 2, |n.payload|)) else n
  }

  lemma PayloadAt(d: octets, position: nat, n: Npdu, hopCount: byte)
    requires At(d, position, Trailer(n, hopCount) + n.payload)
    requires position + |Trailer(n, hopCount)| + |n.payload| == |d|
    ensures ReadPayload(d, if n.destination.Some? then position + 1 else position, n.networkMessage.Some?)
            == Ok((n.networkMessage, Delivered(n).payload))
  {
    hide At, Slice;
    var t := Trailer(n, hopCount);
    AtSplit(d, position, t, n.payload);
    TailSlices(d, position + |t|, n.payload);
    if n.networkMessage.Some? {
      LastAt(d, position, t);
    }
  }

  /** Every NPDU is decoded back: addresses, reply flag, message type and payload. */
  lemma NpduRoundTrip(n: Npdu, hopCount: byte)
    requires ValidAddress(n.destination) && ValidAddress(n.source)
    ensures DecodeNpdu(NpduOctets(n, hopCount)) == Ok(Delivered(n))
  {
    hide ReadAddressIf, AddressOctets, ReadPayload, Trailer, Control, Bit, At, Delivered;
    var d := NpduOctets(n, hopCount);
    var a, b, t := AddressOctets(n.destination), AddressOctets(n.source), Trailer(n, hopCount);
    ControlBits(n);
    AtTail([0x01, Control(n)], a + (b + (t + n.payload)));
    AtSplit(d, 2, a, b + (t + n.payload));
    AtSplit(d, 2 + |a|, b, t + n.payload);
    AddressAt(d, 2, n.destination);
    AddressAt(d, 2 + |a|, n.source);
    PayloadAt(d, 2 + |a| + |b|, n, hopCount);
    DeliveredRest(n);
  }

  lemma DeliveredRest(n: Npdu)
    ensures Delivered(n) == n.(payload := Delivered(n).payload)
  {
  }

  /** bvlc(npdu(...)) as unicast or broadcast, and Distribute-Broadcast-To-Network. */
  lemma FrameRoundTrip(bvlcFunction: byte, n: Npdu, hopCount: byte)
    requires CarriesNpdu(bvlcFunction) && bvlcFunction != BVLC_FORWARDED_NPDU
    requires ValidAddress(n.destination) && ValidAddress(n.source) && |NpduOctets(n, hopCount)| + 4 < 0x1_0000
    ensures DecodeFrame(Bvll(bvlcFunction, NpduOctets(n, hopCount)))
            == Ok(Frame(true, Some(bvlcFunction), [], Some(Delivered(n))))
  {
    hide DecodeNpdu, Delivered, Control;
    var body := NpduOctets(n, hopCount);
    NpduRoundTrip(n, hopCount);
    var data := Bvll(bvlcFunction, body);
    assert Slice(data, 4, |data|) == body;
  }

  lemma ForwardedRoundTrip(mac: octets, n: Npdu, hopCount: byte)
    requires |mac| == 6 && ValidAddress(n.destination) && ValidAddress(n.source)
    requires |NpduOctets(n, hopCount)| + 10 < 0x1_0000
    ensures DecodeFrame(ForwardedNpdu(mac, NpduOctets(n, hopCount)))
            == Ok(Frame(true, Some(BVLC_FORWARDED_NPDU), mac, Some(Delivered(n))))
  {
    hide DecodeNpdu, Delivered, Control;
    var body := NpduOctets(n, hopCount);
    NpduRoundTrip(n, hopCount);
    var data := ForwardedNpdu(mac, body);
    assert Slice(data, 10, |data|) == body;
    assert Slice(data, 4, 10) == mac;
  }

  // ---- replies ----

  /** The octets in front of an APDU that goes to `destination`. */
  function HeaderSize(destination: Option<Address>): nat {
    6 + (if destination.Some? then 4 + |destination.value.mac| else 0)
  }

  lemma ApduFrameSize(n: Npdu, hopCount: byte)
    requires ValidAddress(n.destination) && n.source.None? && n.networkMessage.None?
    ensures |NpduOctets(n, hopCount)| + 4 == HeaderSize(n.destination) + |n.payload|
  {
  }

  /** bvlc(npdu(apdu, ...)): what a client sends and what a peer answers with. */
  function ApduFrame(destination: Option<Address>, expectingReply: bool, apdu: octets): (r: octets)
    requires ValidAddress(destination) && HeaderSize(destination) + |apdu| < 0x1_0000
    ensures |r| == HeaderSize(destination) + |apdu|
  {
    var n := Npdu(destination, None, expectingReply, None, apdu);
    ApduFrameSize(n, 255);
    Bvll(BVLC_ORIGINAL_UNICAST, NpduOctets(n, 255))
  }

  lemma ApduFrameRoundTrip(destination: Option<Address>, expectingReply: bool, apdu: octets)
    requires ValidAddress(destination) && HeaderSize(destination) + |apdu| < 0x1_0000
    ensures DecodeFrame(ApduFrame(destination, expectingReply, apdu)) ==
            Ok(Frame(true, Some(BVLC_ORIGINAL_UNICAST), [], Some(Npdu(destination, None, expectingReply, None, apdu))))
  {
    hide DecodeFrame, NpduOctets;
    var n := Npdu(destination, None, expectingReply, None, apdu);
    ApduFrameSize(n, 255);
    FrameRoundTrip(BVLC_ORIGINAL_UNICAST, n, 255);
  }

  /** The octets of an APDU sent to a network: after the BVLL header the version, the control octet,
      DNET, DLEN and DADR, the hop count 255, and the APDU. */
  lemma RoutedOctets(a: Address, expectingReply: bool, apdu: octets)
    requires a.Valid() && HeaderSize(Some(a)) + |apdu| < 0x1_0000
    ensures var d := ApduFrame(Some(a), expectingReply, apdu); var n := |a.mac|;
            && d[..2] == [0x81, 0x0A] && FromBytes(d[2..4]) == |d|
            && d[4] == 1 && d[5] == (if expectingReply then 0x24 else 0x20)
            && FromBytes(d[6..8]) == a.network && d[8] == n && d[9..9 + n] == a.mac && d[9 + n] == 255
            && d[10 + n..] == apdu
  {
    hide FromBytes, ToBytes, Control;
    var n := Npdu(Some(a), None, expectingReply, None, apdu);
    ApduFrameSize(n, 255);
    RoutedControl(n);
    var size := |NpduOctets(n, 255)| + 4;
    var head, network := ToBytes(size, 2), ToBytes(a.network, 2);
    Pow256Values();
    FromToBytes(size, 2);
    FromToBytes(a.network, 2);
    var d := ApduFrame(Some(a), expectingReply, apdu);
    assert NpduOctets(n, 255) == [1, Control(n)] + (network + ([|a.mac|] + a.mac) + ([] + ([255] + [] + apdu)));
    assert d == ([0x81, 0x0A] + head) + ([1, Control(n)] + ((network + [|a.mac|]) + (a.mac + ([255] + apdu))));
    RoutedPieces([0x81, 0x0A], head, [1, Control(n)], network, a.mac, apdu);
  }

  lemma RoutedControl(n: Npdu)
    requires n.destination.Some? && n.source.None? && n.networkMessage.None?
    ensures Control(n) == if n.expectingReply then 0x24 else 0x20
  {
  }

  lemma RoutedPieces(bvll: octets, size: octets, version: octets, network: octets, mac: octets, apdu: octets)
    requires |bvll| == |size| == |version| == |network| == 2 && |mac| < 256
    ensures var d := (bvll + size) + (version + ((network + [|mac|]) + (mac + ([255] + apdu)))); var n := |mac|;
            && |d| == 10 + n + |apdu| && d[..2] == bvll && d[2..4] == size && d[4..6] == version && d[6..8] == network
            && d[4] == version[0] && d[5] == version[1]
            && d[8] == n && d[9..9 + n] == mac && d[9 + n] == 255 && d[10 + n..] == apdu
  {
    var d := (bvll + size) + (version + ((network + [|mac|]) + (mac + ([255] + apdu))));
    assert d[4..6] == version;
  }

  /** SimulatedDevice._reply: the answer goes back to where the request says it came from;
      bvll raises when the length does not fit its two octets. */
  function ReplyDatagram(request: Npdu, apdu: octets): Outcome<octets>
    requires ValidAddress(request.source)
  {
    if HeaderSize(request.source) + |apdu| >= 0x1_0000 then Raise(StructError)
    else Ok(ApduFrame(request.source, false, apdu))
  }

  /** The reply to any request that was decoded from a datagram is routed back: its DNET/DADR
      are the request's SNET/SADR, and its payload is the answer. */
  lemma ReplyIsRouted(data: octets, apdu: octets)
    requires DecodeFrame(data).Ok? && DecodeFrame(data).value.npdu.Some?
    ensures var request := DecodeFrame(data).value.npdu.value; var reply := ReplyDatagram(request, apdu);
            && (reply.Ok? <==> HeaderSize(request.source) + |apdu| < 0x1_0000)
            && var routed := Npdu(request.source, None, false, None, apdu);
            && (reply.Ok? ==>
                  DecodeFrame(reply.value) == Ok(Frame(true, Some(BVLC_ORIGINAL_UNICAST), [], Some(routed))))
  {
    hide DecodeFrame, ApduFrame;
    var request := DecodeFrame(data).value.npdu.value;
    if ReplyDatagram(request, apdu).Ok? {
      ApduFrameRoundTrip(request.source, false, apdu);
    }
  }
}
