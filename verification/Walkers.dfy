/** Two independent walks over the same datagram: the decoder's, and the one that labels
    console lines (SummarizeBacnetFrame). */
module Walkers {
  import opened Octets
  import opened Frames

  // ---- what the decoder says about an APDU ----

  const PDU_CONFIRMED_REQUEST: byte := 0
  const PDU_UNCONFIRMED_REQUEST: byte := 1
  const PDU_SIMPLE_ACK: byte := 2
  const PDU_COMPLEX_ACK: byte := 3
  const PDU_ERROR: byte := 5
  const PDU_REJECT: byte := 6
  const PDU_ABORT: byte := 7

  function Payload(f: Frame): octets { if f.npdu.Some? then f.npdu.value.payload else [] }

  function NetworkMessage(f: Frame): Option<byte> { if f.npdu.Some? then f.npdu.value.networkMessage else None }

  function PduType(f: Frame): Option<byte> {
    if NetworkMessage(f).None? && Payload(f) != [] then Some(Payload(f)[0] / 16) else None
  }

  function OctetAt(d: octets, i: nat): Outcome<Option<byte>> {
    if i < |d| then Ok(Some(d[i])) else Raise(IndexError)
  }

  function InvokeId(f: Frame): Outcome<Option<byte>> {
    match PduType(f)
    case None => Ok(None)
    case Some(t) =>
      if t in {PDU_SIMPLE_ACK, PDU_COMPLEX_ACK, PDU_ERROR, PDU_REJECT, PDU_ABORT} then OctetAt(Payload(f), 1)
      else if t == PDU_CONFIRMED_REQUEST && |Payload(f)| > 2 then OctetAt(Payload(f), 2)
      else Ok(None)
  }

  function Service(f: Frame): Outcome<Option<byte>> {
    match PduType(f)
    case None => Ok(None)
    case Some(t) =>
      if t in {PDU_SIMPLE_ACK, PDU_COMPLEX_ACK, PDU_ERROR} then OctetAt(Payload(f), 2)
      else if t == PDU_CONFIRMED_REQUEST && |Payload(f)| > 3 then OctetAt(Payload(f), 3)
      else if t == PDU_UNCONFIRMED_REQUEST && |Payload(f)| > 1 then OctetAt(Payload(f), 1)
      else Ok(None)
  }

  // ---- SummarizeBacnetFrame ----

  /** The label without its wording: what it names, and the number it names it from. */
  datatype Summary =
    | Unknown
    | BvlcOnly(bvlcFunction: byte)
    | NetworkLayerMessage(messageType: byte)
    | Pdu(pduType: byte, choice: Option<byte>)

  /** frame[offset] ?? 0 */
  function OrZero(d: octets, offset: nat): byte { if offset < |d| then d[offset] else 0 }

  /** serviceChoiceAt */
  function ChoiceAt(d: octets, offset: nat): Option<byte> { if offset < |d| then Some(d[offset]) else None }

  function SkipAddress(d: octets, offset: nat, present: bool): nat {
    if present then offset + 2 + 1 + OrZero(d, offset + 2) else offset
  }

  function ApduOffset(frame: octets, npdu: nat): nat
    requires npdu + 2 <= |frame|
  {
    var control := frame[npdu + 1];
    var p := SkipAddress(frame, npdu + 2, Bit(control, 0x20));
    var q := SkipAddress(frame, p, Bit(control, 0x08));
    if Bit(control, 0x20) then q + 1 else q
  }

  predicate Segmented(first: byte) { Bit(first, 0x08) }

  function SummarizeApdu(frame: octets, offset: nat): Summary
    requires offset < |frame|
  {
    var pduType := frame[offset] / 16;
    match pduType
    case 0 => Pdu(0, ChoiceAt(frame, offset + (if Segmented(frame[offset]) then 5 else 3)))
    case 1 => Pdu(1, ChoiceAt(frame, offset + 1))
    case 2 => Pdu(2, ChoiceAt(frame, offset + 2))
    case 3 => Pdu(3, ChoiceAt(frame, offset + (if Segmented(frame[offset]) then 4 else 2)))
    case 4 => Pdu(4, None)
    case 5 => Pdu(5, ChoiceAt(frame, offset + 2))
    case 6 => Pdu(6, ChoiceAt(frame, offset + 2))
    case 7 => Pdu(7, ChoiceAt(frame, offset + 2))
    case _ => Unknown
  }

  function Summarize(frame: octets): Summary {
    if |frame| < 4 || frame[0] != 0x81 then Unknown
    else if frame[1] !in {0x04, 0x0A, 0x0B} then BvlcOnly(frame[1])
    else
      var npdu := if frame[1] == 0x04 then 10 else 4;
      if npdu + 2 > |frame| then Unknown else
      var offset := ApduOffset(frame, npdu);
      if offset >= |frame| then Unknown
      else if Bit(frame[npdu + 1], 0x80) then NetworkLayerMessage(frame[offset])
      else SummarizeApdu(frame, offset)
  }

  // ---- agreement ----

  /** Where the decoder's positions, counted from the NPDU, lie in the frame. */
  lemma AddressWalk(frame: octets, npdu: nat, p: nat, present: bool)
    requires npdu <= |frame|
    requires ReadAddressIf(present, frame[npdu..], p).Ok?
    ensures SkipAddress(frame, npdu + p, present) == npdu + ReadAddressIf(present, frame[npdu..], p).value.1
  {
    var d := frame[npdu..];
    if present {
      var head := Slice(d, p, p + 3);
      assert head[2] == d[p + 2] == frame[npdu + p + 2];
    }
  }

  /** What the decoder makes of the octets from the APDU offset on. */
  function FrameSummary(f: Frame): Summary {
    if NetworkMessage(f).Some? then NetworkLayerMessage(NetworkMessage(f).value)
    else if Payload(f) == [] then Unknown
    else SummarizeApdu(Payload(f), 0)
  }

  lemma ApduWalk(frame: octets, offset: nat)
    requires offset < |frame|
    ensures SummarizeApdu(frame, offset) == SummarizeApdu(frame[offset..], 0)
  {
    var d := frame[offset..];
    assert forall i {:trigger ChoiceAt(d, i)} :: i >= 0 ==> ChoiceAt(d, i) == ChoiceAt(frame, offset + i);
    assert ChoiceAt(d, 5) == ChoiceAt(frame, offset + 5);
  }

  lemma PayloadWalk(frame: octets, npdu: nat, n: Npdu, offset: nat)
    requires npdu + 2 <= |frame| && offset >= npdu
    requires var r := ReadPayload(frame[npdu..], offset - npdu, Bit(frame[npdu + 1], 0x80));
             r.Ok? && r.value.0 == n.networkMessage && r.value.1 == n.payload
    ensures (if offset >= |frame| then Unknown
             else if Bit(frame[npdu + 1], 0x80) then NetworkLayerMessage(frame[offset])
             else SummarizeApdu(frame, offset)) ==
            FrameSummary(Frame(true, Some(frame[1]), [], Some(n)))
  {
    hide SummarizeApdu;
    var d := frame[npdu..];
    if offset < |frame| {
      assert d[offset - npdu] == frame[offset];
      if n.networkMessage.None? {
        assert n.payload == d[offset - npdu..] == frame[offset..];
        ApduWalk(frame, offset);
      }
    }
  }

  lemma DecodeSteps(d: octets, n: Npdu)
    requires |d| >= 2 && DecodeNpdu(d) == Ok(n)
    ensures var bit := Bit(d[1], 0x20);
            && ReadAddressIf(bit, d, 2).Ok?
            && var p := ReadAddressIf(bit, d, 2).value.1;
            && ReadAddressIf(Bit(d[1], 0x08), d, p).Ok?
            && var q := ReadAddressIf(Bit(d[1], 0x08), d, p).value.1;
            && var r := ReadPayload(d, if bit then q + 1 else q, Bit(d[1], 0x80));
            && r.Ok? && r.value.0 == n.networkMessage && r.value.1 == n.payload
  {
    hide ReadAddressIf, ReadPayload, Bit;
  }

  /** For every frame the decoder accepts with an NPDU of function X'04', X'0A' or X'0B', the
      other walker reaches the same octet and labels it from the same numbers. */
  lemma WalkersAgree(frame: octets, f: Frame)
    requires DecodeFrame(frame) == Ok(f) && f.ok && f.bvlcFunction.value in {0x04, 0x0A, 0x0B}
    ensures Summarize(frame) == FrameSummary(f)
  {
    hide ReadAddressIf, SkipAddress, ReadPayload, SummarizeApdu, Bit, FrameSummary;
    var npdu := if frame[1] == 0x04 then 10 else 4;
    assert Slice(frame, npdu, |frame|) == frame[npdu..];
    var d := frame[npdu..];
    assert DecodeNpdu(d) == Ok(f.npdu.value);
    DecodeSteps(d, f.npdu.value);
    var control := d[1];
    var p := ReadAddressIf(Bit(control, 0x20), d, 2).value.1;
    var q := ReadAddressIf(Bit(control, 0x08), d, p).value.1;
    AddressWalk(frame, npdu, 2, Bit(control, 0x20));
    AddressWalk(frame, npdu, p, Bit(control, 0x08));
    var n := f.npdu.value;
    var offset := if Bit(control, 0x20) then q + 1 else q;
    assert frame[npdu + 1] == control;
    assert ApduOffset(frame, npdu) - npdu == offset;
    PayloadWalk(frame, npdu, n, ApduOffset(frame, npdu));
    SummaryOfNpdu(f, Frame(true, Some(frame[1]), [], Some(n)));
  }

  lemma SummaryOfNpdu(f: Frame, g: Frame)
    requires f.npdu == g.npdu
    ensures FrameSummary(f) == FrameSummary(g)
  {
    hide SummarizeApdu;
  }

  /** Answer.reject_reason and Answer.abort_reason */
  function Reason(d: octets): Option<byte> { if |d| < 3 then None else Some(d[2]) }

  /** The label and the decoder agree on the PDU type of every APDU, on the reason of a Reject
      or Abort, and on the service choice of every unsegmented one. In a segmented
      Confirmed-Request or ComplexACK (clauses 20.1.2 and 20.1.5) the decoder takes the sequence
      number for the service choice: they agree exactly when both octets are there and happen to
      be equal, or when a Confirmed-Request is too short for either to find one. */
  lemma ServiceChoiceAgrees(f: Frame)
    requires PduType(f).Some?
    ensures var d := Payload(f); var t := PduType(f).value; var segmented := t in {0, 3} && Segmented(d[0]);
            var reported := FrameSummary(f);
            && (t > 7 <==> reported == Unknown)
            && (t <= 7 ==> reported.Pdu? && reported.pduType == t)
            && (t == 4 ==> reported.choice == None) && (t in {6, 7} ==> reported.choice == Reason(d))
            && (t in {0, 1, 2, 3, 5} && !segmented ==>
                  match reported.choice
                  case Some(c) => Service(f) == Ok(Some(c))
                  case None => Service(f) == (if t <= 1 then Ok(None) else Raise(IndexError)))
            && (segmented ==>
                  (Service(f) == Ok(reported.choice) <==>
                   if t == 0 then |d| <= 3 || (|d| > 5 && d[3] == d[5]) else |d| > 4 && d[2] == d[4]))
  {
  }

  /** Of what is no BACnet/IP frame neither makes anything. A message of the BVLL alone both report by
      its function. And Distribute-Broadcast-To-Network, X'09', carries an NPDU for the decoder and
      nothing but its function for the label. */
  lemma OtherFrames(frame: octets)
    ensures |frame| < 4 || frame[0] != 0x81 ==>
              Summarize(frame) == Unknown && DecodeFrame(frame).Ok? && !DecodeFrame(frame).value.ok
    ensures |frame| >= 4 && frame[0] == 0x81 && frame[1] !in {0x04, 0x09, 0x0A, 0x0B} ==>
              && Summarize(frame) == BvlcOnly(frame[1])
              && DecodeFrame(frame) == Ok(Frame(true, Some(frame[1]), [], None))
    ensures |frame| >= 4 && frame[0] == 0x81 && frame[1] == 0x09 ==>
              && Summarize(frame) == BvlcOnly(0x09)
              && (DecodeFrame(frame).Ok? && DecodeFrame(frame).value.ok ==> DecodeFrame(frame).value.npdu.Some?)
  {
    hide DecodeNpdu;
  }

  /** A segmented ReadPropertyMultiple-ACK, sequence number 0: the label says 14, the decoder 0. */
  lemma SegmentedAckDisagrees()
    ensures var f := Frame(true, Some(0x0A), [], Some(Npdu(None, None, false, None, [0x3C, 7, 0, 4, 14, 0x0C])));
            FrameSummary(f) == Pdu(3, Some(14)) && Service(f) == Ok(Some(0))
  {
  }
}
