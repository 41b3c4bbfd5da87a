/** The receiving loop of a client, on the assembler as implemented. */
module Receiver {
  import opened Words
  import opened Wire
  import opened Reassembly
  import opened FrameAssembler
  import opened EndToEnd

  /** One received datagram: anything but a well-formed VIDEO slice is passed over, a slice is fed. */
  method OnDatagram(assembler: Assembler, dg: Bytes) returns (frame: Option<AssembledFrame>)
    requires assembler.Valid()
    modifies assembler, assembler.pending
    ensures assembler.Valid()
    ensures (assembler.View(), frame) == Receive(old(assembler.View()), dg)
    ensures !(|dg| >= 8 && dg[..4] == [0x57, 0x53, 0x55, 0x31] && dg[5] == 4) ==>
              frame.None? && assembler.View() == old(assembler.View())
  {
    KindOnWire(dg);
    var h := ParseHeader(dg);
    if h.None? || h.value.kind != PKT_VIDEO {
      return None;
    }
    var parsed := ParseVideo(dg[HEADER_SIZE..]);
    if parsed.None? {
      return None;
    }
    var (v, payload) := parsed.value;
    assert payload[..v.payloadLen] == payload;
    frame := assembler.Feed(v, payload);
  }
}
