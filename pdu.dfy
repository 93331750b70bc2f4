/**
 * The virtual channel PDU as the parser hands it over: the CHANNEL_PDU_HEADER
 * of section 2.2.6.1.1 of MS-RDPBCGR (total length and flags) with the
 * fragment's payload.
 */
module VirtualChannelPdu {
  import opened Base

  // The flags are a Python int used as a bit set; each flag below is one bit.

  /** CHANNEL_FLAG_FIRST: the fragment opens a message. */
  const CHANNEL_FLAG_FIRST: nat := 0x0000_0001
  /** CHANNEL_FLAG_LAST: the fragment closes a message. */
  const CHANNEL_FLAG_LAST: nat := 0x0000_0002
  /** CHANNEL_FLAG_SHOW_PROTOCOL: the channel header is to be shown to the peer's channel handler. */
  const CHANNEL_FLAG_SHOW_PROTOCOL: nat := 0x0000_0010
  /** CHANNEL_PACKET_COMPRESSED: the payload is MPPC-compressed. */
  const CHANNEL_PACKET_COMPRESSED: nat := 0x0020_0000

  /** `VirtualChannelPDU(length, flags, payload)`. */
  datatype VCPdu = VCPdu(length: nat, flags: nat, payload: seq<byte>)

  // `flags & F` for a one-bit F is non-zero exactly when that bit of `flags` is 1.
  predicate IsFirst(flags: nat) { flags % 2 == 1 }
  predicate IsLast(flags: nat) { (flags / 0x2) % 2 == 1 }
  predicate IsShowProtocol(flags: nat) { (flags / 0x10) % 2 == 1 }
  predicate IsCompressed(flags: nat) { (flags / 0x20_0000) % 2 == 1 }

  /** The payloads of a run of fragments, joined in arrival order. */
  function Payloads(frags: seq<VCPdu>): seq<byte>
  {
    if frags == [] then [] else frags[0].payload + Payloads(frags[1..])
  }

  lemma {:induction false} PayloadsConcat(xs: seq<VCPdu>, ys: seq<VCPdu>)
    ensures Payloads(xs + ys) == Payloads(xs) + Payloads(ys)
  {
    if xs == [] {
      assert xs + ys == ys;
    } else {
      assert (xs + ys)[0] == xs[0];
      assert (xs + ys)[1..] == xs[1..] + ys;
      PayloadsConcat(xs[1..], ys);
    }
  }
}
