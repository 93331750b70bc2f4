/**
 * An explicit chunking of a channel PDU into wire fragments, following
 * section 3.1.5.2.1 of MS-RDPBCGR: every fragment repeats the total length,
 * FIRST is set on the first fragment only, LAST on the last only, the other
 * flag bits are copied, and every fragment but the last carries exactly
 * `chunk` bytes (CHANNEL_CHUNK_LENGTH, 1600 by default). The layer's own
 * parser is not part of this model; this function is the reference its
 * `write` is compared with.
 */
module Fragmentation {
  import opened Base
  import opened VirtualChannelPdu
  import opened Reassembly

  /** CHANNEL_CHUNK_LENGTH, the default VCChunkSize of MS-RDPBCGR section 2.2.7.1.10, used for chunking in section 3.1.5.2.1. */
  const CHANNEL_CHUNK_LENGTH: nat := 1600

  /** The flag bits a fragment copies from the PDU it belongs to: all but FIRST and LAST. */
  function OtherFlags(flags: nat): nat
  {
    flags - flags % 4
  }

  /** The source PDU's flags with FIRST and LAST replaced by the fragment's position. */
  function FragmentFlags(flags: nat, first: bool, last: bool): (f: nat)
    ensures IsFirst(f) == first && IsLast(f) == last
  {
    OtherFlags(flags)
    + (if first then CHANNEL_FLAG_FIRST else 0)
    + (if last then CHANNEL_FLAG_LAST else 0)
  }

  /** Only FIRST and LAST change: SHOW_PROTOCOL, COMPRESSED and every other bit are copied. */
  lemma FragmentFlagsKeepOthers(flags: nat, first: bool, last: bool)
    ensures OtherFlags(FragmentFlags(flags, first, last)) == OtherFlags(flags)
  {
  }

  /** The fragments for the bytes `rest` still to be sent; `first` tells whether none has been sent yet. */
  function Split(length: nat, flags: nat, rest: seq<byte>, chunk: nat, first: bool): (fs: seq<VCPdu>)
    requires chunk > 0
    ensures |fs| > 0
    decreases |rest|
  {
    if |rest| <= chunk then [VCPdu(length, FragmentFlags(flags, first, true), rest)]
    else [VCPdu(length, FragmentFlags(flags, first, false), rest[..chunk])]
         + Split(length, flags, rest[chunk..], chunk, false)
  }

  function Fragments(pdu: VCPdu, chunk: nat): (fs: seq<VCPdu>)
    requires chunk > 0
    ensures |fs| > 0
  {
    Split(pdu.length, pdu.flags, pdu.payload, chunk, true)
  }

  /** FIRST only on the first fragment (and only when none was sent before), LAST only on the last. */
  lemma {:induction false} SplitPositions(length: nat, flags: nat, rest: seq<byte>, chunk: nat, first: bool)
    requires chunk > 0
    ensures var fs := Split(length, flags, rest, chunk, first);
      && IsFirst(fs[0].flags) == first
      && IsLast(fs[|fs| - 1].flags)
      && (forall i :: 0 < i < |fs| ==> !IsFirst(fs[i].flags))
      && (forall i :: 0 <= i < |fs| - 1 ==> !IsLast(fs[i].flags))
    decreases |rest|
  {
    if |rest| > chunk {
      var fs := Split(length, flags, rest, chunk, first);
      var tail := Split(length, flags, rest[chunk..], chunk, false);
      SplitPositions(length, flags, rest[chunk..], chunk, false);
      assert forall i :: 0 < i < |fs| ==> fs[i] == tail[i - 1];
    }
  }

  /** Every fragment repeats the total length; all but the last carry exactly `chunk` bytes; together they carry `rest`. */
  lemma {:induction false} SplitSizes(length: nat, flags: nat, rest: seq<byte>, chunk: nat, first: bool)
    requires chunk > 0
    ensures var fs := Split(length, flags, rest, chunk, first);
      && (forall i :: 0 <= i < |fs| ==> fs[i].length == length && |fs[i].payload| <= chunk)
      && (forall i :: 0 <= i < |fs| - 1 ==> |fs[i].payload| == chunk)
      && Payloads(fs) == rest
    decreases |rest|
  {
    var fs := Split(length, flags, rest, chunk, first);
    if |rest| <= chunk {
      assert fs[1..] == [];
    } else {
      var tail := Split(length, flags, rest[chunk..], chunk, false);
      SplitSizes(length, flags, rest[chunk..], chunk, false);
      assert fs[1..] == tail;
      assert forall i :: 0 < i < |fs| ==> fs[i] == tail[i - 1];
      assert rest == rest[..chunk] + rest[chunk..];
    }
  }

  /** Every fragment copies the PDU's other flag bits; the last one's flags are known exactly. */
  lemma {:induction false} SplitOtherFlags(length: nat, flags: nat, rest: seq<byte>, chunk: nat, first: bool)
    requires chunk > 0
    ensures var fs := Split(length, flags, rest, chunk, first);
      && (forall i :: 0 <= i < |fs| ==> OtherFlags(fs[i].flags) == OtherFlags(flags))
      && fs[|fs| - 1].flags == FragmentFlags(flags, first && |fs| == 1, true)
    decreases |rest|
  {
    var fs := Split(length, flags, rest, chunk, first);
    FragmentFlagsKeepOthers(flags, first, |rest| <= chunk);
    if |rest| > chunk {
      var tail := Split(length, flags, rest[chunk..], chunk, false);
      SplitOtherFlags(length, flags, rest[chunk..], chunk, false);
      assert forall i :: 0 < i < |fs| ==> fs[i] == tail[i - 1];
    }
  }

  /**
   * The fragments of a PDU form one framed message carrying the PDU's length,
   * its flags other than FIRST and LAST, and its payload.
   */
  lemma FragmentsShape(pdu: VCPdu, chunk: nat)
    requires chunk > 0
    ensures var fs := Fragments(pdu, chunk);
      && Framed(fs)
      && Payloads(fs) == pdu.payload
      && (forall i :: 0 <= i < |fs| ==> fs[i].length == pdu.length && |fs[i].payload| <= chunk)
      && (forall i :: 0 <= i < |fs| - 1 ==> |fs[i].payload| == chunk)
      && (forall i :: 0 <= i < |fs| ==> OtherFlags(fs[i].flags) == OtherFlags(pdu.flags))
  {
    SplitPositions(pdu.length, pdu.flags, pdu.payload, chunk, true);
    SplitSizes(pdu.length, pdu.flags, pdu.payload, chunk, true);
    SplitOtherFlags(pdu.length, pdu.flags, pdu.payload, chunk, true);
  }

  /**
   * Reassembly undoes fragmentation: receiving the fragments of a PDU, from
   * any buffer, hands the observer exactly one PDU with the original length
   * and payload, and flags that differ from the original only in FIRST and LAST.
   */
  lemma FragmentsReassemble(buffer: seq<byte>, pdu: VCPdu, chunk: nat, hasNext: bool)
    requires chunk > 0
    ensures var fs := Fragments(pdu, chunk);
            var r := ReceiveAll(buffer, fs, hasNext);
      && r.buffer == pdu.payload
      && Delivered(r.events) == [VCPdu(pdu.length, FragmentFlags(pdu.flags, |fs| == 1, true), pdu.payload)]
  {
    var fs := Fragments(pdu, chunk);
    FragmentsShape(pdu, chunk);
    SplitOtherFlags(pdu.length, pdu.flags, pdu.payload, chunk, true);
    MessageReassembled(buffer, fs, hasNext);
  }
}
