/**
 * `VirtualChannelLayer`: the layer that reassembles virtual channel messages
 * from fragments on the way up and wraps outbound payloads into virtual
 * channel PDUs on the way down.
 */
module VirtualChannel {
  import opened Base
  import opened VirtualChannelPdu
  import opened Reassembly
  import opened Fragmentation

  /**
   * The parser capability the layer is built with. Its byte layout is not part
   * of this model: only its two operations are, as arbitrary functions.
   * `parse` may raise; `write` returns the raw chunks to put on the wire.
   */
  datatype Parser = Parser(parse: seq<byte> -> Result<VCPdu>, write: VCPdu -> seq<seq<byte>>)

  /** The flags of every outbound PDU (`|` of distinct bits is their sum). */
  function OutboundFlags(showProtocol: bool): (f: nat)
    ensures IsFirst(f) && IsLast(f)
    ensures IsShowProtocol(f) <==> showProtocol
    ensures !IsCompressed(f)
    ensures OtherFlags(f) == (if showProtocol then CHANNEL_FLAG_SHOW_PROTOCOL else 0)
  {
    CHANNEL_FLAG_FIRST + CHANNEL_FLAG_LAST + (if showProtocol then CHANNEL_FLAG_SHOW_PROTOCOL else 0)
  }

  /** The PDU `send` builds around a payload. */
  function OutboundPdu(payload: seq<byte>, showProtocol: bool): VCPdu
  {
    VCPdu(|payload|, OutboundFlags(showProtocol), payload)
  }

  /** The `previous.send` calls for a list of chunks, in order. */
  function SentDownAll(chunks: seq<seq<byte>>): seq<Event>
  {
    seq(|chunks|, i requires 0 <= i < |chunks| => SentDown(chunks[i]))
  }

  class VirtualChannelLayer {
    const mainParser: Parser
    const activateShowProtocolFlag: bool
    /** Set to true by the layer's constructor through `Layer.__init__`. */
    const hasNext: bool
    /** The reassembly buffer. */
    var pduBuffer: seq<byte>
    /** Observer notifications, logged errors and downward sends, in order. */
    ghost var trace: seq<Event>

    constructor (parser: Parser, activateShowProtocolFlag: bool)
      ensures mainParser == parser && this.activateShowProtocolFlag == activateShowProtocolFlag
      ensures hasNext
      ensures pduBuffer == [] && trace == []
    {
      mainParser := parser;
      hasNext := true;
      this.activateShowProtocolFlag := activateShowProtocolFlag;
      pduBuffer := [];
      trace := [];
    }

    /**
     * The reassembly step of `recv`, on the PDU the parser returned.
     * `deliver` says how `pduReceived` ends; when it raises, the buffer has
     * already been updated and the exception propagates.
     */
    method ReceivePdu(pdu: VCPdu, deliver: Outcome) returns (r: Outcome)
      modifies this
      ensures var s := Receive(old(pduBuffer), pdu, hasNext);
              pduBuffer == s.buffer && trace == old(trace) + s.events
      ensures r == (if IsLast(pdu.flags) then deliver else Pass)
    {
      if IsCompressed(pdu.flags) {
        trace := trace + [CompressionError];
      }
      if IsFirst(pdu.flags) {
        pduBuffer := pdu.payload;
      } else {
        pduBuffer := pduBuffer + pdu.payload;
      }
      r := Pass;
      if IsLast(pdu.flags) {
        var reassembled := pdu.(payload := pduBuffer);
        trace := trace + [PduReceived(reassembled, hasNext)];
        r := deliver;
      }
    }

    /**
     * `recv`: parse the raw bytes, then reassemble. A parse error propagates
     * and changes nothing; an exception from `pduReceived` (`deliver`)
     * propagates after the buffer is updated.
     */
    method Recv(data: seq<byte>, deliver: Outcome) returns (r: Outcome)
      modifies this
      ensures mainParser.parse(data).Failure? ==>
                r == Fail(mainParser.parse(data).error) && pduBuffer == old(pduBuffer) && trace == old(trace)
      ensures mainParser.parse(data).Success? ==>
                var pdu := mainParser.parse(data).value;
                var s := Receive(old(pduBuffer), pdu, hasNext);
                && pduBuffer == s.buffer && trace == old(trace) + s.events
                && r == (if IsLast(pdu.flags) then deliver else Pass)
    {
      var parsed := mainParser.parse(data);
      if parsed.Failure? {
        return Fail(parsed.error);
      }
      r := ReceivePdu(parsed.value, deliver);
    }

    /**
     * `send`: one FIRST|LAST PDU around the payload, each chunk of its
     * encoding pushed down in order. The `j`-th `previous.send` ends as
     * `sent(j)`; the first one that raises ends the loop, the later chunks
     * are not sent and the exception propagates.
     */
    method Send(payload: seq<byte>, sent: nat -> Outcome) returns (r: Outcome)
      modifies this`trace
      ensures pduBuffer == old(pduBuffer)
      ensures var chunks := mainParser.write(OutboundPdu(payload, activateShowProtocolFlag));
              var k := FirstFailure(sent, |chunks|);
              if k < |chunks| then r == sent(k) && trace == old(trace) + SentDownAll(chunks[..k + 1])
              else r == Pass && trace == old(trace) + SentDownAll(chunks)
    {
      var pdu := VCPdu(|payload|, OutboundFlags(activateShowProtocolFlag), payload);
      var chunks := mainParser.write(pdu);
      var i := 0;
      while i < |chunks|
        invariant 0 <= i <= |chunks|
        invariant forall j :: 0 <= j < i ==> sent(j) == Pass
        invariant trace == old(trace) + SentDownAll(chunks[..i])
      {
        assert SentDownAll(chunks[..i + 1]) == SentDownAll(chunks[..i]) + [SentDown(chunks[i])];
        trace := trace + [SentDown(chunks[i])];
        if sent(i).Fail? {
          return sent(i);
        }
        i := i + 1;
      }
      assert chunks[..|chunks|] == chunks;
      r := Pass;
    }
  }

  // ---------------------------------------------------------------------------
  // Raw chunks

  datatype ChunksOutcome = ChunksOutcome(state: RecvOutcome, result: Outcome)

  /**
   * `recv` called on each raw chunk in turn, with every `pduReceived`
   * returning normally; the first parse error ends the run and propagates.
   */
  function ReceiveChunks(parser: Parser, buffer: seq<byte>, datas: seq<seq<byte>>, hasNext: bool): ChunksOutcome
    decreases |datas|
  {
    if datas == [] then ChunksOutcome(RecvOutcome(buffer, []), Pass)
    else match parser.parse(datas[0])
      case Failure(e) => ChunksOutcome(RecvOutcome(buffer, []), Fail(e))
      case Success(pdu) =>
        var first := Receive(buffer, pdu, hasNext);
        var rest := ReceiveChunks(parser, first.buffer, datas[1..], hasNext);
        ChunksOutcome(RecvOutcome(rest.state.buffer, first.events + rest.state.events), rest.result)
  }

  /** When every chunk parses, receiving the chunks is receiving the parsed fragments. */
  lemma {:induction false} ReceiveChunksParsed(parser: Parser, buffer: seq<byte>, datas: seq<seq<byte>>, pdus: seq<VCPdu>, hasNext: bool)
    requires |datas| == |pdus|
    requires forall i :: 0 <= i < |datas| ==> parser.parse(datas[i]) == Success(pdus[i])
    ensures ReceiveChunks(parser, buffer, datas, hasNext) == ChunksOutcome(ReceiveAll(buffer, pdus, hasNext), Pass)
    decreases |datas|
  {
    if datas != [] {
      assert parser.parse(datas[0]) == Success(pdus[0]);
      var first := Receive(buffer, pdus[0], hasNext);
      ReceiveAllCons(buffer, pdus, hasNext);
      ReceiveChunksParsed(parser, first.buffer, datas[1..], pdus[1..], hasNext);
    }
  }

  /** The parser's `write` of `pdu` yields chunks that its `parse` turns back into `frags`, in order. */
  ghost predicate WriteYields(parser: Parser, pdu: VCPdu, frags: seq<VCPdu>)
  {
    && |parser.write(pdu)| == |frags|
    && forall i :: 0 <= i < |frags| ==> parser.parse(parser.write(pdu)[i]) == Success(frags[i])
  }

  /** COMPRESSED and SHOW_PROTOCOL are not among FIRST and LAST, so fragments copy them. */
  lemma OtherFlagsKeepBits(a: nat, b: nat)
    requires OtherFlags(a) == OtherFlags(b)
    ensures IsShowProtocol(a) == IsShowProtocol(b) && IsCompressed(a) == IsCompressed(b)
  {
    assert a / 4 == b / 4;
    HighBitsAboveTwo(a);
    HighBitsAboveTwo(b);
  }

  /** The bits above the lowest two, read after dropping those two. */
  lemma HighBitsAboveTwo(a: nat)
    ensures a / 0x10 == (a / 4) / 0x4
    ensures a / 0x20_0000 == (a / 4) / 0x8_0000
  {
    var q, r := a / 4, a % 4;
    assert a == 4 * q + r;
    var q1, r1 := q / 0x4, q % 0x4;
    assert a == 0x10 * q1 + (4 * r1 + r);
    var q2, r2 := q / 0x8_0000, q % 0x8_0000;
    assert a == 0x20_0000 * q2 + (4 * r2 + r);
  }

  /**
   * The round trip: if the parser encodes the outbound PDU as the reference
   * fragments, then feeding the chunks `send` pushes down into a receiving
   * layer, whatever its buffer held, raises nothing, logs no compression
   * error and hands the observer exactly one PDU, carrying the payload, its
   * length, LAST, and SHOW_PROTOCOL exactly when the sender had it activated.
   */
  lemma SendReceiveRoundTrip(parser: Parser, chunk: nat, showProtocol: bool, payload: seq<byte>, buffer: seq<byte>, hasNext: bool)
    requires chunk > 0
    requires WriteYields(parser, OutboundPdu(payload, showProtocol), Fragments(OutboundPdu(payload, showProtocol), chunk))
    ensures var r := ReceiveChunks(parser, buffer, parser.write(OutboundPdu(payload, showProtocol)), hasNext);
      && r.result == Pass
      && r.state.buffer == payload
      && CompressionError !in r.state.events
      && Messages(r.state.events) == [payload]
      && |Delivered(r.state.events)| == 1
      && Delivered(r.state.events)[0].length == |payload|
      && IsLast(Delivered(r.state.events)[0].flags)
      && (IsShowProtocol(Delivered(r.state.events)[0].flags) <==> showProtocol)
  {
    var pdu := OutboundPdu(payload, showProtocol);
    var fs := Fragments(pdu, chunk);
    ReceiveChunksParsed(parser, buffer, parser.write(pdu), fs, hasNext);
    FragmentsReassemble(buffer, pdu, chunk, hasNext);
    FragmentsShape(pdu, chunk);
    forall i | 0 <= i < |fs| ensures !IsCompressed(fs[i].flags) {
      OtherFlagsKeepBits(fs[i].flags, pdu.flags);
    }
    NoCompressedNoError(buffer, fs, hasNext);
    var last := FragmentFlags(pdu.flags, |fs| == 1, true);
    FragmentFlagsKeepOthers(pdu.flags, |fs| == 1, true);
    OtherFlagsKeepBits(last, pdu.flags);
  }

  // ---------------------------------------------------------------------------
  // Worked examples

  /** `b"HELLO_WORLD"`. */
  const HELLO_WORLD: seq<byte> := [72, 69, 76, 76, 79, 95, 87, 79, 82, 76, 68]

  /**
   * Sending `b"HELLO_WORLD"` with SHOW_PROTOCOL activated builds one PDU of
   * length 11 with flags FIRST|LAST|SHOW_PROTOCOL, which fits in one
   * fragment; receiving that fragment delivers the same PDU.
   */
  lemma HelloWorldScenario(buffer: seq<byte>, hasNext: bool)
    ensures var pdu := OutboundPdu(HELLO_WORLD, true);
      && pdu == VCPdu(11, CHANNEL_FLAG_FIRST + CHANNEL_FLAG_LAST + CHANNEL_FLAG_SHOW_PROTOCOL, HELLO_WORLD)
      && Fragments(pdu, CHANNEL_CHUNK_LENGTH) == [pdu]
      && Delivered(ReceiveAll(buffer, [pdu], hasNext).events) == [pdu]
  {
    var pdu := OutboundPdu(HELLO_WORLD, true);
    assert FragmentFlags(pdu.flags, true, true) == pdu.flags;
    SingleFragment(buffer, pdu, hasNext);
  }

  /** FIRST with `b"ab"`, then LAST with `b"cd"`: one delivery, of `b"abcd"`. */
  lemma TwoFragmentScenario(buffer: seq<byte>, hasNext: bool)
    ensures var ab: seq<byte>, cd: seq<byte> := [97, 98], [99, 100];
            Messages(ReceiveAll(buffer, [VCPdu(4, CHANNEL_FLAG_FIRST, ab), VCPdu(4, CHANNEL_FLAG_LAST, cd)], hasNext).events)
            == [[97, 98, 99, 100]]
  {
    var ab: seq<byte>, cd: seq<byte> := [97, 98], [99, 100];
    var frags := [VCPdu(4, CHANNEL_FLAG_FIRST, ab), VCPdu(4, CHANNEL_FLAG_LAST, cd)];
    assert Framed(frags);
    MessageReassembled(buffer, frags, hasNext);
    assert Payloads(frags) == [97, 98, 99, 100] by {
      assert frags[1..] == [frags[1]];
      assert frags[1..][1..] == [];
      assert Payloads(frags[1..]) == cd + Payloads([]);
      assert ab + cd == [97, 98, 99, 100];
    }
  }
}
