/**
 * The reassembly rule of `VirtualChannelLayer.recv` (section 3.1.5.2.2 of
 * MS-RDPBCGR) as pure functions of the reassembly buffer and one parsed
 * fragment, with the properties of the rule over runs of fragments.
 */
module Reassembly {
  import opened Base
  import opened VirtualChannelPdu

  /** What the virtual channel layer does that can be seen from outside it, in order. */
  datatype Event =
    | CompressionError                         // the error logged for a COMPRESSED fragment
    | PduReceived(pdu: VCPdu, forward: bool)   // `pduReceived(pdu, hasNext)`
    | SentDown(data: seq<byte>)                // `previous.send(data)`

  /** The buffer after some fragments, and what the layer did while receiving them. */
  datatype RecvOutcome = RecvOutcome(buffer: seq<byte>, events: seq<Event>)

  /** One call of `recv` on an already parsed fragment. */
  function Receive(buffer: seq<byte>, pdu: VCPdu, hasNext: bool): RecvOutcome
  {
    var warning := if IsCompressed(pdu.flags) then [CompressionError] else [];
    var buffer' := if IsFirst(pdu.flags) then pdu.payload else buffer + pdu.payload;
    var emitted := if IsLast(pdu.flags) then [PduReceived(pdu.(payload := buffer'), hasNext)] else [];
    RecvOutcome(buffer', warning + emitted)
  }

  /** `recv` called on each fragment in turn. */
  function ReceiveAll(buffer: seq<byte>, pdus: seq<VCPdu>, hasNext: bool): RecvOutcome
  {
    Fold(Receiver(hasNext), buffer, pdus)
  }

  /** `Receive` for a layer whose `hasNext` is fixed. */
  function Receiver(hasNext: bool): (seq<byte>, VCPdu) -> RecvOutcome
  {
    (b: seq<byte>, p: VCPdu) => Receive(b, p, hasNext)
  }

  /** A per-fragment step applied to each fragment in turn, threading the buffer and collecting the events. */
  function Fold(step: (seq<byte>, VCPdu) -> RecvOutcome, buffer: seq<byte>, pdus: seq<VCPdu>): RecvOutcome
    decreases |pdus|
  {
    if pdus == [] then RecvOutcome(buffer, [])
    else
      var first := step(buffer, pdus[0]);
      var rest := Fold(step, first.buffer, pdus[1..]);
      RecvOutcome(rest.buffer, first.events + rest.events)
  }

  lemma {:induction false} FoldConcat(step: (seq<byte>, VCPdu) -> RecvOutcome, buffer: seq<byte>, xs: seq<VCPdu>, ys: seq<VCPdu>)
    ensures Fold(step, buffer, xs + ys).buffer == Fold(step, Fold(step, buffer, xs).buffer, ys).buffer
    ensures Fold(step, buffer, xs + ys).events == Fold(step, buffer, xs).events + Fold(step, Fold(step, buffer, xs).buffer, ys).events
    decreases |xs|
  {
    if xs == [] {
      assert xs + ys == ys;
    } else {
      assert (xs + ys)[0] == xs[0];
      assert (xs + ys)[1..] == xs[1..] + ys;
      FoldConcat(step, step(buffer, xs[0]).buffer, xs[1..], ys);
    }
  }

  /** The PDUs handed to the observer, in order. */
  function Delivered(events: seq<Event>): seq<VCPdu>
  {
    if events == [] then []
    else (if events[0].PduReceived? then [events[0].pdu] else []) + Delivered(events[1..])
  }

  /** The reassembled payloads handed to the observer, in order. */
  function Messages(events: seq<Event>): seq<seq<byte>>
  {
    var d := Delivered(events);
    seq(|d|, i requires 0 <= i < |d| => d[i].payload)
  }

  /** A run of fragments that forms one message: FIRST on the first, LAST on the last, neither in between. */
  ghost predicate Framed(frags: seq<VCPdu>)
  {
    && |frags| > 0
    && IsFirst(frags[0].flags)
    && IsLast(frags[|frags| - 1].flags)
    && (forall i :: 0 < i < |frags| ==> !IsFirst(frags[i].flags))
    && (forall i :: 0 <= i < |frags| - 1 ==> !IsLast(frags[i].flags))
  }

  /** What the observer must receive for a framed run: its closing fragment carrying the joined payloads. */
  function Reassembled(frags: seq<VCPdu>): VCPdu
    requires |frags| > 0
  {
    frags[|frags| - 1].(payload := Payloads(frags))
  }

  /** The flags with the COMPRESSED bit cleared. */
  function WithoutCompression(flags: nat): nat
  {
    if IsCompressed(flags) then flags - CHANNEL_PACKET_COMPRESSED else flags
  }

  /** Two fragments that differ at most in the COMPRESSED bit. */
  predicate SameExceptCompression(p: VCPdu, q: VCPdu)
  {
    p.length == q.length && p.payload == q.payload
    && WithoutCompression(p.flags) == WithoutCompression(q.flags)
  }

  // ---------------------------------------------------------------------------
  // One fragment

  /**
   * One `recv`: FIRST replaces the buffer (dropping an unfinished message),
   * otherwise the payload is appended; COMPRESSED only adds the logged error;
   * LAST hands exactly one PDU to the observer, with the fragment's length and
   * flags, the whole buffer as payload and `hasNext` passed through; without
   * LAST nothing is handed over.
   */
  lemma ReceiveStep(buffer: seq<byte>, pdu: VCPdu, hasNext: bool)
    ensures var r := Receive(buffer, pdu, hasNext);
      && (IsFirst(pdu.flags) ==> r.buffer == pdu.payload)
      && (!IsFirst(pdu.flags) ==> r.buffer == buffer + pdu.payload)
      && (CompressionError in r.events <==> IsCompressed(pdu.flags))
      && (IsLast(pdu.flags) ==>
            && Delivered(r.events) == [VCPdu(pdu.length, pdu.flags, r.buffer)]
            && PduReceived(VCPdu(pdu.length, pdu.flags, r.buffer), hasNext) in r.events)
      && (!IsLast(pdu.flags) ==> Delivered(r.events) == [])
  {
    var r := Receive(buffer, pdu, hasNext);
    var warning := if IsCompressed(pdu.flags) then [CompressionError] else [];
    var emitted := if IsLast(pdu.flags) then [PduReceived(pdu.(payload := r.buffer), hasNext)] else [];
    DeliveredConcat(warning, emitted);
  }

  // ---------------------------------------------------------------------------
  // Runs of fragments

  lemma {:induction false} DeliveredConcat(a: seq<Event>, b: seq<Event>)
    ensures Delivered(a + b) == Delivered(a) + Delivered(b)
  {
    if a == [] {
      assert a + b == b;
    } else {
      assert (a + b)[0] == a[0];
      assert (a + b)[1..] == a[1..] + b;
      DeliveredConcat(a[1..], b);
    }
  }

  lemma MessagesConcat(a: seq<Event>, b: seq<Event>)
    ensures Messages(a + b) == Messages(a) + Messages(b)
  {
    DeliveredConcat(a, b);
  }

  lemma ReceiveAllCons(buffer: seq<byte>, pdus: seq<VCPdu>, hasNext: bool)
    requires pdus != []
    ensures var first := Receive(buffer, pdus[0], hasNext);
            var rest := ReceiveAll(first.buffer, pdus[1..], hasNext);
            ReceiveAll(buffer, pdus, hasNext) == RecvOutcome(rest.buffer, first.events + rest.events)
  {
    assert Receiver(hasNext)(buffer, pdus[0]) == Receive(buffer, pdus[0], hasNext);
  }

  lemma ReceiveAllSingle(buffer: seq<byte>, pdu: VCPdu, hasNext: bool)
    ensures ReceiveAll(buffer, [pdu], hasNext) == Receive(buffer, pdu, hasNext)
  {
    assert [pdu][1..] == [];
    var first := Receive(buffer, pdu, hasNext);
    assert Receiver(hasNext)(buffer, pdu) == first;
    assert Fold(Receiver(hasNext), first.buffer, []) == RecvOutcome(first.buffer, []);
    assert first.events + [] == first.events;
  }

  /** Receiving `xs` then `ys` is receiving `xs + ys`: the layer's only memory is the buffer. */
  lemma ReceiveAllConcat(buffer: seq<byte>, xs: seq<VCPdu>, ys: seq<VCPdu>, hasNext: bool)
    ensures ReceiveAll(buffer, xs + ys, hasNext).buffer
            == ReceiveAll(ReceiveAll(buffer, xs, hasNext).buffer, ys, hasNext).buffer
    ensures ReceiveAll(buffer, xs + ys, hasNext).events
            == ReceiveAll(buffer, xs, hasNext).events + ReceiveAll(ReceiveAll(buffer, xs, hasNext).buffer, ys, hasNext).events
  {
    FoldConcat(Receiver(hasNext), buffer, xs, ys);
  }

  /** No partial leakage: without a LAST fragment nothing reaches the observer. */
  lemma {:induction false} NoLastNothingDelivered(buffer: seq<byte>, xs: seq<VCPdu>, hasNext: bool)
    requires forall i :: 0 <= i < |xs| ==> !IsLast(xs[i].flags)
    ensures Delivered(ReceiveAll(buffer, xs, hasNext).events) == []
    decreases |xs|
  {
    if xs != [] {
      var first := Receive(buffer, xs[0], hasNext);
      ReceiveStep(buffer, xs[0], hasNext);
      NoLastNothingDelivered(first.buffer, xs[1..], hasNext);
      DeliveredConcat(first.events, ReceiveAll(first.buffer, xs[1..], hasNext).events);
    }
  }

  /** Between FIRST fragments the buffer only grows, by the payloads in arrival order. */
  lemma {:induction false} NoFirstAppends(buffer: seq<byte>, xs: seq<VCPdu>, hasNext: bool)
    requires forall i :: 0 <= i < |xs| ==> !IsFirst(xs[i].flags)
    ensures ReceiveAll(buffer, xs, hasNext).buffer == buffer + Payloads(xs)
    decreases |xs|
  {
    if xs != [] {
      NoFirstAppends(buffer + xs[0].payload, xs[1..], hasNext);
      assert buffer + xs[0].payload + Payloads(xs[1..]) == buffer + Payloads(xs);
    }
  }

  /**
   * A framed run delivers exactly one PDU, whose payload is the fragments'
   * payloads joined in arrival order, whatever the buffer held before; the
   * buffer is left holding that payload (it is not cleared after LAST).
   */
  lemma {:induction false} MessageReassembled(buffer: seq<byte>, frags: seq<VCPdu>, hasNext: bool)
    requires Framed(frags)
    ensures var r := ReceiveAll(buffer, frags, hasNext);
            r.buffer == Payloads(frags) && Delivered(r.events) == [Reassembled(frags)]
  {
    var n := |frags|;
    var head, last := frags[..n - 1], frags[n - 1];
    assert frags == head + [last];
    ReceiveAllConcat(buffer, head, [last], hasNext);
    PayloadsConcat(head, [last]);
    assert Payloads([last]) == last.payload;
    var r1 := ReceiveAll(buffer, head, hasNext);
    NoLastNothingDelivered(buffer, head, hasNext);
    if n > 1 {
      var start := Receive(buffer, head[0], hasNext);
      assert start.buffer == head[0].payload;
      NoFirstAppends(start.buffer, head[1..], hasNext);
      assert r1.buffer == Payloads(head);
    }
    ReceiveAllSingle(r1.buffer, last, hasNext);
    ReceiveStep(r1.buffer, last, hasNext);
    DeliveredConcat(r1.events, Receive(r1.buffer, last, hasNext).events);
  }

  /** A single FIRST|LAST fragment is delivered with its own payload alone. */
  lemma SingleFragment(buffer: seq<byte>, pdu: VCPdu, hasNext: bool)
    requires IsFirst(pdu.flags) && IsLast(pdu.flags)
    ensures Delivered(ReceiveAll(buffer, [pdu], hasNext).events) == [pdu]
  {
    MessageReassembled(buffer, [pdu], hasNext);
    assert Payloads([pdu]) == pdu.payload;
  }

  /** Two framed messages arrive in order, and the second carries nothing of the first. */
  lemma TwoMessagesInOrder(buffer: seq<byte>, a: seq<VCPdu>, b: seq<VCPdu>, hasNext: bool)
    requires Framed(a) && Framed(b)
    ensures Delivered(ReceiveAll(buffer, a + b, hasNext).events) == [Reassembled(a), Reassembled(b)]
  {
    ReceiveAllConcat(buffer, a, b, hasNext);
    var r1 := ReceiveAll(buffer, a, hasNext);
    MessageReassembled(buffer, a, hasNext);
    MessageReassembled(r1.buffer, b, hasNext);
    DeliveredConcat(r1.events, ReceiveAll(r1.buffer, b, hasNext).events);
  }

  /**
   * The buffer is not cleared after LAST: a later LAST fragment without FIRST
   * is delivered with the previous message's bytes in front of its own.
   */
  lemma ResidueAfterLast(buffer: seq<byte>, a: seq<VCPdu>, p: VCPdu, hasNext: bool)
    requires Framed(a) && !IsFirst(p.flags) && IsLast(p.flags)
    ensures Delivered(ReceiveAll(buffer, a + [p], hasNext).events)
            == [Reassembled(a), p.(payload := Payloads(a) + p.payload)]
  {
    ReceiveAllConcat(buffer, a, [p], hasNext);
    var r1 := ReceiveAll(buffer, a, hasNext);
    MessageReassembled(buffer, a, hasNext);
    ReceiveAllSingle(r1.buffer, p, hasNext);
    ReceiveStep(r1.buffer, p, hasNext);
    DeliveredConcat(r1.events, Receive(r1.buffer, p, hasNext).events);
  }

  /** Clearing COMPRESSED leaves FIRST and LAST as they were. */
  lemma CompressionBitSeparate(flags: nat)
    ensures IsFirst(WithoutCompression(flags)) == IsFirst(flags)
    ensures IsLast(WithoutCompression(flags)) == IsLast(flags)
  {
  }

  /** One fragment: the COMPRESSED bit does not change the buffer or the delivered payload. */
  lemma CompressionStep(buffer: seq<byte>, x: VCPdu, y: VCPdu, hasNext: bool)
    requires SameExceptCompression(x, y)
    ensures var sx, sy := Receive(buffer, x, hasNext), Receive(buffer, y, hasNext);
            sx.buffer == sy.buffer && Messages(sx.events) == Messages(sy.events)
  {
    CompressionBitSeparate(x.flags);
    CompressionBitSeparate(y.flags);
    ReceiveStep(buffer, x, hasNext);
    ReceiveStep(buffer, y, hasNext);
  }

  /**
   * COMPRESSED changes nothing but the log: two runs that differ only in that
   * bit leave the same buffer and deliver the same payloads.
   */
  lemma {:induction false} CompressionOnlyLogs(buffer: seq<byte>, xs: seq<VCPdu>, ys: seq<VCPdu>, hasNext: bool)
    requires |xs| == |ys|
    requires forall i :: 0 <= i < |xs| ==> SameExceptCompression(xs[i], ys[i])
    ensures var rx, ry := ReceiveAll(buffer, xs, hasNext), ReceiveAll(buffer, ys, hasNext);
            rx.buffer == ry.buffer && Messages(rx.events) == Messages(ry.events)
    decreases |xs|
  {
    if xs != [] {
      var sx, sy := Receive(buffer, xs[0], hasNext), Receive(buffer, ys[0], hasNext);
      CompressionStep(buffer, xs[0], ys[0], hasNext);
      CompressionOnlyLogs(sx.buffer, xs[1..], ys[1..], hasNext);
      MessagesConcat(sx.events, ReceiveAll(sx.buffer, xs[1..], hasNext).events);
      MessagesConcat(sy.events, ReceiveAll(sy.buffer, ys[1..], hasNext).events);
    }
  }

  /** The error is logged only for COMPRESSED fragments: a run without one logs nothing. */
  lemma {:induction false} NoCompressedNoError(buffer: seq<byte>, xs: seq<VCPdu>, hasNext: bool)
    requires forall i :: 0 <= i < |xs| ==> !IsCompressed(xs[i].flags)
    ensures CompressionError !in ReceiveAll(buffer, xs, hasNext).events
    decreases |xs|
  {
    if xs != [] {
      var first := Receive(buffer, xs[0], hasNext);
      ReceiveAllCons(buffer, xs, hasNext);
      ReceiveStep(buffer, xs[0], hasNext);
      NoCompressedNoError(first.buffer, xs[1..], hasNext);
    }
  }
}
