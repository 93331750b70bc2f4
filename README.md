# Virtual channel reassembly and TCP layers of PyRDP, in Dafny

This project models two layers of PyRDP's protocol stack and proves properties of the model.

- `VirtualChannelLayer` (`pyrdp/layer/rdp/virtual_channel/virtual_channel.py`) rebuilds channel messages from fragments. The fragment flags are the CHANNEL_PDU_HEADER flags of section 2.2.6.1.1 of MS-RDPBCGR, and the reassembly rule is the one of section 3.1.5.2.2. On receive, a FIRST fragment replaces the reassembly buffer, any other fragment is appended to it, and a LAST fragment hands the observer the PDU with the buffer as its payload. On send, the layer wraps a payload into one FIRST|LAST PDU (with SHOW_PROTOCOL when configured) and pushes every chunk of the parser's encoding to the layer below, in order.
- `TwistedTCPLayer` and `AsyncIOTCPLayer` (`pyrdp/layer/tcp.py`) sit at the bottom of the stack. They hold a one-shot flag that makes the first chunk after `startTLS` log the TLS session parameters. They hand every received chunk to the next layer unchanged, log and re-raise exceptions, write outbound bytes straight to the transport, and set the connected event before telling the observer.

Files:

- `base.dfy` (module `Base`): bytes, exceptions (`Error`), `Outcome`, `Result`, `Option`.
- `pdu.dfy` (module `VirtualChannelPdu`): the PDU record `VCPdu(length, flags, payload)`, the four flag bits, and `Payloads`.
- `reassembly.dfy` (module `Reassembly`): the receive rule as pure functions (`Receive` for one fragment, `ReceiveAll` for a run), the events it produces, and lemmas about runs of fragments.
- `fragmentation.dfy` (module `Fragmentation`): an explicit chunking function `Fragments`, following section 3.1.5.2.1 of MS-RDPBCGR, and the proof that reassembly undoes it.
- `virtual_channel.dfy` (module `VirtualChannel`): the abstract parser, the class `VirtualChannelLayer`, receiving raw chunks, the send/receive round trip, and two worked examples.
- `tcp.dfy` (module `Tcp`): the `dataReceived` rule as a pure function `OnData`, a run of chunks `Feed`, its lemmas, and the two layer classes.

How the model is built:

- Each layer is a class. Its state is the source's fields: `pduBuffer`, `logSSLRequired`, `connectedEvent` as a boolean, and the asyncio `transport`.
- Each method's `ensures` gives the new state in terms of a pure function: `Receive` for the virtual channel layer, `OnData` for the TCP layers. The lemmas prove the source's promises about those functions.
- Calls into code outside the model are recorded in a ghost `trace` of events, in call order. These are observer callbacks, `next.recv`, `previous.send`, `transport.write`/`startTLS`/`abort`, and the error logs.
- The parser is a record of two arbitrary functions, `parse` (which may raise) and `write`. The round trip is proved for any parser whose `write` output parses back to the reference `Fragments` (predicate `WriteYields`).
- How a foreign call ends is a method parameter of type `Outcome`. This covers `logSSLParameters`, the next layer's `recv`, `pduReceived`, and each `previous.send` of `send` (as a function from the call's index to its outcome), so raising, re-raising and an interrupted send loop are modelled.
- Flags are Python integers used as bit sets. `flags & F` for a one-bit `F` is modelled as a test of that bit, by division by the bit's value.

Points where the code's behaviour is easy to misread:

- After LAST the buffer is not cleared. A later fragment without FIRST is appended to the previous message (`ResidueAfterLast`).
- A COMPRESSED fragment is reassembled like any other; the flag only adds an error log line (`CompressionOnlyLogs`).
- The TCP layers call `self.observer.onConnection()` / `onDisconnection()` with no check of their own; each callback is recorded as one event.
- `AsyncIOTCPLayer` has no `startTLS`, and it never defines `logSSLParameters`. Its flag starts cleared and no method sets it (`Valid`), so the logging branch of `data_received` is never taken. If the flag were set, the attribute lookup would raise; the model records that as an `AttributeError` that is logged and re-raised.

## Model

| member | source | states |
|---|---|---|
| `VirtualChannel.VirtualChannelLayer.constructor` | pyrdp/layer/rdp/virtual_channel/virtual_channel.py:20-26 | the layer keeps the parser and the SHOW_PROTOCOL setting, has `hasNext` set, and starts with an empty reassembly buffer and nothing done |
| `VirtualChannel.VirtualChannelLayer.ReceivePdu` | pyrdp/layer/rdp/virtual_channel/virtual_channel.py:31-43 | the buffer and the recorded notifications after one fragment are exactly those of the reassembly rule `Receive`; an exception from `pduReceived` on a LAST fragment propagates, after the buffer is updated |
| `VirtualChannel.VirtualChannelLayer.Recv` | pyrdp/layer/rdp/virtual_channel/virtual_channel.py:28-43 | a parse error propagates and leaves buffer and trace untouched; otherwise `Receive` is applied to the parsed PDU, and `recv` raises exactly when the PDU has LAST and `pduReceived` raises |
| `VirtualChannel.VirtualChannelLayer.Send` | pyrdp/layer/rdp/virtual_channel/virtual_channel.py:45-57 | the chunks of `write(VCPdu(len(payload), FIRST\|LAST[\|SHOW_PROTOCOL], payload))` are pushed down once each, unchanged and in order, up to and including the first whose `previous.send` raises; that exception propagates and the later chunks are not sent; if none raises, every chunk is sent; the buffer is untouched |
| `Base.FirstFailure` | pyrdp/layer/rdp/virtual_channel/virtual_channel.py:56-57 | the index of the first call of a loop of calls that raises, or the number of calls when none does: every earlier call returned normally |
| `VirtualChannel.OutboundFlags` | pyrdp/layer/rdp/virtual_channel/virtual_channel.py:50-52 | outbound flags have FIRST and LAST, and apart from those two bits they are exactly SHOW_PROTOCOL when it is activated and nothing otherwise; in particular never COMPRESSED |
| `Reassembly.ReceiveStep` | pyrdp/layer/rdp/virtual_channel/virtual_channel.py:31-43 | FIRST replaces the buffer, otherwise the payload is appended; COMPRESSED exactly adds the error log; LAST delivers exactly one PDU with the same length and flags, the buffer as payload and `hasNext` passed through; no LAST, no delivery |
| `Reassembly.ReceiveAllConcat` | pyrdp/layer/rdp/virtual_channel/virtual_channel.py:28-43 | receiving two runs one after the other is receiving their concatenation: the buffer is the layer's only memory |
| `Reassembly.NoLastNothingDelivered` | pyrdp/layer/rdp/virtual_channel/virtual_channel.py:40-43 | a run of fragments none of which has LAST delivers nothing to the observer |
| `Reassembly.NoFirstAppends` | pyrdp/layer/rdp/virtual_channel/virtual_channel.py:37-38 | a run without FIRST leaves the buffer as its old content followed by the payloads in arrival order |
| `Reassembly.MessageReassembled` | pyrdp/layer/rdp/virtual_channel/virtual_channel.py:35-43 | a run framed by FIRST ... LAST delivers exactly one PDU, the closing fragment carrying the concatenated payloads, whatever the buffer held before (an unfinished message is discarded); the buffer keeps that payload |
| `Reassembly.SingleFragment` | pyrdp/layer/rdp/virtual_channel/virtual_channel.py:35-43 | a FIRST\|LAST fragment is delivered with its own payload alone |
| `Reassembly.TwoMessagesInOrder` | pyrdp/layer/rdp/virtual_channel/virtual_channel.py:35-43 | two framed messages are delivered in order, the second without residue from the first |
| `Reassembly.ResidueAfterLast` | pyrdp/layer/rdp/virtual_channel/virtual_channel.py:36-43 | the buffer is not cleared after LAST: a later LAST fragment without FIRST is delivered with the previous message's bytes in front of its own |
| `Reassembly.CompressionOnlyLogs` | pyrdp/layer/rdp/virtual_channel/virtual_channel.py:31-43 | runs that differ only in the COMPRESSED bit leave the same buffer and deliver the same payloads |
| `Reassembly.NoCompressedNoError` | pyrdp/layer/rdp/virtual_channel/virtual_channel.py:31-32 | the compression error is logged only for fragments with COMPRESSED set |
| `Fragmentation.FragmentsShape` | pyrdp/layer/rdp/virtual_channel/virtual_channel.py:54-55 | the reference fragments of a PDU are framed (FIRST first only, LAST last only), repeat its length, copy its other flag bits, are at most `chunk` bytes (exactly `chunk` except the last), and together carry its payload |
| `Fragmentation.FragmentsReassemble` | pyrdp/layer/rdp/virtual_channel/virtual_channel.py:35-43 | receiving the reference fragments of a PDU, from any buffer, delivers exactly one PDU with the original length and payload |
| `VirtualChannel.ReceiveChunksParsed` | pyrdp/layer/rdp/virtual_channel/virtual_channel.py:28-29 | when every raw chunk parses, receiving the chunks is receiving the parsed fragments, with no error |
| `VirtualChannel.SendReceiveRoundTrip` | pyrdp/layer/rdp/virtual_channel/virtual_channel.py:45-57 | for a parser whose `write` parses back to the reference fragments, feeding the chunks of `send(payload)` to a receiver raises nothing, logs no compression error and delivers exactly one PDU, with the payload, its length, LAST, and SHOW_PROTOCOL exactly when the sender activated it |
| `VirtualChannel.HelloWorldScenario` | pyrdp/layer/rdp/virtual_channel/virtual_channel.py:50-53 | `b"HELLO_WORLD"` with SHOW_PROTOCOL becomes one PDU of length 11 with FIRST\|LAST\|SHOW_PROTOCOL, one fragment, delivered unchanged |
| `VirtualChannel.TwoFragmentScenario` | pyrdp/layer/rdp/virtual_channel/virtual_channel.py:35-43 | FIRST `b"ab"` then LAST `b"cd"` deliver one message, `b"abcd"` |
| `Tcp.OnDataStep` | pyrdp/layer/tcp.py:70-86 | when armed, the TLS parameters are logged and the flag cleared before the chunk is forwarded; the chunk is forwarded once, unchanged; the next layer's exception is logged and propagates; if the logging raises, the flag stays set, nothing is forwarded and the exception propagates |
| `Tcp.FeedForwardsEachChunk` | pyrdp/layer/tcp.py:81 | over any run of chunks, the next layer receives exactly those chunks, unchanged and in order |
| `Tcp.FeedLogsOnce` | pyrdp/layer/tcp.py:77-79 | an armed layer logs the TLS parameters exactly once, before the first chunk is forwarded, and never again; an unarmed one never logs |
| `Tcp.TwistedTCPLayer.constructor` | pyrdp/layer/tcp.py:39-42 | the flag starts cleared and the connected event unset |
| `Tcp.TwistedTCPLayer.ConnectionMade` | pyrdp/layer/tcp.py:51-56 | the connected event is set, then the observer's `onConnection` is called |
| `Tcp.TwistedTCPLayer.ConnectionLost` | pyrdp/layer/tcp.py:58-62 | the observer's `onDisconnection` is called with the reason |
| `Tcp.TwistedTCPLayer.Disconnect` | pyrdp/layer/tcp.py:64-68 | the transport is asked to abort the connection |
| `Tcp.TwistedTCPLayer.DataReceived` | pyrdp/layer/tcp.py:70-86 | the flag, the calls made and the outcome are those of `OnData` for the current flag |
| `Tcp.TwistedTCPLayer.Send` | pyrdp/layer/tcp.py:88-94 | exactly one transport write of the given bytes, unchanged |
| `Tcp.TwistedTCPLayer.StartTls` | pyrdp/layer/tcp.py:96-103 | the flag is armed and the transport asked to start TLS with the given context |
| `Tcp.AsyncIOTCPLayer.constructor` | pyrdp/layer/tcp.py:115-120 | the flag starts cleared, the connected event unset and the transport `None` |
| `Tcp.AsyncIOTCPLayer.ConnectionMade` | pyrdp/layer/tcp.py:122-128 | the transport is stored, then the connected event set, then the observer's `onConnection` called; the flag stays cleared |
| `Tcp.AsyncIOTCPLayer.ConnectionLost` | pyrdp/layer/tcp.py:130-134 | the observer's `onDisconnection` is called with the exception |
| `Tcp.AsyncIOTCPLayer.Disconnect` | pyrdp/layer/tcp.py:136-140 | with a transport it is aborted; before `connection_made` the call raises |
| `Tcp.AsyncIOTCPLayer.DataReceived` | pyrdp/layer/tcp.py:142-158 | the calls made and the outcome are those of `OnData` with a logging call that raises; the flag never changes; while it is cleared, the chunk is forwarded unchanged and the next layer's exception logged and re-raised, with no logging attempt |
| `Tcp.AsyncIOTCPLayer.Send` | pyrdp/layer/tcp.py:160-166 | with a transport, exactly one write of the given bytes; before `connection_made` the call raises |

## Left out

- `VirtualChannel.ReceiveChunks`: a run of raw chunks is modelled with every `pduReceived` returning normally; an exception from `pduReceived` is modelled per call, by `Recv`.
- `VirtualChannelParser` is not part of this model, so its byte layout is not modelled. The parser is a pair of arbitrary functions, and the round trip is proved only for parsers whose `write` output parses back to the reference `Fragments`.
- `pyrdp.enum` is not part of this model. The flag values are those of section 2.2.6.1.1 of MS-RDPBCGR: FIRST 0x1, LAST 0x2, SHOW_PROTOCOL 0x10, COMPRESSED 0x200000.
- The `Layer` base class is not part of this model. `pduReceived(pdu, hasNext)` is recorded as one event. What it does with the observer and the next layer is not modelled, and neither are the `previous`/`next` links.
- What `self.observer` is when no observer was attached is decided by the `Layer` base and `ObservedBy`, which are not part of this model; each callback is recorded as one event.
- The constructor defaults of `VirtualChannelLayer` (`activateShowProtocolFlag=True`, and `parser = VirtualChannelParser()`, one parser object built once and shared by every layer created without a parser) are not modelled: the model's constructor takes both explicitly, and since the parser is a pair of pure functions, sharing it is not observable.
- The observer callbacks and the transport calls (`write`, `startTLS`, `abort`) are assumed to return normally. Each is the last statement of its method, so only the propagation of an exception from it is lost.
- `mainParser.write` is a total function, so it is assumed not to raise. If it raised, `send` would send nothing and the exception would propagate.
- `logSSLParameters` reads the TLS library's client random and master key, a foreign call. It is modelled as one event, and its possible exception as a parameter.
- Log messages and logger configuration are not modelled; a log call is an event. The `KeyboardInterrupt` re-raise is not modelled separately, because it behaves like the other exceptions except that it is not logged.
- Twisted attaches the transport before `connectionMade`, and the Twisted layer's methods assume it is attached. Only the asyncio layer models a missing transport.
- Sockets, the TLS handshake, `asyncio.Event` as a waitable primitive (it is modelled as a boolean) and the event loop are not modelled. Everything is single-threaded.
- `pyrdp/player/event.py` is the Qt playback interface and is not part of this model.
