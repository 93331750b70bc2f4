/**
 * The TCP layers at the bottom of every stack: `TwistedTCPLayer` and
 * `AsyncIOTCPLayer`. Sockets, the event loop and TLS are not part of this
 * model; what is modelled is the one-shot TLS-logging flag, the connected
 * event, the stored transport, and the order of the calls each method makes
 * to the observer, the next layer and the transport.
 */
module Tcp {
  import opened Base

  /** The reason handed to `connectionLost`; Twisted's default is `connectionDone`. */
  datatype Reason = ConnectionDone | ConnectionFailure(description: string)

  /** The TLS context object handed to `startTLS`; its contents do not matter here. */
  datatype TlsContext = TlsContext(name: string)

  /** The asyncio transport handed to `connection_made`. */
  datatype Transport = Transport(id: nat)

  /** What a TCP layer does that can be seen from outside it, in order. */
  datatype TcpEvent =
    | ConnectedEventSet                       // `connectedEvent.set()`
    | ObserverConnected                       // `observer.onConnection()`
    | ObserverDisconnected(reason: Reason)    // `observer.onDisconnection(reason)`
    | SslParametersLogged                     // `logSSLParameters()` returned
    | ForwardedToNext(data: seq<byte>)        // `next.recv(data)` was called
    | ExceptionLogged(error: Error)           // logged to the exceptions logger, then re-raised
    | TransportAttached(transport: Transport) // `self.transport = transport`
    | TransportWrite(data: seq<byte>)         // `transport.write(data)`
    | TransportStartTls(context: TlsContext)  // `transport.startTLS(context)`
    | TransportAbort                          // `abortConnection()` / `abort()`

  /** The error raised when `AsyncIOTCPLayer` looks up the `logSSLParameters` it does not define. */
  const MISSING_LOG_SSL_PARAMETERS := Error("AttributeError: logSSLParameters")

  /** The error raised when the asyncio layer uses its transport before `connection_made`. */
  const NO_TRANSPORT := Error("AttributeError: 'NoneType' object has no attribute")

  /** The flag after a call, the events of the call, and how the call ended. */
  datatype DataStep = DataStep(armed: bool, events: seq<TcpEvent>, result: Outcome)

  /**
   * One `dataReceived(data)`, given how the two calls it makes into code
   * outside this model end: the TLS parameter logging (only made when
   * `armed`) and the next layer's `recv`. An exception from either is logged
   * and re-raised; when the logging raises, the flag stays set and nothing is
   * forwarded.
   */
  function OnData(armed: bool, data: seq<byte>, sslLog: Outcome, forward: Outcome): DataStep
  {
    if armed && sslLog.Fail? then
      DataStep(true, [ExceptionLogged(sslLog.error)], sslLog)
    else
      var logged := if armed then [SslParametersLogged] else [];
      var failure := if forward.Fail? then [ExceptionLogged(forward.error)] else [];
      DataStep(false, logged + [ForwardedToNext(data)] + failure, forward)
  }

  /** The chunks handed to the next layer, in order. */
  function Forwarded(events: seq<TcpEvent>): seq<seq<byte>>
  {
    if events == [] then []
    else (if events[0].ForwardedToNext? then [events[0].data] else []) + Forwarded(events[1..])
  }

  /** How many times the TLS parameters were logged. */
  function SslLogCount(events: seq<TcpEvent>): nat
  {
    if events == [] then 0
    else (if events[0] == SslParametersLogged then 1 else 0) + SslLogCount(events[1..])
  }

  lemma {:induction false} ForwardedConcat(a: seq<TcpEvent>, b: seq<TcpEvent>)
    ensures Forwarded(a + b) == Forwarded(a) + Forwarded(b)
    ensures SslLogCount(a + b) == SslLogCount(a) + SslLogCount(b)
  {
    if a == [] {
      assert a + b == b;
    } else {
      assert (a + b)[0] == a[0];
      assert (a + b)[1..] == a[1..] + b;
      ForwardedConcat(a[1..], b);
    }
  }

  /**
   * One chunk: when armed, the parameters are logged first and the flag is
   * cleared; either way the chunk is then forwarded once and unchanged, and
   * the next layer's exception propagates. When the logging itself raises,
   * that exception propagates, the flag stays set and nothing is forwarded.
   */
  lemma OnDataStep(armed: bool, data: seq<byte>, sslLog: Outcome, forward: Outcome)
    ensures var s := OnData(armed, data, sslLog, forward);
      && (!armed || sslLog.Pass? ==>
            && !s.armed
            && s.result == forward
            && Forwarded(s.events) == [data]
            && SslLogCount(s.events) == (if armed then 1 else 0)
            && (armed ==> s.events[0] == SslParametersLogged && s.events[1] == ForwardedToNext(data))
            && (!armed ==> s.events[0] == ForwardedToNext(data))
            && (forward.Fail? ==> s.events[|s.events| - 1] == ExceptionLogged(forward.error))
            && (forward.Pass? ==> forall k :: 0 <= k < |s.events| ==> !s.events[k].ExceptionLogged?))
      && (armed && sslLog.Fail? ==>
            s.armed && s.result == sslLog && Forwarded(s.events) == [] && SslLogCount(s.events) == 0)
  {
    var s := OnData(armed, data, sslLog, forward);
    if !armed || sslLog.Pass? {
      var logged := if armed then [SslParametersLogged] else [];
      var failure := if forward.Fail? then [ExceptionLogged(forward.error)] else [];
      ForwardedConcat(logged + [ForwardedToNext(data)], failure);
      ForwardedConcat(logged, [ForwardedToNext(data)]);
    }
  }

  /** `dataReceived` on each chunk in turn, every call into other code returning normally. */
  function Feed(armed: bool, chunks: seq<seq<byte>>): DataStep
    decreases |chunks|
  {
    if chunks == [] then DataStep(armed, [], Pass)
    else
      var first := OnData(armed, chunks[0], Pass, Pass);
      var rest := Feed(first.armed, chunks[1..]);
      DataStep(rest.armed, first.events + rest.events, Pass)
  }

  /** Every chunk reaches the next layer exactly once, unchanged and in arrival order. */
  lemma {:induction false} FeedForwardsEachChunk(armed: bool, chunks: seq<seq<byte>>)
    ensures Forwarded(Feed(armed, chunks).events) == chunks
    decreases |chunks|
  {
    if chunks != [] {
      var first := OnData(armed, chunks[0], Pass, Pass);
      OnDataStep(armed, chunks[0], Pass, Pass);
      FeedForwardsEachChunk(first.armed, chunks[1..]);
      ForwardedConcat(first.events, Feed(first.armed, chunks[1..]).events);
      assert chunks == [chunks[0]] + chunks[1..];
    }
  }

  /**
   * The flag is one-shot: an armed layer logs the TLS parameters once, before
   * forwarding the first chunk, and never again over any later chunks; an
   * unarmed layer never logs. The flag stays set only while no chunk has come.
   */
  lemma {:induction false} FeedLogsOnce(armed: bool, chunks: seq<seq<byte>>)
    ensures var s := Feed(armed, chunks);
      && SslLogCount(s.events) == (if armed && chunks != [] then 1 else 0)
      && (armed && chunks != [] ==> s.events[0] == SslParametersLogged && s.events[1] == ForwardedToNext(chunks[0]))
      && s.armed == (armed && chunks == [])
    decreases |chunks|
  {
    if chunks != [] {
      var first := OnData(armed, chunks[0], Pass, Pass);
      OnDataStep(armed, chunks[0], Pass, Pass);
      FeedLogsOnce(false, chunks[1..]);
      ForwardedConcat(first.events, Feed(false, chunks[1..]).events);
    }
  }

  // ---------------------------------------------------------------------------
  // The two layers

  /** `TwistedTCPLayer`: the Twisted protocol at the bottom of a stack. Its transport is attached by Twisted. */
  class TwistedTCPLayer {
    var logSSLRequired: bool
    /** Whether `connectedEvent` is set. */
    var connected: bool
    ghost var trace: seq<TcpEvent>

    constructor ()
      ensures !logSSLRequired && !connected && trace == []
    {
      logSSLRequired := false;
      connected := false;
      trace := [];
    }

    /** The connected event is set before the observer hears of the connection. */
    method ConnectionMade()
      modifies this
      ensures connected && logSSLRequired == old(logSSLRequired)
      ensures trace == old(trace) + [ConnectedEventSet, ObserverConnected]
    {
      connected := true;
      trace := trace + [ConnectedEventSet];
      trace := trace + [ObserverConnected];
    }

    method ConnectionLost(reason: Reason)
      modifies this`trace
      ensures trace == old(trace) + [ObserverDisconnected(reason)]
    {
      trace := trace + [ObserverDisconnected(reason)];
    }

    method Disconnect()
      modifies this`trace
      ensures trace == old(trace) + [TransportAbort]
    {
      trace := trace + [TransportAbort];
    }

    /**
     * `dataReceived`; `sslLog` and `forward` say how `logSSLParameters` and
     * `next.recv` end, and the result is how this call ends.
     */
    method DataReceived(data: seq<byte>, sslLog: Outcome, forward: Outcome) returns (r: Outcome)
      modifies this
      ensures var s := OnData(old(logSSLRequired), data, sslLog, forward);
              logSSLRequired == s.armed && trace == old(trace) + s.events && r == s.result
      ensures connected == old(connected)
    {
      if logSSLRequired {
        if sslLog.Fail? {
          trace := trace + [ExceptionLogged(sslLog.error)];
          return sslLog;
        }
        trace := trace + [SslParametersLogged];
        logSSLRequired := false;
      }
      trace := trace + [ForwardedToNext(data)];
      if forward.Fail? {
        trace := trace + [ExceptionLogged(forward.error)];
      }
      r := forward;
    }

    /** The bytes go to the transport as they are, one write per call. */
    method Send(data: seq<byte>)
      modifies this`trace
      ensures trace == old(trace) + [TransportWrite(data)]
    {
      trace := trace + [TransportWrite(data)];
    }

    /** The flag is armed, then the transport is asked to start the TLS handshake. */
    method StartTls(context: TlsContext)
      modifies this
      ensures logSSLRequired && connected == old(connected)
      ensures trace == old(trace) + [TransportStartTls(context)]
    {
      logSSLRequired := true;
      trace := trace + [TransportStartTls(context)];
    }
  }

  /**
   * `AsyncIOTCPLayer`: the asyncio protocol at the bottom of a stack. It has
   * no `startTLS` and no `logSSLParameters`: nothing ever sets its flag, so
   * the logging branch of `data_received` is never taken (if it were, the
   * lookup of `logSSLParameters` would raise).
   */
  class AsyncIOTCPLayer {
    var logSSLRequired: bool
    /** Whether `connectedEvent` is set. */
    var connected: bool
    var transport: Option<Transport>
    ghost var trace: seq<TcpEvent>

    /** The flag is never set. */
    ghost predicate Valid()
      reads this
    {
      !logSSLRequired
    }

    constructor ()
      ensures Valid()
      ensures !connected && transport == None && trace == []
    {
      logSSLRequired := false;
      connected := false;
      transport := None;
      trace := [];
    }

    /** The transport is stored, then the connected event set, then the observer told. */
    method ConnectionMade(t: Transport)
      modifies this
      ensures transport == Some(t) && connected && logSSLRequired == old(logSSLRequired)
      ensures old(Valid()) ==> Valid()
      ensures trace == old(trace) + [TransportAttached(t), ConnectedEventSet, ObserverConnected]
    {
      transport := Some(t);
      trace := trace + [TransportAttached(t)];
      connected := true;
      trace := trace + [ConnectedEventSet, ObserverConnected];
    }

    method ConnectionLost(exception: Reason)
      modifies this`trace
      ensures trace == old(trace) + [ObserverDisconnected(exception)]
    {
      trace := trace + [ObserverDisconnected(exception)];
    }

    /** `transport.abort()`; before `connection_made` the transport is `None` and the call raises. */
    method Disconnect() returns (r: Outcome)
      modifies this`trace
      ensures transport.None? ==> r == Fail(NO_TRANSPORT) && trace == old(trace)
      ensures transport.Some? ==> r == Pass && trace == old(trace) + [TransportAbort]
    {
      if transport.None? {
        return Fail(NO_TRANSPORT);
      }
      trace := trace + [TransportAbort];
      r := Pass;
    }

    /**
     * `data_received`; `forward` says how `next.recv` ends. The flag never
     * changes, and while it is clear (as `Valid` keeps it) the chunk is
     * forwarded with no attempt to log TLS parameters.
     */
    method DataReceived(data: seq<byte>, forward: Outcome) returns (r: Outcome)
      modifies this`trace
      ensures var s := OnData(logSSLRequired, data, Fail(MISSING_LOG_SSL_PARAMETERS), forward);
              logSSLRequired == s.armed && trace == old(trace) + s.events && r == s.result
      ensures old(Valid()) ==>
                && Valid() && r == forward
                && trace == old(trace) + [ForwardedToNext(data)] + (if forward.Fail? then [ExceptionLogged(forward.error)] else [])
    {
      if logSSLRequired {
        trace := trace + [ExceptionLogged(MISSING_LOG_SSL_PARAMETERS)];
        return Fail(MISSING_LOG_SSL_PARAMETERS);
      }
      trace := trace + [ForwardedToNext(data)];
      if forward.Fail? {
        trace := trace + [ExceptionLogged(forward.error)];
      }
      r := forward;
    }

    /** `transport.write(data)`; before `connection_made` the transport is `None` and the call raises. */
    method Send(data: seq<byte>) returns (r: Outcome)
      modifies this`trace
      ensures transport.None? ==> r == Fail(NO_TRANSPORT) && trace == old(trace)
      ensures transport.Some? ==> r == Pass && trace == old(trace) + [TransportWrite(data)]
    {
      if transport.None? {
        return Fail(NO_TRANSPORT);
      }
      trace := trace + [TransportWrite(data)];
      r := Pass;
    }
  }
}
