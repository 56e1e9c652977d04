/** The network transport of src/components/network/index.js: a `_running` flag that
    guards the entry points, protocol handlers registered according to `b100Only`, the
    1.1.0-then-1.0.0 dial fallback and the choice of serializer by the dialed protocol.
    Calls into libp2p, the DHT, content routing and the exchange are recorded, in order,
    in an append-only log; what those collaborators answer is a parameter. */
module Network {
  import opened Types

  const BITSWAP100: string := "/ipfs/bitswap/1.0.0"
  const BITSWAP110: string := "/ipfs/bitswap/1.1.0"

  const PEER_CONNECT: string := "peer:connect"
  const PEER_DISCONNECT: string := "peer:disconnect"

  /** The error connectTo and sendMessage report while the network is stopped. */
  const NotRunning := Error("No running network")

  /** sendMessage's error for a protocol it has no serializer for (spelled as the source
      spells it). */
  function UnknownProtocol(protocol: string): Error {
    Error("Unkown protocol: " + protocol)
  }

  /** libp2p connections are only passed along, so a number names one. */
  type ConnId = nat

  /** The wire formats of the two protocol versions. */
  datatype Format = Bitswap100 | Bitswap110

  /** What a serializer produced; the encodings themselves are not part of this model. */
  datatype Serialized = Serialized(format: Format, msg: Message)

  /** How one `libp2p.dial(peer, protocol, cb)` ends: a connection, an error passed to
      the callback, or an exception thrown by the dial. */
  datatype DialOutcome = Connected(conn: ConnId) | Refused(error: Error) | Threw(error: Error)

  /** A connection together with the protocol it was dialed with. */
  datatype Dialed = Dialed(conn: ConnId, protocol: string)

  /** One item of an incoming connection's stream: a frame that decodes to a message,
      with the answer of `conn.getPeerInfo` and the error (if any) the exchange's
      `_receiveMessage` calls back with; or a frame `Message.deserialize` rejects. */
  datatype Frame =
    | Decoded(msg: Message, peer: Result<PeerId>, answer: Option<Error>)
    | Malformed(error: Error)

  /** Whether and how a callback is invoked. */
  datatype Completion = Called(error: Option<Error>) | NeverCalled

  datatype NetEvent =
    | Handle(protocol: string)                              // libp2p.handle
    | Unhandle(protocol: string)                            // libp2p.unhandle
    | On(event: string)                                     // libp2p.on
    | RemoveListener(event: string)                         // libp2p.removeListener
    | PeerConnected(peer: PeerId)                           // bitswap._onPeerConnected
    | PeerDisconnected(peer: PeerId)                        // bitswap._onPeerDisconnected
    | Received(peer: PeerId, msg: Message)                  // bitswap._receiveMessage
    | ReceiveError(error: Error)                            // bitswap._receiveError
    | Dial(peer: PeerId)                                    // libp2p.dial(peer, cb)
    | DialProtocol(peer: PeerId, protocol: string)          // libp2p.dial(peer, protocol, cb)
    | FindProviders(cid: Cid, timeout: nat, maxProviders: nat)  // dht.findNProviders
    | Provide(cid: Cid)                                     // contentRouting.provide
    | Write(conn: ConnId, payload: Serialized)              // writeMessage

  // ---------------------------------------------------------------------------
  // Registration

  /** The protocols the transport serves. */
  function Protocols(b100Only: bool): seq<string> {
    [BITSWAP100] + (if b100Only then [] else [BITSWAP110])
  }

  function Handles(ps: seq<string>): seq<NetEvent> {
    if ps == [] then [] else [Handle(ps[0])] + Handles(ps[1..])
  }

  function Unhandles(ps: seq<string>): seq<NetEvent> {
    if ps == [] then [] else [Unhandle(ps[0])] + Unhandles(ps[1..])
  }

  /** `_onPeerConnect` for each peer of the peer book, in order, while running. */
  function Connects(peers: seq<PeerId>): seq<NetEvent> {
    if peers == [] then [] else [PeerConnected(peers[0])] + Connects(peers[1..])
  }

  lemma HandlesProtocols(b100Only: bool)
    ensures Handles(Protocols(b100Only)) == [Handle(BITSWAP100)] + (if b100Only then [] else [Handle(BITSWAP110)])
    ensures Unhandles(Protocols(b100Only)) == [Unhandle(BITSWAP100)] + (if b100Only then [] else [Unhandle(BITSWAP110)])
  {
    var ps := Protocols(b100Only);
    var rest: seq<string> := if b100Only then [] else [BITSWAP110];
    assert ps[0] == BITSWAP100 && ps[1..] == rest;
    if !b100Only {
      assert rest[0] == BITSWAP110 && rest[1..] == [];
      assert Handles(rest) == [Handle(BITSWAP110)];
      assert Unhandles(rest) == [Unhandle(BITSWAP110)];
    }
  }

  function StartLog(b100Only: bool, peers: seq<PeerId>): seq<NetEvent> {
    Handles(Protocols(b100Only)) + [On(PEER_CONNECT), On(PEER_DISCONNECT)] + Connects(peers)
  }

  function StopLog(b100Only: bool): seq<NetEvent> {
    Unhandles(Protocols(b100Only)) + [RemoveListener(PEER_CONNECT), RemoveListener(PEER_DISCONNECT)]
  }

  /** What libp2p has bound: the protocols handled, and how many listeners each event
      has. A protocol has one handler at a time, but every `start` binds fresh listener
      functions and `libp2p.on` adds them beside any earlier ones, while `removeListener`
      removes only the function bound last, so listeners are counted. */
  datatype Bindings = Bindings(handlers: set<string>, events: multiset<string>)

  /** The bindings after the calls of `log`, starting from `b`. */
  function Apply(b: Bindings, log: seq<NetEvent>): Bindings
    decreases |log|
  {
    if log == [] then b
    else
      var b1 := match log[0]
        case Handle(p) => b.(handlers := b.handlers + {p})
        case Unhandle(p) => b.(handlers := b.handlers - {p})
        case On(e) => b.(events := b.events + multiset{e})
        case RemoveListener(e) => b.(events := b.events - multiset{e})
        case _ => b;
      Apply(b1, log[1..])
  }

  // ---------------------------------------------------------------------------
  // Incoming connections

  /** The calls into the exchange that the stream of one incoming connection makes: each
      decoded message in turn, until a frame fails to decode, a peer lookup fails or the
      exchange answers with an error; that error, or the one the stream ends with, goes
      to `_receiveError`. */
  function Pipeline(frames: seq<Frame>, end: Option<Error>): (r: seq<NetEvent>)
    ensures |r| <= |frames| + 1
  {
    if frames == [] then (if end.Some? then [ReceiveError(end.value)] else [])
    else match frames[0]
      case Malformed(e) => [ReceiveError(e)]
      case Decoded(msg, peer, answer) =>
        match peer
        case Failure(e) => [ReceiveError(e)]
        case Success(id) =>
          [Received(id, msg)] + (if answer.Some? then [ReceiveError(answer.value)] else Pipeline(frames[1..], end))
  }

  lemma PipelineStep(frames: seq<Frame>, i: nat, end: Option<Error>)
    requires i < |frames|
    ensures frames[i].Malformed? ==> Pipeline(frames[i..], end) == [ReceiveError(frames[i].error)]
    ensures frames[i].Decoded? && frames[i].peer.Failure? ==>
      Pipeline(frames[i..], end) == [ReceiveError(frames[i].peer.error)]
    ensures frames[i].Decoded? && frames[i].peer.Success? ==>
      Pipeline(frames[i..], end) == [Received(frames[i].peer.value, frames[i].msg)]
        + (if frames[i].answer.Some? then [ReceiveError(frames[i].answer.value)] else Pipeline(frames[i + 1..], end))
  {
    assert frames[i..][0] == frames[i] && frames[i..][1..] == frames[i + 1..];
  }

  /** A frame the whole pipeline passes through. */
  predicate Clean(f: Frame) {
    f.Decoded? && f.peer.Success? && f.answer.None?
  }

  /** The calls a frame that is not clean makes before it ends the pipeline. */
  function Halt(f: Frame): (r: seq<NetEvent>)
    requires !Clean(f)
    ensures 1 <= |r| <= 2 && r[|r| - 1].ReceiveError?
  {
    match f
    case Malformed(e) => [ReceiveError(e)]
    case Decoded(msg, peer, answer) =>
      if peer.Failure? then [ReceiveError(peer.error)]
      else [Received(peer.value, msg), ReceiveError(answer.value)]
  }

  // ---------------------------------------------------------------------------
  // Dialing and sending

  /** `_dialPeer`'s decision: 1.1.0 when its dial connects, otherwise 1.0.0 when that
      dial connects, otherwise the error of the last dial attempted. With the dials
      answering synchronously, an exception from either dial is caught by the `try` and
      becomes the callback's error. */
  function Fallback(first: DialOutcome, second: DialOutcome): (r: Result<Dialed>)
    ensures r.Success? && r.value.protocol == BITSWAP110 <==> first.Connected?
    ensures r.Success? && r.value.protocol == BITSWAP100 <==> first.Refused? && second.Connected?
    ensures first.Connected? ==> r.Success? && r.value.conn == first.conn
    ensures first.Refused? && second.Connected? ==> r.Success? && r.value.conn == second.conn
    ensures r.Failure? ==> r.error == (if first.Threw? then first.error else second.error)
  {
    match first
    case Connected(c) => Success(Dialed(c, BITSWAP110))
    case Threw(e) => Failure(e)
    case Refused(_) =>
      match second
      case Connected(c) => Success(Dialed(c, BITSWAP100))
      case Refused(e) => Failure(e)
      case Threw(e) => Failure(e)
  }

  /** The dials `_dialPeer` attempts: 1.0.0 only after 1.1.0 was refused. */
  function DialLog(peer: PeerId, first: DialOutcome): seq<NetEvent> {
    [DialProtocol(peer, BITSWAP110)] + (if first.Refused? then [DialProtocol(peer, BITSWAP100)] else [])
  }

  /** The `switch (protocol)` of sendMessage. */
  function Serializer(protocol: string): (r: Result<Format>)
    ensures r == Success(Bitswap100) <==> protocol == BITSWAP100
    ensures r == Success(Bitswap110) <==> protocol == BITSWAP110
    ensures r.Failure? <==> protocol != BITSWAP100 && protocol != BITSWAP110
    ensures r.Failure? ==> r.error == UnknownProtocol(protocol)
  {
    if protocol == BITSWAP100 then Success(Bitswap100)
    else if protocol == BITSWAP110 then Success(Bitswap110)
    else Failure(UnknownProtocol(protocol))
  }

  /** The error sendMessage calls back with and the calls it makes, while running. */
  datatype Sent = Sent(error: Option<Error>, events: seq<NetEvent>)

  function Send(peer: PeerId, msg: Message, first: DialOutcome, second: DialOutcome): (r: Sent)
    ensures r.error.None? <==> Fallback(first, second).Success?
    ensures r.error.Some? ==> r.error.value == Fallback(first, second).error && r.events == DialLog(peer, first)
    ensures r.error.None? ==>
      r.events == DialLog(peer, first)
        + [Write(Fallback(first, second).value.conn,
                 Serialized(if first.Connected? then Bitswap110 else Bitswap100, msg))]
  {
    var dials := DialLog(peer, first);
    match Fallback(first, second)
    case Failure(e) => Sent(Some(e), dials)
    case Success(d) =>
      match Serializer(d.protocol)
      case Failure(e) => Sent(Some(e), dials)
      case Success(format) => Sent(None, dials + [Write(d.conn, Serialized(format, msg))])
  }

  /** The calls findAndConnect makes: the provider lookup and, when it succeeds, one
      connectTo per provider, which dials only while running. */
  function FindAndConnectLog(running: bool, cid: Cid, timeout: nat, maxProviders: nat,
                             providers: Result<seq<PeerId>>): seq<NetEvent> {
    [FindProviders(cid, timeout, maxProviders)]
    + (if providers.Success? && running then Dials(providers.value) else [])
  }

  function Dials(peers: seq<PeerId>): seq<NetEvent> {
    if peers == [] then [] else [Dial(peers[0])] + Dials(peers[1..])
  }

  // ---------------------------------------------------------------------------
  // The transport

  class Network {
    var running: bool
    var log: seq<NetEvent>
    const b100Only: bool
    /** `CONSTANTS.providerRequestTimeout`. */
    const providerRequestTimeout: nat

    constructor (b100: bool, timeout: nat)
      ensures !running && log == [] && b100Only == b100 && providerRequestTimeout == timeout
    {
      running := false;
      log := [];
      b100Only := b100;
      providerRequestTimeout := timeout;
    }

    /** `start`; `peers` are the peers of the peer book, in key order. */
    method Start(peers: seq<PeerId>)
      modifies this
      ensures running && log == old(log) + StartLog(b100Only, peers)
    {
      running := true;
      log := log + [Handle(BITSWAP100)];
      if !b100Only {
        log := log + [Handle(BITSWAP110)];
      }
      log := log + [On(PEER_CONNECT), On(PEER_DISCONNECT)];
      ghost var bound := log;
      HandlesProtocols(b100Only);
      var i := 0;
      while i < |peers|
        invariant 0 <= i <= |peers|
        invariant running
        invariant log == bound + Connects(peers[..i])
      {
        ConnectsSnoc(peers[..i], peers[i]);
        assert peers[..i + 1] == peers[..i] + [peers[i]];
        OnPeerConnect(peers[i]);
        i := i + 1;
      }
      assert peers[..i] == peers;
      assert log == old(log) + Handles(Protocols(b100Only)) + [On(PEER_CONNECT), On(PEER_DISCONNECT)] + Connects(peers);
    }

    /** `stop`. */
    method Stop()
      modifies this
      ensures !running && log == old(log) + StopLog(b100Only)
    {
      running := false;
      log := log + [Unhandle(BITSWAP100)];
      if !b100Only {
        log := log + [Unhandle(BITSWAP110)];
      }
      log := log + [RemoveListener(PEER_CONNECT), RemoveListener(PEER_DISCONNECT)];
      HandlesProtocols(b100Only);
    }

    /** `_onConnection`: `protocol` is only logged by the source. */
    method OnConnection(protocol: string, frames: seq<Frame>, end: Option<Error>)
      modifies this
      ensures running == old(running)
      ensures log == old(log) + (if old(running) then Pipeline(frames, end) else [])
    {
      if !running {
        return;
      }
      var calls := Consume(frames, end);
      log := log + calls;
    }

    /** The pull pipeline of `_onConnection`: decode each frame, look up the peer and hand
        the message to the exchange, ending at the first error. */
    method Consume(frames: seq<Frame>, end: Option<Error>) returns (calls: seq<NetEvent>)
      ensures calls == Pipeline(frames, end)
    {
      calls := [];
      var i := 0;
      assert frames[0..] == frames;
      while i < |frames| && Clean(frames[i])
        invariant 0 <= i <= |frames|
        invariant Pipeline(frames, end) == calls + Pipeline(frames[i..], end)
      {
        ghost var rest := Pipeline(frames[i + 1..], end);
        assert Pipeline(frames[i..], end) == [Received(frames[i].peer.value, frames[i].msg)] + rest by {
          PipelineStep(frames, i, end);
        }
        assert calls + ([Received(frames[i].peer.value, frames[i].msg)] + rest)
            == (calls + [Received(frames[i].peer.value, frames[i].msg)]) + rest;
        calls := calls + [Received(frames[i].peer.value, frames[i].msg)];
        i := i + 1;
      }
      var last := if i < |frames| then Halt(frames[i]) else if end.Some? then [ReceiveError(end.value)] else [];
      assert Pipeline(frames[i..], end) == last by {
        if i < |frames| {
          PipelineStep(frames, i, end);
        }
      }
      calls := calls + last;
    }

    /** `_onPeerConnect`. */
    method OnPeerConnect(peer: PeerId)
      modifies this
      ensures running == old(running)
      ensures log == old(log) + (if running then [PeerConnected(peer)] else [])
    {
      if !running {
        return;
      }
      log := log + [PeerConnected(peer)];
    }

    /** `_onPeerDisconnect`. */
    method OnPeerDisconnect(peer: PeerId)
      modifies this
      ensures running == old(running)
      ensures log == old(log) + (if running then [PeerDisconnected(peer)] else [])
    {
      if !running {
        return;
      }
      log := log + [PeerDisconnected(peer)];
    }

    /** `connectTo`; `outcome` is what `libp2p.dial` calls back with. */
    method ConnectTo(peer: PeerId, outcome: Option<Error>) returns (err: Option<Error>)
      modifies this
      ensures running == old(running)
      ensures !running ==> err == Some(NotRunning) && log == old(log)
      ensures running ==> err == outcome && log == old(log) + [Dial(peer)]
    {
      if !running {
        return Some(NotRunning);
      }
      log := log + [Dial(peer)];
      err := outcome;
    }

    /** `findProviders`; `answer` is what the DHT calls back with. */
    method FindProviders(cid: Cid, maxProviders: nat, answer: Result<seq<PeerId>>)
      returns (r: Result<seq<PeerId>>)
      modifies this
      ensures running == old(running) && r == answer
      ensures log == old(log) + [NetEvent.FindProviders(cid, providerRequestTimeout, maxProviders)]
    {
      log := log + [NetEvent.FindProviders(cid, providerRequestTimeout, maxProviders)];
      r := answer;
    }

    /** `findAndConnect`: the `each` over the providers has no final callback, so the
        callback is invoked only with a lookup error, and the dial outcomes are dropped. */
    method FindAndConnect(cid: Cid, maxProviders: nat, answer: Result<seq<PeerId>>)
      returns (c: Completion)
      modifies this
      ensures running == old(running)
      ensures c == if answer.Failure? then Called(Some(answer.error)) else NeverCalled
      ensures log == old(log) + FindAndConnectLog(running, cid, providerRequestTimeout, maxProviders, answer)
    {
      var providers := FindProviders(cid, maxProviders, answer);
      if providers.Failure? {
        return Called(Some(providers.error));
      }
      ghost var looked := log;
      var ps := providers.value;
      var i := 0;
      while i < |ps|
        invariant 0 <= i <= |ps|
        invariant running == old(running)
        invariant running ==> log == looked + Dials(ps[..i])
        invariant !running ==> log == looked
      {
        DialsSnoc(ps[..i], ps[i]);
        assert ps[..i + 1] == ps[..i] + [ps[i]];
        var _ := ConnectTo(ps[i], None);
        i := i + 1;
      }
      assert ps[..i] == ps;
      assert looked + [] == looked;
      c := NeverCalled;
    }

    /** `provide`; `outcome` is what content routing calls back with. */
    method Provide(cid: Cid, outcome: Option<Error>) returns (err: Option<Error>)
      modifies this
      ensures running == old(running) && err == outcome
      ensures log == old(log) + [NetEvent.Provide(cid)]
    {
      log := log + [NetEvent.Provide(cid)];
      err := outcome;
    }

    /** `_dialPeer`. */
    method DialPeer(peer: PeerId, first: DialOutcome, second: DialOutcome) returns (r: Result<Dialed>)
      modifies this
      ensures running == old(running) && r == Fallback(first, second)
      ensures log == old(log) + DialLog(peer, first)
    {
      log := log + [DialProtocol(peer, BITSWAP110)];
      match first
      case Connected(c) =>
        r := Success(Dialed(c, BITSWAP110));
      case Threw(e) =>
        r := Failure(e);
      case Refused(_) =>
        log := log + [DialProtocol(peer, BITSWAP100)];
        match second
        case Connected(c) => r := Success(Dialed(c, BITSWAP100));
        case Refused(e) => r := Failure(e);
        case Threw(e) => r := Failure(e);
    }

    /** `sendMessage`: the callback is invoked right after the write is started, and
        the write's own outcome is only logged by the source. */
    method SendMessage(peer: PeerId, msg: Message, first: DialOutcome, second: DialOutcome)
      returns (err: Option<Error>)
      modifies this
      ensures running == old(running)
      ensures !running ==> err == Some(NotRunning) && log == old(log)
      ensures running ==> err == Send(peer, msg, first, second).error
                          && log == old(log) + Send(peer, msg, first, second).events
    {
      if !running {
        return Some(NotRunning);
      }
      var dialed := DialPeer(peer, first, second);
      if dialed.Failure? {
        return Some(dialed.error);
      }
      // the switch's default case cannot be reached: DialPeer reports 1.0.0 or 1.1.0
      var format := Serializer(dialed.value.protocol);
      log := log + [Write(dialed.value.conn, Serialized(format.value, msg))];
      err := None;
    }
  }

  // ---------------------------------------------------------------------------
  // Helpers for the loops

  lemma {:induction false} ConnectsSnoc(peers: seq<PeerId>, p: PeerId)
    ensures Connects(peers + [p]) == Connects(peers) + [PeerConnected(p)]
  {
    if peers == [] {
      assert [] + [p] == [p];
    } else {
      assert (peers + [p])[0] == peers[0] && (peers + [p])[1..] == peers[1..] + [p];
      ConnectsSnoc(peers[1..], p);
    }
  }

  lemma {:induction false} DialsSnoc(peers: seq<PeerId>, p: PeerId)
    ensures Dials(peers + [p]) == Dials(peers) + [Dial(p)]
  {
    if peers == [] {
      assert [] + [p] == [p];
    } else {
      assert (peers + [p])[0] == peers[0] && (peers + [p])[1..] == peers[1..] + [p];
      DialsSnoc(peers[1..], p);
    }
  }
}
