/** Properties of the network transport: what start and stop leave bound, how the
    stream of an incoming connection is consumed, and which serializer a dial selects. */
module NetworkProperties {
  import opened Types
  import opened Network

  // ---------------------------------------------------------------------------
  // Registration

  lemma {:induction false} ApplyAppend(b: Bindings, x: seq<NetEvent>, y: seq<NetEvent>)
    ensures Apply(b, x + y) == Apply(Apply(b, x), y)
    decreases |x|
  {
    if x == [] {
      assert [] + y == y;
    } else {
      assert (x + y)[0] == x[0] && (x + y)[1..] == x[1..] + y;
      var b1 := match x[0]
        case Handle(p) => b.(handlers := b.handlers + {p})
        case Unhandle(p) => b.(handlers := b.handlers - {p})
        case On(e) => b.(events := b.events + multiset{e})
        case RemoveListener(e) => b.(events := b.events - multiset{e})
        case _ => b;
      ApplyAppend(b1, x[1..], y);
    }
  }

  /** Forwarding peer connections to the exchange binds nothing. */
  lemma {:induction false} ApplyConnects(b: Bindings, peers: seq<PeerId>)
    ensures Apply(b, Connects(peers)) == b
    decreases |peers|
  {
    if peers != [] {
      var x := Connects(peers);
      assert x[0] == PeerConnected(peers[0]) && x[1..] == Connects(peers[1..]);
      ApplyConnects(b, peers[1..]);
    }
  }

  /** The protocols served: 1.0.0 always, 1.1.0 unless `b100Only`. */
  function Served(b100Only: bool): (r: set<string>)
    ensures BITSWAP100 in r
    ensures BITSWAP110 in r <==> !b100Only
    ensures forall p :: p in r ==> p == BITSWAP100 || p == BITSWAP110
  {
    {BITSWAP100} + (if b100Only then {} else {BITSWAP110})
  }

  /** `start` handles the served protocols and listens for peer connections and
      disconnections; the peers it replays bind nothing. */
  lemma StartBinds(b: Bindings, b100Only: bool, peers: seq<PeerId>)
    ensures Apply(b, StartLog(b100Only, peers))
         == Bindings(b.handlers + Served(b100Only), b.events + multiset{PEER_CONNECT, PEER_DISCONNECT})
  {
    HandlesProtocols(b100Only);
    var h := Handles(Protocols(b100Only));
    var on := [On(PEER_CONNECT), On(PEER_DISCONNECT)];
    ApplyAppend(b, h + on, Connects(peers));
    ApplyAppend(b, h, on);
    ApplyConnects(Apply(b, h + on), peers);
    var b1 := b.(handlers := b.handlers + {BITSWAP100});
    assert Apply(b, [Handle(BITSWAP100)]) == b1 by {
      assert [Handle(BITSWAP100)][1..] == [];
    }
    if !b100Only {
      ApplyAppend(b, [Handle(BITSWAP100)], [Handle(BITSWAP110)]);
      assert Apply(b1, [Handle(BITSWAP110)]) == b1.(handlers := b1.handlers + {BITSWAP110}) by {
        assert [Handle(BITSWAP110)][1..] == [];
      }
    }
    var b2 := Apply(b, h);
    assert b2 == b.(handlers := b.handlers + Served(b100Only));
    var b3 := b2.(events := b2.events + multiset{PEER_CONNECT});
    assert Apply(b2, on) == Apply(b3, [On(PEER_DISCONNECT)]) by {
      assert on[0] == On(PEER_CONNECT) && on[1..] == [On(PEER_DISCONNECT)];
    }
    assert Apply(b3, [On(PEER_DISCONNECT)]) == b3.(events := b3.events + multiset{PEER_DISCONNECT}) by {
      assert [On(PEER_DISCONNECT)][1..] == [];
    }
  }

  /** `stop` unhandles exactly the protocols `start` handled and removes both peer
      listeners. */
  lemma StopUnbinds(b: Bindings, b100Only: bool)
    ensures Apply(b, StopLog(b100Only))
         == Bindings(b.handlers - Served(b100Only), b.events - multiset{PEER_CONNECT, PEER_DISCONNECT})
  {
    HandlesProtocols(b100Only);
    var u := Unhandles(Protocols(b100Only));
    var off := [RemoveListener(PEER_CONNECT), RemoveListener(PEER_DISCONNECT)];
    ApplyAppend(b, u, off);
    var b1 := b.(handlers := b.handlers - {BITSWAP100});
    assert Apply(b, [Unhandle(BITSWAP100)]) == b1 by {
      assert [Unhandle(BITSWAP100)][1..] == [];
    }
    if !b100Only {
      ApplyAppend(b, [Unhandle(BITSWAP100)], [Unhandle(BITSWAP110)]);
      assert Apply(b1, [Unhandle(BITSWAP110)]) == b1.(handlers := b1.handlers - {BITSWAP110}) by {
        assert [Unhandle(BITSWAP110)][1..] == [];
      }
    }
    var b2 := Apply(b, u);
    assert b2 == b.(handlers := b.handlers - Served(b100Only));
    var b3 := b2.(events := b2.events - multiset{PEER_CONNECT});
    assert Apply(b2, off) == Apply(b3, [RemoveListener(PEER_DISCONNECT)]) by {
      assert off[0] == RemoveListener(PEER_CONNECT) && off[1..] == [RemoveListener(PEER_DISCONNECT)];
    }
    assert Apply(b3, [RemoveListener(PEER_DISCONNECT)]) == b3.(events := b3.events - multiset{PEER_DISCONNECT}) by {
      assert [RemoveListener(PEER_DISCONNECT)][1..] == [];
    }
    RemoveTwo(b.events, PEER_CONNECT, PEER_DISCONNECT);
  }

  lemma RemoveTwo(m: multiset<string>, x: string, y: string)
    ensures m - multiset{x} - multiset{y} == m - multiset{x, y}
  {
    forall z
      ensures (m - multiset{x} - multiset{y})[z] == (m - multiset{x, y})[z]
    {
    }
  }

  /** From nothing bound, `start` then `stop` leaves nothing bound again. */
  lemma StartThenStop(b100Only: bool, peers: seq<PeerId>)
    ensures Apply(Bindings({}, multiset{}), StartLog(b100Only, peers) + StopLog(b100Only)) == Bindings({}, multiset{})
  {
    var none := Bindings({}, multiset{});
    ApplyAppend(none, StartLog(b100Only, peers), StopLog(b100Only));
    StartBinds(none, b100Only, peers);
    StopUnbinds(Apply(none, StartLog(b100Only, peers)), b100Only);
  }

  /** `start` twice and then `stop` leaves no protocol handled but one listener on each
      peer event, so a later `start` forwards every peer event twice. */
  lemma RestartLeaks(b100Only: bool, peers: seq<PeerId>)
    ensures Apply(Bindings({}, multiset{}), StartLog(b100Only, peers) + StartLog(b100Only, peers) + StopLog(b100Only))
         == Bindings({}, multiset{PEER_CONNECT, PEER_DISCONNECT})
  {
    var none := Bindings({}, multiset{});
    var start := StartLog(b100Only, peers);
    ApplyAppend(none, start + start, StopLog(b100Only));
    ApplyAppend(none, start, start);
    StartBinds(none, b100Only, peers);
    var once := Apply(none, start);
    StartBinds(once, b100Only, peers);
    var twice := Apply(once, start);
    StopUnbinds(twice, b100Only);
    assert twice.events - multiset{PEER_CONNECT, PEER_DISCONNECT} == multiset{PEER_CONNECT, PEER_DISCONNECT};
  }

  /** `start` forwards each peer of the peer book to the exchange, once and in order. */
  lemma {:induction false} ConnectsIndex(peers: seq<PeerId>)
    ensures |Connects(peers)| == |peers|
    ensures forall i :: 0 <= i < |peers| ==> Connects(peers)[i] == PeerConnected(peers[i])
    decreases |peers|
  {
    if peers != [] {
      ConnectsIndex(peers[1..]);
    }
  }

  // ---------------------------------------------------------------------------
  // Incoming connections

  /** Only the last call of a connection's pipeline can be an error report; every other
      call hands a message to the exchange. */
  lemma {:induction false} PipelineShape(frames: seq<Frame>, end: Option<Error>)
    ensures var r := Pipeline(frames, end);
      && (forall i :: 0 <= i < |r| - 1 ==> r[i].Received?)
      && (|r| > 0 ==> r[|r| - 1].Received? || r[|r| - 1].ReceiveError?)
    decreases |frames|
  {
    if frames != [] && Clean(frames[0]) {
      PipelineShape(frames[1..], end);
      var rest := Pipeline(frames[1..], end);
      var r := Pipeline(frames, end);
      assert r == [Received(frames[0].peer.value, frames[0].msg)] + rest;
      forall i | 1 <= i < |r| - 1
        ensures r[i].Received?
      {
        assert r[i] == rest[i - 1];
      }
    }
  }

  /** A stream of clean frames hands every message to the exchange in order, and then
      reports the error the stream ends with, if any. */
  lemma {:induction false} PipelineClean(frames: seq<Frame>, end: Option<Error>)
    requires forall i :: 0 <= i < |frames| ==> Clean(frames[i])
    ensures var r := Pipeline(frames, end);
      && |r| == |frames| + (if end.Some? then 1 else 0)
      && (forall i :: 0 <= i < |frames| ==> Clean(frames[i]) && r[i] == Received(frames[i].peer.value, frames[i].msg))
      && (end.Some? ==> r[|frames|] == ReceiveError(end.value))
    decreases |frames|
  {
    if frames != [] {
      var tail := frames[1..];
      assert forall i :: 0 <= i < |tail| ==> tail[i] == frames[i + 1];
      PipelineClean(tail, end);
      assert Clean(frames[0]);
      var rest := Pipeline(tail, end);
      var r := Pipeline(frames, end);
      assert r == [Received(frames[0].peer.value, frames[0].msg)] + rest;
      forall i | 1 <= i < |frames|
        ensures r[i] == Received(frames[i].peer.value, frames[i].msg)
      {
        assert r[i] == rest[i - 1] && tail[i - 1] == frames[i];
      }
    }
  }

  /** The first frame that is not clean ends the pipeline: the frames after it are never
      read, and the error it carries is reported. */
  lemma {:induction false} PipelineStops(frames: seq<Frame>, end: Option<Error>, k: nat)
    requires k < |frames| && !Clean(frames[k])
    requires forall i :: 0 <= i < k ==> Clean(frames[i])
    ensures var r := Pipeline(frames, end);
      && r == Pipeline(frames[..k + 1], end)
      && |r| == k + (if frames[k].Decoded? && frames[k].peer.Success? then 2 else 1)
      && (forall i :: 0 <= i < k ==> Clean(frames[i]) && r[i] == Received(frames[i].peer.value, frames[i].msg))
      && r[|r| - 1].ReceiveError?
    decreases k
  {
    if k == 0 {
      assert frames[..1][0] == frames[0];
    } else {
      assert frames[1..][..k] == frames[..k + 1][1..];
      assert forall i :: 0 <= i < k - 1 ==> frames[1..][i] == frames[i + 1];
      PipelineStops(frames[1..], end, k - 1);
      assert frames[..k + 1][0] == frames[0];
      assert Clean(frames[0]);
    }
  }

  // ---------------------------------------------------------------------------
  // Dialing and sending

  /** The dial `_dialPeer` reports always has a serializer, and it is the 1.0.0 one
      exactly when the dial used 1.0.0. */
  lemma SerializerOfDialed(first: DialOutcome, second: DialOutcome)
    requires Fallback(first, second).Success?
    ensures var p := Fallback(first, second).value.protocol;
      && Serializer(p).Success?
      && (Serializer(p).value == Bitswap100 <==> p == BITSWAP100)
      && (Serializer(p).value == Bitswap110 <==> p == BITSWAP110)
  {
  }

  /** `_dialPeer` attempts one dial when 1.1.0 connects or throws, and both when it
      is refused; 1.0.0 is never dialed first. */
  lemma DialOrder(peer: PeerId, first: DialOutcome)
    ensures var d := DialLog(peer, first);
      && d[0] == DialProtocol(peer, BITSWAP110)
      && |d| == (if first.Refused? then 2 else 1)
      && (first.Refused? ==> d[1] == DialProtocol(peer, BITSWAP100))
  {
  }

  /** findAndConnect dials every provider the lookup returns, once and in order, and
      dials nobody when the lookup fails or the network is stopped. */
  lemma {:induction false} DialsIndex(peers: seq<PeerId>)
    ensures |Dials(peers)| == |peers|
    ensures forall i :: 0 <= i < |peers| ==> Dials(peers)[i] == Dial(peers[i])
    decreases |peers|
  {
    if peers != [] {
      DialsIndex(peers[1..]);
    }
  }

  lemma FindAndConnectDials(running: bool, cid: Cid, timeout: nat, maxProviders: nat,
                            providers: Result<seq<PeerId>>)
    ensures var l := FindAndConnectLog(running, cid, timeout, maxProviders, providers);
      && l[0] == NetEvent.FindProviders(cid, timeout, maxProviders)
      && (providers.Failure? || !running ==> |l| == 1)
      && (providers.Success? && running ==>
            |l| == 1 + |providers.value|
            && forall i :: 0 <= i < |providers.value| ==> l[i + 1] == Dial(providers.value[i]))
  {
    if providers.Success? && running {
      var ds := Dials(providers.value);
      DialsIndex(providers.value);
      var l := FindAndConnectLog(running, cid, timeout, maxProviders, providers);
      assert l == [NetEvent.FindProviders(cid, timeout, maxProviders)] + ds;
      assert forall i :: 0 <= i < |ds| ==> l[i + 1] == ds[i];
    }
  }
}
