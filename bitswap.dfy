/** The exchange orchestrator of src/index.js as a class. Its fields are the blockstore,
    the three receive counters, the listeners registered on the notification emitter,
    the closure state of the getMany calls, and the log of calls into the collaborators.
    Every method is proved to change the fields exactly as a function of ExchangeState
    says, or, for the plain forwarding methods, as an explicit update of the old model. */
module Bitswap {
  import opened Types
  import opened ExchangeState

  /** An entry of the want manager's want list, as `getWantlist` returns it. */
  datatype WantlistEntry = WantlistEntry(cid: Cid, priority: int)

  /** The snapshot `stat` returns. */
  datatype Stats = Stats(
    wantlist: seq<WantlistEntry>,
    blocksReceived: nat,
    dupBlksReceived: nat,
    dupDataReceived: nat,
    peers: seq<PeerId>)

  /** `map(locals, get)` so far: the blocks read, followed by what is left to read. */
  function Prefixed(got: seq<Block>, rest: Result<seq<Block>>): Result<seq<Block>> {
    match rest
    case Success(bs) => Success(got + bs)
    case Failure(e) => rest
  }

  /** The partition so far followed by the partition of the CIDs left. */
  function Joined(locals: seq<Cid>, missing: seq<Cid>, rest: Split): Split {
    Split(locals + rest.locals, missing + rest.missing, rest.failed)
  }

  /** Moving one classified CID from the rest of the partition to the part done. */
  lemma JoinedStep(locals: seq<Cid>, missing: seq<Cid>, c: Cid, local: bool, rest: Split)
    ensures local ==> Joined(locals, missing, rest.(locals := [c] + rest.locals))
                      == Joined(locals + [c], missing, rest)
    ensures !local ==> Joined(locals, missing, rest.(missing := [c] + rest.missing))
                       == Joined(locals, missing + [c], rest)
  {
    assert locals + ([c] + rest.locals) == (locals + [c]) + rest.locals;
    assert missing + ([c] + rest.missing) == (missing + [c]) + rest.missing;
  }

  class Bitswap {
    var store: map<Cid, Block>
    var blocksRecvd: nat
    var dupBlocksRecvd: nat
    var dupDataRecvd: nat
    var listeners: seq<Listener>
    var fetches: seq<Fetch>
    var log: seq<Event>
    /** `CONSTANTS.maxProvidersPerRequest`. */
    const maxProvidersPerRequest: nat

    function Model(): State
      reads this
    {
      State(store, blocksRecvd, dupBlocksRecvd, dupDataRecvd, listeners, fetches, log)
    }

    ghost predicate Valid()
      reads this
    {
      ExchangeState.Valid(Model())
    }

    constructor (blockstore: map<Cid, Block>, maxProviders: nat)
      requires Keyed(blockstore)
      ensures Valid() && Model() == Initial(blockstore)
      ensures blocksRecvd == 0 && dupBlocksRecvd == 0 && dupDataRecvd == 0
      ensures maxProvidersPerRequest == maxProviders
    {
      store := blockstore;
      blocksRecvd, dupBlocksRecvd, dupDataRecvd := 0, 0, 0;
      listeners, fetches, log := [], [], [];
      maxProvidersPerRequest := maxProviders;
    }

    method UpdateReceiveCounters(b: Block, existed: bool)
      modifies this
      ensures blocksRecvd == old(blocksRecvd) + 1
      ensures dupBlocksRecvd == old(dupBlocksRecvd) + (if existed then 1 else 0)
      ensures dupDataRecvd == old(dupDataRecvd) + (if existed then |b.data| else 0)
      ensures Model() == Count(old(Model()), b, existed)
    {
      blocksRecvd := blocksRecvd + 1;
      if existed {
        dupBlocksRecvd := dupBlocksRecvd + 1;
        dupDataRecvd := dupDataRecvd + |b.data|;
      }
    }

    /** Invoke the callback of getMany call `f` (through get's wrapper when get made it). */
    method Deliver(f: nat, r: Reply)
      requires f < |fetches|
      modifies this
      ensures Model() == ExchangeState.Deliver(old(Model()), f, r)
    {
      log := log + [Delivered(f, if fetches[f].single then ForGet(r) else r)];
    }

    /** getMany's `finish`. */
    method Finish(f: nat, faults: StoreFaults)
      requires Valid() && f < |fetches|
      modifies this
      ensures Model() == ExchangeState.Finish(old(Model()), f, faults)
    {
      var read := ReadAll(fetches[f].locals, faults.get);
      match read
      case Success(bs) => Deliver(f, Blocks(bs + fetches[f].retrieved));
      case Failure(e) => Deliver(f, Failed(e));
    }

    /** `map(locals, blockstore.get)`: read the blocks in order, stopping at the first
        read error. */
    method ReadAll(cids: seq<Cid>, get: map<Cid, Error>) returns (r: Result<seq<Block>>)
      requires forall c :: c in cids ==> c in store
      ensures r == ReadLocals(store, cids, get)
    {
      var got: seq<Block> := [];
      var i := 0;
      assert cids[0..] == cids;
      assert ReadLocals(store, cids, get) == Prefixed([], ReadLocals(store, cids, get)) by {
        var all := ReadLocals(store, cids, get);
        if all.Success? {
          assert [] + all.value == all.value;
        }
      }
      while i < |cids|
        invariant 0 <= i <= |cids|
        invariant ReadLocals(store, cids, get) == Prefixed(got, ReadLocals(store, cids[i..], get))
      {
        ReadLocalsStep(store, cids, i, get);
        ghost var rest := ReadLocals(store, cids[i + 1..], get);
        assert Prefixed(got, Prefixed([store[cids[i]]], rest)) == Prefixed(got + [store[cids[i]]], rest) by {
          if rest.Success? {
            assert got + ([store[cids[i]]] + rest.value) == (got + [store[cids[i]]]) + rest.value;
          }
        }
        if cids[i] in get {
          return Failure(get[cids[i]]);
        }
        got := got + [store[cids[i]]];
        i := i + 1;
      }
      assert got + [] == got;
      r := Success(got);
    }

    /** The `block:<cid>` listener of getMany. Its `cleanupListener(cid)` looks the
        listeners up under the CID object rather than its string key and removes nothing. */
    method OnBlockListener(l: Listener, b: Block, faults: StoreFaults)
      requires Valid() && l.fetch < |fetches|
      modifies this
      ensures Model() == OnBlockFired(old(Model()), l, b, faults)
    {
      log := log + [Event.CancelWants([l.cid])];
      var f := fetches[l.fetch];
      fetches := fetches[l.fetch := f.(retrieved := f.retrieved + [b])];
      if |f.retrieved| + 1 == |f.missing| {
        Finish(l.fetch, faults);
      }
    }

    /** The `unwant:<cid>` listener of getMany: its `cleanupListener()` has no argument
        and removes nothing, and it calls back directly, not through `finish`. */
    method OnUnwantListener(l: Listener)
      requires Valid() && l.fetch < |fetches|
      modifies this
      ensures Model() == OnUnwantFired(old(Model()), l)
    {
      log := log + [Event.CancelWants([l.cid])];
      Deliver(l.fetch, NoBlock);
    }

    /** `notifications.emit('block:<cid>', b)`. */
    method EmitBlock(b: Block, faults: StoreFaults)
      requires Valid()
      modifies this
      ensures Model() == ExchangeState.EmitBlock(old(Model()), b, faults)
    {
      FiredMembers(listeners, OnBlock, b.cid);
      KeptMembers(listeners, OnBlock, b.cid);
      var fired := Fired(listeners, OnBlock, b.cid);
      listeners := Kept(listeners, OnBlock, b.cid);
      log := log + [BlockEmitted(b)];
      var i := 0;
      while i < |fired|
        invariant 0 <= i <= |fired|
        invariant Valid() && Fits(fired[i..], Model())
        invariant FireBlocks(Model(), fired[i..], b, faults) == ExchangeState.EmitBlock(old(Model()), b, faults)
      {
        assert fired[i..][0] == fired[i] && fired[i..][1..] == fired[i + 1..];
        FireBlocksStep(Model(), fired[i..], b, faults);
        OnBlockListener(fired[i], b, faults);
        i := i + 1;
      }
    }

    /** `notifications.emit('unwant:<cid>')`. */
    method EmitUnwant(c: Cid)
      requires Valid()
      modifies this
      ensures Model() == ExchangeState.EmitUnwant(old(Model()), c)
    {
      FiredMembers(listeners, OnUnwant, c);
      KeptMembers(listeners, OnUnwant, c);
      var fired := Fired(listeners, OnUnwant, c);
      listeners := Kept(listeners, OnUnwant, c);
      log := log + [UnwantEmitted(c)];
      var i := 0;
      while i < |fired|
        invariant 0 <= i <= |fired|
        invariant Valid() && Fits(fired[i..], Model())
        invariant FireUnwants(Model(), fired[i..]) == ExchangeState.EmitUnwant(old(Model()), c)
      {
        assert fired[i..][0] == fired[i] && fired[i..][1..] == fired[i + 1..];
        FireUnwantsStep(Model(), fired[i..]);
        OnUnwantListener(fired[i]);
        i := i + 1;
      }
    }

    /** `_putBlock`. The outcome of `network.provide` is only logged, so it is not an input. */
    method PutBlock(b: Block, faults: StoreFaults) returns (err: Option<Error>)
      requires Valid()
      modifies this
      ensures After(Model(), err) == ExchangeState.PutBlock(old(Model()), b, faults)
    {
      if b.cid in faults.put {
        return Some(faults.put[b.cid]);
      }
      store := store[b.cid := b];
      EmitBlock(b, faults);
      log := log + [Provide(b.cid)];
      log := log + [EngineReceivedBlocks([b.cid])];
      assert log == ExchangeState.PutBlock(old(Model()), b, faults).state.log;
      err := None;
    }

    method Put(b: Block, faults: StoreFaults) returns (err: Option<Error>)
      requires Valid()
      modifies this
      ensures After(Model(), err) == ExchangeState.Put(old(Model()), b, faults)
    {
      if b.cid in faults.has {
        return Some(faults.has[b.cid]);
      }
      if b.cid in store {
        return None;
      }
      err := PutBlock(b, faults);
    }

    /** `reject(blocks, has)`: the blocks the store does not hold, or the first error of
        a `has` check; the checks stop at the first error. */
    method Reject(bs: seq<Block>, has: map<Cid, Error>) returns (err: Option<Error>, newBlocks: seq<Block>)
      ensures err == FirstFault(CidsOf(bs), has)
      ensures err.None? ==> newBlocks == Absent(store, bs)
    {
      newBlocks := [];
      ghost var cids := CidsOf(bs);
      var i := 0;
      while i < |bs|
        invariant 0 <= i <= |bs|
        invariant FirstFault(cids, has) == FirstFault(cids[i..], has)
        invariant newBlocks == Absent(store, bs[..i])
      {
        assert cids[i..][0] == bs[i].cid && cids[i..][1..] == cids[i + 1..];
        assert bs[..i + 1] == bs[..i] + [bs[i]];
        AbsentSnoc(store, bs[..i], bs[i]);
        if bs[i].cid in has {
          return Some(has[bs[i].cid]), [];
        }
        if bs[i].cid !in store {
          newBlocks := newBlocks + [bs[i]];
        }
        i := i + 1;
      }
      assert bs[..i] == bs && cids[i..] == [];
      err := None;
    }

    /** One step of putMany's `forEach`. */
    method Announce(b: Block, faults: StoreFaults)
      requires Valid()
      modifies this
      ensures Model() == ExchangeState.Announce(old(Model()), b, faults)
    {
      EmitBlock(b, faults);
      log := log + [EngineReceivedBlocks([b.cid]), Provide(b.cid)];
    }

    method PutMany(bs: seq<Block>, faults: StoreFaults) returns (err: Option<Error>)
      requires Valid()
      modifies this
      ensures After(Model(), err) == ExchangeState.PutMany(old(Model()), bs, faults)
    {
      var newBlocks;
      err, newBlocks := Reject(bs, faults.has);
      if err.Some? {
        return;
      }
      if faults.putMany.Some? {
        return faults.putMany;
      }
      store := StoreAll(store, newBlocks);
      AnnounceEach(newBlocks, faults);
    }

    /** The `forEach` of `putMany` over the newly stored blocks. */
    method AnnounceEach(bs: seq<Block>, faults: StoreFaults)
      requires Valid()
      modifies this
      ensures Valid() && Model() == AnnounceAll(old(Model()), bs, faults)
    {
      ghost var target := AnnounceAll(Model(), bs, faults);
      var j := 0;
      assert bs[0..] == bs;
      while j < |bs|
        invariant 0 <= j <= |bs|
        invariant Valid()
        invariant AnnounceAll(Model(), bs[j..], faults) == target
      {
        AnnounceAllStep(Model(), bs, j, faults);
        Announce(bs[j], faults);
        j := j + 1;
      }
    }

    method HandleReceivedBlock(b: Block, faults: StoreFaults) returns (err: Option<Error>)
      requires Valid()
      modifies this
      ensures After(Model(), err) == ExchangeState.HandleReceivedBlock(old(Model()), b, faults)
    {
      if b.cid in faults.has {
        return Some(faults.has[b.cid]);
      }
      var existed := b.cid in store;
      UpdateReceiveCounters(b, existed);
      if existed {
        return None;
      }
      err := PutBlock(b, faults);
    }

    /** `_receiveMessage`. `engineError` is what `engine.messageReceived` calls back with;
        it is only logged. `wanted` is the set of CIDs `wm.wantlist.contains` accepts. */
    method ReceiveMessage(peer: PeerId, msg: Message, engineError: Option<Error>,
                          wanted: set<Cid>, faults: StoreFaults) returns (err: Option<Error>)
      requires Valid()
      modifies this
      ensures After(Model(), err) == ExchangeState.ReceiveMessage(old(Model()), peer, msg, wanted, faults)
    {
      log := log + [EngineMessageReceived(peer, msg)];
      if |msg.blocks| == 0 {
        return None;
      }
      var blocks := msg.blocks;
      log := log + [Event.CancelWants(ToCancel(blocks, wanted))];
      err := HandleBlocks(blocks, faults);
    }

    /** The `each` of `_receiveMessage`: every block is handled, and the callback gets
        the first error. */
    method HandleBlocks(blocks: seq<Block>, faults: StoreFaults) returns (err: Option<Error>)
      requires Valid()
      modifies this
      ensures After(Model(), err) == HandleAll(old(Model()), blocks, faults)
    {
      err := None;
      var i := 0;
      assert blocks[0..] == blocks;
      while i < |blocks|
        invariant 0 <= i <= |blocks|
        invariant Valid()
        invariant HandleAll(Model(), blocks[i..], faults).state == HandleAll(old(Model()), blocks, faults).state
        invariant (if err.Some? then err else HandleAll(Model(), blocks[i..], faults).error) == HandleAll(old(Model()), blocks, faults).error
      {
        HandleAllStep(Model(), blocks, i, faults);
        var e := HandleReceivedBlock(blocks[i], faults);
        if err.None? {
          err := e;
        }
        i := i + 1;
      }
    }

    /** `getMany`, or `get` when `single`; returns the number of the fetch it starts.
        `findError` is what `network.findAndConnect` calls back with, if it calls back. */
    method GetMany(cids: seq<Cid>, single: bool, faults: StoreFaults, findError: Option<Error>)
      returns (f: nat)
      requires Valid()
      modifies this
      ensures f == |old(fetches)|
      ensures Model() == ExchangeState.GetMany(old(Model()), cids, single, faults, findError, maxProvidersPerRequest)
    {
      var p := Classify(cids, faults.has);
      f := |fetches|;
      fetches := fetches + [Fetch(single, p.locals, p.missing, [])];
      assert Model() == Begin(old(Model()), single, p);
      if p.failed {
        // the error ends the series, and `finish` ignores it
        Finish(f, faults);
      } else if |p.missing| > 0 {
        AddListeners(f, p.missing);
        log := log + [WantBlocks(p.missing), FindAndConnect(cids[0], maxProvidersPerRequest)];
        assert Model() == Await(Begin(old(Model()), single, p), f, p.missing, cids[0], maxProvidersPerRequest);
        if findError.Some? {
          Finish(f, faults);
        }
      } else {
        Finish(f, faults);
      }
    }

    /** The first task of getMany's series: `each(cids, has)`, pushing every CID onto
        `locals` or `missing`; a failing check ends the series. */
    method Classify(cids: seq<Cid>, has: map<Cid, Error>) returns (p: Split)
      ensures p == Partition(store, cids, has)
    {
      var locals: seq<Cid> := [];
      var missing: seq<Cid> := [];
      var i := 0;
      assert cids[0..] == cids;
      while i < |cids|
        invariant 0 <= i <= |cids|
        invariant Partition(store, cids, has) == Joined(locals, missing, Partition(store, cids[i..], has))
      {
        assert cids[i..][0] == cids[i] && cids[i..][1..] == cids[i + 1..];
        if cids[i] in has {
          return Split(locals, missing, true);
        }
        JoinedStep(locals, missing, cids[i], cids[i] in store, Partition(store, cids[i + 1..], has));
        if cids[i] in store {
          locals := locals + [cids[i]];
        } else {
          missing := missing + [cids[i]];
        }
        i := i + 1;
      }
      assert locals + [] == locals && missing + [] == missing;
      p := Split(locals, missing, false);
    }

    /** getMany's `addListeners`: a `once` listener on `unwant:<cid>` and one on
        `block:<cid>` per CID. */
    method AddListeners(f: nat, cids: seq<Cid>)
      modifies this
      ensures Model() == old(Model()).(listeners := old(listeners) + ListenersFor(f, cids))
    {
      var registered := listeners;
      var j := 0;
      assert cids[0..] == cids;
      while j < |cids|
        invariant 0 <= j <= |cids|
        invariant old(listeners) + ListenersFor(f, cids) == registered + ListenersFor(f, cids[j..])
      {
        assert cids[j..][0] == cids[j] && cids[j..][1..] == cids[j + 1..];
        registered := registered + [Listener(f, OnUnwant, cids[j]), Listener(f, OnBlock, cids[j])];
        j := j + 1;
      }
      assert registered + [] == registered;
      listeners := registered;
    }

    method Get(c: Cid, faults: StoreFaults, findError: Option<Error>) returns (f: nat)
      requires Valid()
      modifies this
      ensures f == |old(fetches)|
      ensures Model() == ExchangeState.GetMany(old(Model()), [c], true, faults, findError, maxProvidersPerRequest)
    {
      f := GetMany([c], true, faults, findError);
    }

    method Unwant(a: CidArg)
      requires Valid()
      modifies this
      ensures Model() == ExchangeState.Unwant(old(Model()), AsArray(a))
    {
      var cids := AsArray(a);
      log := log + [UnwantBlocks(cids)];
      EmitUnwantEach(cids);
    }

    /** One unwant notification per CID, in order. */
    method EmitUnwantEach(cids: seq<Cid>)
      requires Valid()
      modifies this
      ensures Valid() && Model() == EmitUnwants(old(Model()), cids)
    {
      ghost var target := EmitUnwants(Model(), cids);
      var i := 0;
      assert cids[0..] == cids;
      while i < |cids|
        invariant 0 <= i <= |cids|
        invariant Valid()
        invariant EmitUnwants(Model(), cids[i..]) == target
      {
        EmitUnwantsStep(Model(), cids, i);
        EmitUnwant(cids[i]);
        i := i + 1;
      }
    }

    method CancelWants(a: CidArg)
      modifies this
      ensures Model() == old(Model()).(log := old(log) + [Event.CancelWants(AsArray(a))])
    {
      log := log + [Event.CancelWants(AsArray(a))];
    }

    /** `_onPeerConnected`. */
    method OnPeerConnected(peer: PeerId)
      modifies this
      ensures Model() == old(Model()).(log := old(log) + [WantConnected(peer)])
    {
      log := log + [WantConnected(peer)];
    }

    /** `_onPeerDisconnected`. */
    method OnPeerDisconnected(peer: PeerId)
      modifies this
      ensures Model() == old(Model()).(log := old(log) + [WantDisconnected(peer), EnginePeerDisconnected(peer)])
    {
      log := log + [WantDisconnected(peer), EnginePeerDisconnected(peer)];
    }

    /** `stat`: `wantlist` and `peers` are what the want manager and the decision engine
        report. */
    method Stat(wantlist: seq<WantlistEntry>, peers: seq<PeerId>) returns (st: Stats)
      ensures st.blocksReceived == blocksRecvd && st.dupBlksReceived == dupBlocksRecvd
      ensures st.dupDataReceived == dupDataRecvd
      ensures st.wantlist == wantlist && st.peers == peers
    {
      st := Stats(wantlist, blocksRecvd, dupBlocksRecvd, dupDataRecvd, peers);
    }
  }
}
