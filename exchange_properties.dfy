/** What the operations of ExchangeState promise beyond their own contracts: which
    blocks the filters keep, that stored blocks are announced exactly once and existing
    ones never, the receive counters over a whole message, and how a pending get ends
    when its block is put or unwanted. */
module ExchangeProperties {
  import opened Types
  import opened ExchangeState

  // ---------------------------------------------------------------------------
  // The filters

  lemma {:induction false} AbsentMembers(store: map<Cid, Block>, bs: seq<Block>)
    ensures forall b :: b in Absent(store, bs) <==> b in bs && b.cid !in store
  {
    if bs != [] {
      AbsentMembers(store, bs[1..]);
      assert bs == [bs[0]] + bs[1..];
    }
  }

  lemma {:induction false} PresentMembers(store: map<Cid, Block>, bs: seq<Block>)
    ensures forall b :: b in Present(store, bs) <==> b in bs && b.cid in store
  {
    if bs != [] {
      PresentMembers(store, bs[1..]);
      assert bs == [bs[0]] + bs[1..];
    }
  }

  lemma {:induction false} CheckedMembers(bs: seq<Block>, has: map<Cid, Error>)
    ensures forall b :: b in Checked(bs, has) <==> b in bs && b.cid !in has
  {
    if bs != [] {
      CheckedMembers(bs[1..], has);
      assert bs == [bs[0]] + bs[1..];
    }
  }

  /** The CIDs cancelled on receipt are exactly the message's CIDs the want list holds. */
  lemma {:induction false} ToCancelMembers(bs: seq<Block>, wanted: set<Cid>)
    ensures forall c :: c in ToCancel(bs, wanted) <==> c in wanted && c in CidsOf(bs)
  {
    if bs != [] {
      ToCancelMembers(bs[1..], wanted);
      assert CidsOf(bs) == [bs[0].cid] + CidsOf(bs[1..]);
    }
  }

  /** ... and they come in message order. */
  lemma {:induction false} ToCancelSnoc(bs: seq<Block>, b: Block, wanted: set<Cid>)
    ensures ToCancel(bs + [b], wanted) == ToCancel(bs, wanted) + (if b.cid in wanted then [b.cid] else [])
  {
    if bs == [] {
      assert [] + [b] == [b];
    } else {
      assert (bs + [b])[0] == bs[0] && (bs + [b])[1..] == bs[1..] + [b];
      ToCancelSnoc(bs[1..], b, wanted);
    }
  }

  /** An emit removes each registration it invokes exactly once. */
  lemma {:induction false} FiredKept(ls: seq<Listener>, kind: Kind, cid: Cid)
    ensures multiset(Fired(ls, kind, cid)) + multiset(Kept(ls, kind, cid)) == multiset(ls)
  {
    if ls != [] {
      FiredKept(ls[1..], kind, cid);
      assert ls == [ls[0]] + ls[1..];
    }
  }

  lemma {:induction false} FiredAppend(a: seq<Listener>, b: seq<Listener>, kind: Kind, cid: Cid)
    ensures Fired(a + b, kind, cid) == Fired(a, kind, cid) + Fired(b, kind, cid)
  {
    if a == [] {
      assert [] + b == b;
    } else {
      assert (a + b)[0] == a[0] && (a + b)[1..] == a[1..] + b;
      FiredAppend(a[1..], b, kind, cid);
    }
  }

  /** getMany registers a block and an unwant listener for every missing CID. */
  lemma {:induction false} ListenersForMembers(f: nat, cids: seq<Cid>)
    ensures forall c :: c in cids ==>
      Listener(f, OnBlock, c) in ListenersFor(f, cids) && Listener(f, OnUnwant, c) in ListenersFor(f, cids)
  {
    if cids != [] {
      ListenersForMembers(f, cids[1..]);
      assert cids == [cids[0]] + cids[1..];
    }
  }

  /** Without a failing check, every requested CID lands in exactly one of `locals` and
      `missing`, as often as it was requested. */
  lemma {:induction false} PartitionPermutation(store: map<Cid, Block>, cids: seq<Cid>, has: map<Cid, Error>)
    ensures var p := Partition(store, cids, has);
      !p.failed ==> multiset(p.locals) + multiset(p.missing) == multiset(cids)
  {
    if cids != [] && cids[0] !in has {
      PartitionPermutation(store, cids[1..], has);
      assert cids == [cids[0]] + cids[1..];
    }
  }

  lemma {:induction false} PartitionAllLocal(store: map<Cid, Block>, cids: seq<Cid>, has: map<Cid, Error>)
    requires forall c :: c in cids ==> c in store && c !in has
    ensures Partition(store, cids, has) == Split(cids, [], false)
  {
    if cids != [] {
      assert forall c :: c in cids[1..] ==> c in cids;
      PartitionAllLocal(store, cids[1..], has);
      assert cids == [cids[0]] + cids[1..];
    }
  }

  /** `map(locals, get)` yields the stored blocks in request order. */
  lemma {:induction false} ReadLocalsValues(store: map<Cid, Block>, cids: seq<Cid>, faults: map<Cid, Error>)
    requires forall c :: c in cids ==> c in store
    ensures var r := ReadLocals(store, cids, faults);
      r.Success? ==> |r.value| == |cids| && forall i :: 0 <= i < |cids| ==> r.value[i] == store[cids[i]]
  {
    if cids != [] && cids[0] !in faults {
      assert forall c :: c in cids[1..] ==> c in cids;
      ReadLocalsValues(store, cids[1..], faults);
    }
  }

  // ---------------------------------------------------------------------------
  // What the operations announce

  /** The events of a log that are not reactions of getMany listeners: calls into the
      collaborators and notification emits. */
  function Actions(log: seq<Event>): seq<Event> {
    if log == [] then [] else (if Reaction(log[0]) then [] else [log[0]]) + Actions(log[1..])
  }

  lemma {:induction false} ActionsAppend(a: seq<Event>, b: seq<Event>)
    ensures Actions(a + b) == Actions(a) + Actions(b)
  {
    if a == [] {
      assert [] + b == b;
    } else {
      assert (a + b)[0] == a[0] && (a + b)[1..] == a[1..] + b;
      ActionsAppend(a[1..], b);
    }
  }

  lemma {:induction false} ActionsOfReactions(a: seq<Event>)
    requires forall i :: 0 <= i < |a| ==> Reaction(a[i])
    ensures Actions(a) == []
  {
    if a != [] {
      assert forall i :: 0 <= i < |a[1..]| ==> a[1..][i] == a[i + 1];
      ActionsOfReactions(a[1..]);
    }
  }

  /** Running listeners adds no action. */
  lemma HandlerStepActions(s: State, r: State)
    requires HandlerStep(s, r)
    ensures Actions(r.log) == Actions(s.log)
  {
    var tail := r.log[|s.log|..];
    assert r.log == s.log + tail;
    assert forall i :: 0 <= i < |tail| ==> tail[i] == r.log[|s.log| + i];
    ActionsOfReactions(tail);
    ActionsAppend(s.log, tail);
  }

  lemma ActionsOne(e: Event)
    requires !Reaction(e)
    ensures Actions([e]) == [e]
  {
    assert [e][1..] == [];
  }

  lemma ActionsTwo(e: Event, e': Event)
    requires !Reaction(e) && !Reaction(e')
    ensures Actions([e, e']) == [e, e']
  {
    assert [e, e'][1..] == [e'];
    ActionsOne(e');
  }

  /** Appending actions to a log appends them to its actions. */
  lemma ActionsSnoc(log: seq<Event>, es: seq<Event>)
    requires |es| <= 2 && forall i :: 0 <= i < |es| ==> !Reaction(es[i])
    ensures Actions(log + es) == Actions(log) + es
  {
    ActionsAppend(log, es);
    if |es| == 1 {
      assert es == [es[0]];
      ActionsOne(es[0]);
    } else if |es| == 2 {
      assert es == [es[0], es[1]];
      ActionsTwo(es[0], es[1]);
    }
  }

  /** An emit of a block adds nothing but the emit itself. */
  lemma EmitBlockActions(s: State, b: Block, faults: StoreFaults)
    requires Valid(s)
    ensures Actions(EmitBlock(s, b, faults).log) == Actions(s.log) + [BlockEmitted(b)]
  {
    var t := s.(listeners := Kept(s.listeners, OnBlock, b.cid), log := s.log + [BlockEmitted(b)]);
    assert Actions(EmitBlock(s, b, faults).log) == Actions(t.log) by {
      HandlerStepActions(t, EmitBlock(s, b, faults));
    }
    ActionsSnoc(s.log, [BlockEmitted(b)]);
  }

  /** `_putBlock` that succeeds emits, provides and reports the block, once each, in that
      order; one that fails changes nothing. */
  lemma PutBlockActions(s: State, b: Block, faults: StoreFaults)
    requires Valid(s)
    ensures var r := PutBlock(s, b, faults);
      b.cid !in faults.put ==>
        Actions(r.state.log) == Actions(s.log) + [BlockEmitted(b), Provide(b.cid), EngineReceivedBlocks([b.cid])]
  {
    if b.cid !in faults.put {
      var s1 := s.(store := s.store[b.cid := b]);
      var e := EmitBlock(s1, b, faults);
      var r := PutBlock(s, b, faults).state;
      assert r.log == e.log + [Provide(b.cid), EngineReceivedBlocks([b.cid])];
      assert Actions(e.log) == Actions(s.log) + [BlockEmitted(b)] by {
        EmitBlockActions(s1, b, faults);
      }
      assert Actions(r.log) == Actions(e.log) + [Provide(b.cid), EngineReceivedBlocks([b.cid])] by {
        ActionsSnoc(e.log, [Provide(b.cid), EngineReceivedBlocks([b.cid])]);
      }
    }
  }

  /** The actions of putting `b`: none when the block exists or its check fails, the
      three announcements when it is new and written. */
  lemma PutActions(s: State, b: Block, faults: StoreFaults)
    requires Valid(s)
    ensures var r := Put(s, b, faults);
      && (b.cid in faults.has || b.cid in s.store ==> r.state == s)
      && (b.cid !in faults.has && b.cid !in s.store && b.cid !in faults.put ==>
            r.error == None
            && Actions(r.state.log) == Actions(s.log) + [BlockEmitted(b), Provide(b.cid), EngineReceivedBlocks([b.cid])])
  {
    PutBlockActions(s, b, faults);
  }

  /** A second put of a block that the first put stored adds no event at all. */
  lemma PutTwice(s: State, b: Block, faults: StoreFaults)
    requires Valid(s) && b.cid !in faults.has
    ensures var r := Put(s, b, faults);
      r.error == None ==> Put(r.state, b, faults) == After(r.state, None)
  {
  }

  /** The announcements of putMany's `forEach`: per block, the emit, the report to the
      decision engine and the provide. */
  function AnnounceEvents(bs: seq<Block>): seq<Event> {
    if bs == [] then []
    else [BlockEmitted(bs[0]), EngineReceivedBlocks([bs[0].cid]), Provide(bs[0].cid)] + AnnounceEvents(bs[1..])
  }

  /** One step of putMany's `forEach` adds its three announcements. */
  lemma AnnounceActions(s: State, b: Block, faults: StoreFaults)
    requires Valid(s)
    ensures Actions(Announce(s, b, faults).log)
         == Actions(s.log) + [BlockEmitted(b), EngineReceivedBlocks([b.cid]), Provide(b.cid)]
  {
    var e := EmitBlock(s, b, faults);
    assert Announce(s, b, faults).log == e.log + [EngineReceivedBlocks([b.cid]), Provide(b.cid)];
    assert Actions(e.log) == Actions(s.log) + [BlockEmitted(b)] by {
      EmitBlockActions(s, b, faults);
    }
    assert Actions(Announce(s, b, faults).log) == Actions(e.log) + [EngineReceivedBlocks([b.cid]), Provide(b.cid)] by {
      ActionsSnoc(e.log, [EngineReceivedBlocks([b.cid]), Provide(b.cid)]);
    }
  }

  lemma {:induction false} AnnounceAllActions(s: State, bs: seq<Block>, faults: StoreFaults)
    requires Valid(s)
    ensures Actions(AnnounceAll(s, bs, faults).log) == Actions(s.log) + AnnounceEvents(bs)
    decreases |bs|
  {
    if bs != [] {
      var m := Announce(s, bs[0], faults);
      assert AnnounceAll(s, bs, faults) == AnnounceAll(m, bs[1..], faults);
      assert Actions(m.log) == Actions(s.log) + AnnounceEvents([bs[0]]) by {
        AnnounceActions(s, bs[0], faults);
      }
      assert Actions(AnnounceAll(m, bs[1..], faults).log) == Actions(m.log) + AnnounceEvents(bs[1..]) by {
        AnnounceAllActions(m, bs[1..], faults);
      }
      AnnounceEventsCons(bs);
    }
  }

  lemma AnnounceEventsCons(bs: seq<Block>)
    requires bs != []
    ensures AnnounceEvents(bs) == AnnounceEvents([bs[0]]) + AnnounceEvents(bs[1..])
  {
    assert [bs[0]][1..] == [];
  }

  /** putMany announces exactly the blocks the store did not hold, in input order, and
      nothing when a check or the batched write fails. */
  lemma PutManyActions(s: State, bs: seq<Block>, faults: StoreFaults)
    requires Valid(s)
    ensures var r := PutMany(s, bs, faults);
      && (r.error.Some? ==> r.state == s)
      && (r.error.None? ==> Actions(r.state.log) == Actions(s.log) + AnnounceEvents(Absent(s.store, bs)))
  {
    var r := PutMany(s, bs, faults);
    if r.error.None? {
      var nb := Absent(s.store, bs);
      AnnounceAllActions(s.(store := StoreAll(s.store, nb)), nb, faults);
    }
  }

  /** An emit of an unwant adds nothing but the emit itself. */
  lemma EmitUnwantActions(s: State, c: Cid)
    requires Valid(s)
    ensures Actions(EmitUnwant(s, c).log) == Actions(s.log) + [UnwantEmitted(c)]
  {
    var t := s.(listeners := Kept(s.listeners, OnUnwant, c), log := s.log + [UnwantEmitted(c)]);
    assert Actions(EmitUnwant(s, c).log) == Actions(t.log) by {
      HandlerStepActions(t, EmitUnwant(s, c));
    }
    ActionsSnoc(s.log, [UnwantEmitted(c)]);
  }

  function UnwantEvents(cids: seq<Cid>): seq<Event> {
    if cids == [] then [] else [UnwantEmitted(cids[0])] + UnwantEvents(cids[1..])
  }

  lemma {:induction false} EmitUnwantsActions(s: State, cids: seq<Cid>)
    requires Valid(s)
    ensures Actions(EmitUnwants(s, cids).log) == Actions(s.log) + UnwantEvents(cids)
    decreases |cids|
  {
    if cids != [] {
      var m := EmitUnwant(s, cids[0]);
      var rest := UnwantEvents(cids[1..]);
      EmitUnwantActions(s, cids[0]);
      EmitUnwantsActions(m, cids[1..]);
      assert (Actions(s.log) + [UnwantEmitted(cids[0])]) + rest == Actions(s.log) + ([UnwantEmitted(cids[0])] + rest);
    }
  }

  /** `unwant` drops all the wants in one call and then emits one unwant per CID. */
  lemma UnwantActions(s: State, cids: seq<Cid>)
    requires Valid(s)
    ensures Actions(Unwant(s, cids).log) == Actions(s.log) + [UnwantBlocks(cids)] + UnwantEvents(cids)
  {
    var t := s.(log := s.log + [UnwantBlocks(cids)]);
    assert Actions(Unwant(s, cids).log) == Actions(t.log) + UnwantEvents(cids) by {
      EmitUnwantsActions(t, cids);
    }
    ActionsSnoc(s.log, [UnwantBlocks(cids)]);
  }

  // ---------------------------------------------------------------------------
  // Receiving a message

  /** No two blocks of the sequence share a CID, as in a message's block map. */
  ghost predicate UniqueCids(bs: seq<Block>) {
    forall i, j :: 0 <= i < j < |bs| ==> bs[i].cid != bs[j].cid
  }

  /** Storing a block under a CID the sequence does not use changes neither filter. */
  lemma {:induction false} FiltersUnaffected(store: map<Cid, Block>, c: Cid, b: Block, bs: seq<Block>)
    requires forall i :: 0 <= i < |bs| ==> bs[i].cid != c
    ensures Present(store[c := b], bs) == Present(store, bs)
    ensures Absent(store[c := b], bs) == Absent(store, bs)
  {
    if bs != [] {
      FiltersUnaffected(store, c, b, bs[1..]);
    }
  }

  lemma SizeCons(b: Block, bs: seq<Block>)
    ensures Size([b] + bs) == |b.data| + Size(bs)
  {
    assert ([b] + bs)[0] == b && ([b] + bs)[1..] == bs;
  }

  /** Handling the blocks of a message whose checks and writes succeed counts every
      block, counts as duplicates exactly the blocks the store already held (and their
      bytes), and stores exactly the others. */
  lemma {:induction false} ReceiveCounts(s: State, bs: seq<Block>, faults: StoreFaults)
    requires Valid(s) && UniqueCids(bs)
    requires forall i :: 0 <= i < |bs| ==> bs[i].cid !in faults.has && bs[i].cid !in faults.put
    ensures var r := HandleAll(s, bs, faults);
      && r.error == None
      && r.state.blocksRecvd == s.blocksRecvd + |bs|
      && r.state.dupBlocksRecvd == s.dupBlocksRecvd + |Present(s.store, bs)|
      && r.state.dupDataRecvd == s.dupDataRecvd + Size(Present(s.store, bs))
      && r.state.store == StoreAll(s.store, Absent(s.store, bs))
    decreases |bs|
  {
    if bs != [] {
      var b := bs[0];
      var rest := bs[1..];
      var h := HandleReceivedBlock(s, b, faults);
      assert forall i :: 0 <= i < |rest| ==> rest[i] == bs[i + 1];
      assert UniqueCids(rest);
      assert forall i :: 0 <= i < |rest| ==> rest[i].cid != b.cid;
      assert HandleAll(s, bs, faults) == After(HandleAll(h.state, rest, faults).state,
                                               if h.error.Some? then h.error else HandleAll(h.state, rest, faults).error);
      ReceiveCounts(h.state, rest, faults);
      if b.cid in s.store {
        assert Present(s.store, bs) == [b] + Present(s.store, rest);
        SizeCons(b, Present(s.store, rest));
        assert Absent(s.store, bs) == Absent(s.store, rest);
      } else {
        FiltersUnaffected(s.store, b.cid, b, rest);
        assert Present(s.store, bs) == Present(s.store, rest);
        assert Absent(s.store, bs) == [b] + Absent(s.store, rest);
        assert ([b] + Absent(s.store, rest))[0] == b && ([b] + Absent(s.store, rest))[1..] == Absent(s.store, rest);
      }
    }
  }

  /** `_receiveMessage` on a message with blocks, when every check and write succeeds:
      the counters and the store as ReceiveCounts says, after the engine call and the
      cancel. */
  lemma ReceiveMessageCounts(s: State, peer: PeerId, msg: Message, wanted: set<Cid>, faults: StoreFaults)
    requires Valid(s) && UniqueCids(msg.blocks)
    requires forall i :: 0 <= i < |msg.blocks| ==> msg.blocks[i].cid !in faults.has && msg.blocks[i].cid !in faults.put
    ensures var r := ReceiveMessage(s, peer, msg, wanted, faults);
      && r.error == None
      && r.state.blocksRecvd == s.blocksRecvd + |msg.blocks|
      && r.state.dupBlocksRecvd == s.dupBlocksRecvd + |Present(s.store, msg.blocks)|
      && r.state.dupDataRecvd == s.dupDataRecvd + Size(Present(s.store, msg.blocks))
      && r.state.store == StoreAll(s.store, Absent(s.store, msg.blocks))
  {
    if |msg.blocks| > 0 {
      var s1 := s.(log := s.log + [EngineMessageReceived(peer, msg)]);
      var s2 := s1.(log := s1.log + [CancelWants(ToCancel(msg.blocks, wanted))]);
      assert ReceiveMessage(s, peer, msg, wanted, faults) == HandleAll(s2, msg.blocks, faults);
      ReceiveCounts(s2, msg.blocks, faults);
    }
  }

  // ---------------------------------------------------------------------------
  // Fetching

  /** The blocks stored under `cs`, in the order of `cs`. */
  ghost function Stored(store: map<Cid, Block>, cs: seq<Cid>): seq<Block>
    requires forall c :: c in cs ==> c in store
  {
    seq(|cs|, i requires 0 <= i < |cs| => store[cs[i]])
  }

  /** When every requested block is local, getMany registers nothing, wants nothing,
      looks for no provider, and calls back once with the stored blocks in request
      order. */
  lemma GetManyLocal(s: State, cids: seq<Cid>, single: bool, faults: StoreFaults,
                     findError: Option<Error>, maxProviders: nat)
    requires Valid(s)
    requires forall c :: c in cids ==> c in s.store && c !in faults.has && c !in faults.get
    ensures var r := GetMany(s, cids, single, faults, findError, maxProviders);
      var reply := Blocks(Stored(s.store, cids));
      && r.listeners == s.listeners
      && r.log == s.log + [Delivered(|s.fetches|, if single then ForGet(reply) else reply)]
  {
    PartitionAllLocal(s.store, cids, faults.has);
    ReadLocalsValues(s.store, cids, faults.get);
    var rl := ReadLocals(s.store, cids, faults.get);
    var blocks := Stored(s.store, cids);
    assert rl.value == blocks;
    assert blocks + [] == blocks;
  }

  /** With missing blocks, getMany registers a block and an unwant listener per missing
      CID, wants the missing CIDs, then looks for providers of the first requested CID;
      it calls back only if that lookup fails. */
  lemma GetManyWaits(s: State, cids: seq<Cid>, single: bool, faults: StoreFaults,
                     findError: Option<Error>, maxProviders: nat)
    requires Valid(s)
    ensures var p := Partition(s.store, cids, faults.has);
      var r := GetMany(s, cids, single, faults, findError, maxProviders);
      !p.failed && |p.missing| > 0 ==>
        && r.listeners == s.listeners + ListenersFor(|s.fetches|, p.missing)
        && |r.log| == |s.log| + (if findError.Some? then 3 else 2)
        && r.log[..|s.log| + 2] == s.log + [WantBlocks(p.missing), FindAndConnect(cids[0], maxProviders)]
        && (findError.Some? ==> r.log[|s.log| + 2].Delivered?)
  {
    var p := Partition(s.store, cids, faults.has);
    if !p.failed && |p.missing| > 0 {
      var f := |s.fetches|;
      var s2 := Await(Begin(s, single, p), f, p.missing, cids[0], maxProviders);
      var r := GetMany(s, cids, single, faults, findError, maxProviders);
      assert r == if findError.Some? then Finish(s2, f, faults) else s2;
      assert s2.log == s.log + [WantBlocks(p.missing), FindAndConnect(cids[0], maxProviders)];
      assert r.log[..|s2.log|] == s2.log;
    }
  }

  /** A failing existence check makes getMany call back straight away, with the local
      blocks found before it, without wanting or looking for anything. */
  lemma GetManyCheckFails(s: State, cids: seq<Cid>, single: bool, faults: StoreFaults,
                          findError: Option<Error>, maxProviders: nat)
    requires Valid(s)
    ensures var p := Partition(s.store, cids, faults.has);
      var r := GetMany(s, cids, single, faults, findError, maxProviders);
      p.failed ==> r.listeners == s.listeners && |r.log| == |s.log| + 1 && r.log[|s.log|].Delivered?
  {
  }

  // ---------------------------------------------------------------------------
  // How a pending get ends

  /** The callback invocation `finish` makes for fetch `f` once the blocks `arrived`
      have been added to what it retrieved: the local blocks read from the store in
      request order, then the retrieved blocks in arrival order. */
  ghost function Completed(s: State, f: nat, arrived: seq<Block>): Event
    requires Valid(s) && f < |s.fetches|
  {
    var ft := s.fetches[f];
    assert forall c :: c in ft.locals ==> c in s.store;
    var reply := Blocks(Stored(s.store, ft.locals) + ft.retrieved + arrived);
    Delivered(f, if ft.single then ForGet(reply) else reply)
  }

  /** Listeners of other fetches leave a fetch's record alone. */
  lemma {:induction false} FireBlocksOther(s: State, ls: seq<Listener>, b: Block, faults: StoreFaults, f: nat)
    requires Valid(s) && Fits(ls, s) && f < |s.fetches|
    requires forall l :: l in ls ==> l.fetch != f
    ensures FireBlocks(s, ls, b, faults).fetches[f] == s.fetches[f]
    decreases |ls|
  {
    if ls != [] {
      var m := OnBlockFired(s, ls[0], b, faults);
      assert forall x :: x in ls[1..] ==> x in ls;
      FireBlocksOther(m, ls[1..], b, faults, f);
    }
  }

  /** `finish` calls back once, with the local blocks read from the store in request
      order followed by the blocks the listeners retrieved, in arrival order. */
  lemma FinishOrder(s: State, f: nat, faults: StoreFaults)
    requires Valid(s) && f < |s.fetches|
    requires forall c :: c in s.fetches[f].locals ==> c !in faults.get
    ensures Finish(s, f, faults).log == s.log + [Completed(s, f, [])]
  {
    var ft := s.fetches[f];
    assert forall c :: c in ft.locals ==> c in s.store;
    ReadLocalsValues(s.store, ft.locals, faults.get);
    var bs := ReadLocals(s.store, ft.locals, faults.get).value;
    var lb := Stored(s.store, ft.locals);
    assert bs == lb;
    assert lb + ft.retrieved + [] == bs + ft.retrieved;
  }

  /** The block listener of fetch `f` adds the block to what `f` retrieved and, when it
      was the last block missing, `finish` calls back with all of them. */
  lemma BlockListenerFinishes(s: State, f: nat, b: Block, faults: StoreFaults)
    requires Valid(s) && f < |s.fetches|
    requires forall c :: c in s.fetches[f].locals ==> c !in faults.get
    requires |s.fetches[f].retrieved| + 1 == |s.fetches[f].missing|
    ensures Completed(s, f, [b]) in OnBlockFired(s, Listener(f, OnBlock, b.cid), b, faults).log
  {
    var ft := s.fetches[f];
    var s1 := s.(log := s.log + [CancelWants([b.cid])], fetches := s.fetches[f := ft.(retrieved := ft.retrieved + [b])]);
    var r := OnBlockFired(s, Listener(f, OnBlock, b.cid), b, faults);
    assert r == Finish(s1, f, faults);
    FinishOrder(s1, f, faults);
    CompletedStep(s, s1, f, [b]);
    assert [b][1..] == [];
    assert r.log[|s1.log|] == Completed(s, f, [b]);
  }

  /** Running block listeners among which fetch `f` has only its listener for `b.cid`:
      if that listener is there once, `f` retrieves `b`; if `b` was the last block `f`
      missed, its callback receives everything, `b` last. */
  lemma {:induction false} FireBlocksArrive(s: State, ls: seq<Listener>, b: Block, faults: StoreFaults, f: nat)
    requires Valid(s) && Fits(ls, s) && f < |s.fetches|
    requires Listener(f, OnBlock, b.cid) in ls
    requires forall l :: l in ls && l.fetch == f ==> l == Listener(f, OnBlock, b.cid)
    requires forall c :: c in s.fetches[f].locals ==> c !in faults.get
    ensures multiset(ls)[Listener(f, OnBlock, b.cid)] == 1 ==>
      FireBlocks(s, ls, b, faults).fetches[f] == s.fetches[f].(retrieved := s.fetches[f].retrieved + [b])
    ensures |s.fetches[f].retrieved| + 1 == |s.fetches[f].missing| ==>
      Completed(s, f, [b]) in FireBlocks(s, ls, b, faults).log
    decreases |ls|
  {
    var own := Listener(f, OnBlock, b.cid);
    var m := OnBlockFired(s, ls[0], b, faults);
    var r := FireBlocks(m, ls[1..], b, faults);
    assert FireBlocks(s, ls, b, faults) == r;
    assert ls == [ls[0]] + ls[1..];
    assert forall x :: x in ls[1..] ==> x in ls;
    assert r.log[..|m.log|] == m.log;
    if ls[0] == own {
      if multiset(ls)[own] == 1 {
        assert multiset(ls[1..])[own] == 0;
        FireBlocksOther(m, ls[1..], b, faults, f);
      }
      if |s.fetches[f].retrieved| + 1 == |s.fetches[f].missing| {
        BlockListenerFinishes(s, f, b, faults);
        var k :| 0 <= k < |m.log| && m.log[k] == Completed(s, f, [b]);
        assert r.log[k] == m.log[k];
      }
    } else {
      assert ls[0].fetch != f;
      assert m.fetches[f] == s.fetches[f];
      assert multiset(ls[1..])[own] == multiset(ls)[own];
      FireBlocksArrive(m, ls[1..], b, faults, f);
      assert Completed(m, f, [b]) == Completed(s, f, [b]);
    }
  }

  /** An emit counts each listener of its own kind and CID out, and every other one in. */
  lemma EmitCounts(ls: seq<Listener>, kind: Kind, cid: Cid, x: Listener)
    ensures x.kind == kind && x.cid == cid ==> multiset(Fired(ls, kind, cid))[x] == multiset(ls)[x]
    ensures !(x.kind == kind && x.cid == cid) ==> multiset(Kept(ls, kind, cid))[x] == multiset(ls)[x]
  {
    FiredKept(ls, kind, cid);
    FiredMembers(ls, kind, cid);
    KeptMembers(ls, kind, cid);
  }

  /** Emitting a block that fetch `f` waits for: `f` retrieves it if `f` listened for it
      once, and `f`'s callback fires if it was the last block `f` missed. */
  lemma EmitArrives(s: State, b: Block, faults: StoreFaults, f: nat)
    requires Valid(s) && f < |s.fetches| && Listener(f, OnBlock, b.cid) in s.listeners
    requires forall c :: c in s.fetches[f].locals ==> c !in faults.get
    ensures var e := EmitBlock(s, b, faults);
      && (multiset(s.listeners)[Listener(f, OnBlock, b.cid)] == 1 ==>
            e.fetches[f] == s.fetches[f].(retrieved := s.fetches[f].retrieved + [b]))
      && (|s.fetches[f].retrieved| + 1 == |s.fetches[f].missing| ==> Completed(s, f, [b]) in e.log)
  {
    var own := Listener(f, OnBlock, b.cid);
    var t := s.(listeners := Kept(s.listeners, OnBlock, b.cid), log := s.log + [BlockEmitted(b)]);
    var fired := Fired(s.listeners, OnBlock, b.cid);
    FiredMembers(s.listeners, OnBlock, b.cid);
    KeptMembers(s.listeners, OnBlock, b.cid);
    EmitCounts(s.listeners, OnBlock, b.cid, own);
    assert Valid(t) && Fits(fired, t);
    FireBlocksArrive(t, fired, b, faults, f);
    assert Completed(t, f, [b]) == Completed(s, f, [b]);
  }

  /** The blocks `bs` emitted one after another, as `_putBlock` and `putMany` emit them. */
  function EmitAll(s: State, bs: seq<Block>, faults: StoreFaults): (r: State)
    requires Valid(s)
    ensures Valid(r) && r.store == s.store && Extends(s.log, r.log)
    decreases |bs|
  {
    if bs == [] then s
    else
      var e := EmitBlock(s, bs[0], faults);
      assert Extends(s.log, e.log) by {
        assert e.log[..|s.log|] == e.log[..|s.log| + 1][..|s.log|];
      }
      var r := EmitAll(e, bs[1..], faults);
      ExtendsTrans(s.log, e.log, r.log);
      r
  }

  /** A fetch that listens once for each of the distinct blocks `bs`, which are all it
      still misses, calls back with its local blocks, what it retrieved before, and
      then `bs` in the order they are emitted. */
  lemma {:induction false} ArrivalsComplete(s: State, f: nat, bs: seq<Block>, faults: StoreFaults)
    requires Valid(s) && f < |s.fetches| && |bs| > 0 && UniqueCids(bs)
    requires |s.fetches[f].retrieved| + |bs| == |s.fetches[f].missing|
    requires forall j :: 0 <= j < |bs| ==> multiset(s.listeners)[Listener(f, OnBlock, bs[j].cid)] == 1
    requires forall c :: c in s.fetches[f].locals ==> c !in faults.get
    ensures Completed(s, f, bs) in EmitAll(s, bs, faults).log
    decreases |bs|
  {
    var b := bs[0];
    var e := EmitBlock(s, b, faults);
    assert Listener(f, OnBlock, b.cid) in s.listeners;
    EmitArrives(s, b, faults, f);
    if |bs| == 1 {
      assert bs == [b] && bs[1..] == [];
      assert EmitAll(s, bs, faults) == e;
    } else {
      assert EmitAll(s, bs, faults) == EmitAll(e, bs[1..], faults);
      assert e.listeners == Kept(s.listeners, OnBlock, b.cid);
      KeptCounts(s.listeners, f, bs);
      assert UniqueCids(bs[1..]);
      ArrivalsComplete(e, f, bs[1..], faults);
      CompletedStep(s, e, f, bs);
    }
  }

  /** After the emit of the first of the distinct blocks `bs`, the listeners for the
      others are still registered once each. */
  lemma KeptCounts(ls: seq<Listener>, f: nat, bs: seq<Block>)
    requires |bs| > 0 && UniqueCids(bs)
    requires forall j :: 0 <= j < |bs| ==> multiset(ls)[Listener(f, OnBlock, bs[j].cid)] == 1
    ensures forall j :: 0 <= j < |bs| - 1 ==>
      multiset(Kept(ls, OnBlock, bs[0].cid))[Listener(f, OnBlock, bs[1..][j].cid)] == 1
  {
    forall j | 0 <= j < |bs| - 1
      ensures multiset(Kept(ls, OnBlock, bs[0].cid))[Listener(f, OnBlock, bs[1..][j].cid)] == 1
    {
      assert bs[1..][j] == bs[j + 1] && bs[j + 1].cid != bs[0].cid;
      EmitCounts(ls, OnBlock, bs[0].cid, Listener(f, OnBlock, bs[j + 1].cid));
    }
  }

  /** Retrieving the first of `bs` moves it from what is still to arrive to what was
      retrieved, leaving the final callback as it was. */
  lemma CompletedStep(s: State, e: State, f: nat, bs: seq<Block>)
    requires Valid(s) && Valid(e) && f < |s.fetches| && f < |e.fetches| && |bs| > 0
    requires e.store == s.store
    requires e.fetches[f] == s.fetches[f].(retrieved := s.fetches[f].retrieved + [bs[0]])
    ensures Completed(e, f, bs[1..]) == Completed(s, f, bs)
  {
    var ft := s.fetches[f];
    var lb := Stored(s.store, ft.locals);
    assert bs == [bs[0]] + bs[1..];
    assert lb + (ft.retrieved + [bs[0]]) + bs[1..] == lb + ft.retrieved + bs;
  }

  lemma {:induction false} ListenersForCount(f: nat, cids: seq<Cid>, c: Cid)
    ensures multiset(ListenersFor(f, cids))[Listener(f, OnBlock, c)] == multiset(cids)[c]
    decreases |cids|
  {
    if cids != [] {
      ListenersForCount(f, cids[1..], c);
      var two := [Listener(f, OnUnwant, cids[0]), Listener(f, OnBlock, cids[0])];
      assert ListenersFor(f, cids) == two + ListenersFor(f, cids[1..]);
      assert multiset(ListenersFor(f, cids)) == multiset(two) + multiset(ListenersFor(f, cids[1..]));
      assert multiset(cids) == multiset{cids[0]} + multiset(cids[1..]) by {
        assert cids == [cids[0]] + cids[1..];
      }
    }
  }

  lemma {:induction false} UniqueCount(bs: seq<Block>, j: nat)
    requires UniqueCids(bs) && j < |bs|
    ensures multiset(CidsOf(bs))[bs[j].cid] == 1
    decreases |bs|
  {
    assert CidsOf(bs) == [bs[0].cid] + CidsOf(bs[1..]);
    if j == 0 {
      assert bs[0].cid !in CidsOf(bs[1..]);
    } else {
      assert bs[1..][j - 1] == bs[j] && bs[0].cid != bs[j].cid;
      UniqueCount(bs[1..], j - 1);
    }
  }

  /** A getMany still waiting, once each of its missing blocks is emitted (in any
      order, with distinct CIDs), calls back with the local blocks in request order
      followed by the emitted blocks in emit order. */
  lemma GetManyCompletes(s: State, cids: seq<Cid>, single: bool, faults: StoreFaults,
                         maxProviders: nat, bs: seq<Block>)
    requires Valid(s) && UniqueCids(bs) && |bs| > 0
    requires var p := Partition(s.store, cids, faults.has);
      !p.failed && multiset(CidsOf(bs)) == multiset(p.missing)
    requires forall c :: c in cids ==> c !in faults.get
    ensures var p := Partition(s.store, cids, faults.has);
      var g := GetMany(s, cids, single, faults, None, maxProviders);
      var reply := Blocks(Stored(s.store, p.locals) + bs);
      Delivered(|s.fetches|, if single then ForGet(reply) else reply) in EmitAll(g, bs, faults).log
  {
    var p := Partition(s.store, cids, faults.has);
    assert |p.missing| > 0 by {
      assert |multiset(CidsOf(bs))| == |CidsOf(bs)|;
    }
    GetManyWaiting(s, cids, single, faults, maxProviders);
    LocalsRequested(s.store, cids, faults);
    WaitingCompletes(s, GetMany(s, cids, single, faults, None, maxProviders), single, p.locals, p.missing, bs, faults);
  }

  /** A fetch that waits for the distinct CIDs of `bs`, with one block listener registered per
      missing CID, calls back with its local blocks then `bs` once `bs` is emitted. */
  lemma WaitingCompletes(s: State, g: State, single: bool, locals: seq<Cid>, missing: seq<Cid>,
                         bs: seq<Block>, faults: StoreFaults)
    requires Valid(s) && Valid(g) && |s.fetches| < |g.fetches| && g.store == s.store
    requires g.fetches[|s.fetches|] == Fetch(single, locals, missing, [])
    requires g.listeners == s.listeners + ListenersFor(|s.fetches|, missing)
    requires UniqueCids(bs) && |bs| > 0 && multiset(CidsOf(bs)) == multiset(missing)
    requires forall c :: c in locals ==> c !in faults.get
    ensures forall c :: c in locals ==> c in s.store
    ensures var reply := Blocks(Stored(s.store, locals) + bs);
      Delivered(|s.fetches|, if single then ForGet(reply) else reply) in EmitAll(g, bs, faults).log
  {
    var f := |s.fetches|;
    assert |missing| == |bs| by {
      assert |multiset(CidsOf(bs))| == |CidsOf(bs)|;
    }
    var reply := Blocks(Stored(s.store, locals) + bs);
    assert Completed(g, f, bs) == Delivered(f, if single then ForGet(reply) else reply) by {
      assert Stored(g.store, g.fetches[f].locals) == Stored(s.store, locals);
      assert Stored(s.store, locals) + [] + bs == Stored(s.store, locals) + bs;
    }
    RegisteredOnce(s, f, missing, bs);
    ArrivalsComplete(g, f, bs, faults);
  }

  /** The state a getMany that waits for blocks leaves behind. */
  lemma GetManyWaiting(s: State, cids: seq<Cid>, single: bool, faults: StoreFaults, maxProviders: nat)
    requires Valid(s)
    requires var p := Partition(s.store, cids, faults.has); !p.failed && |p.missing| > 0
    ensures var p := Partition(s.store, cids, faults.has);
      var g := GetMany(s, cids, single, faults, None, maxProviders);
      && g.store == s.store
      && g.listeners == s.listeners + ListenersFor(|s.fetches|, p.missing)
      && |g.fetches| == |s.fetches| + 1
      && g.fetches[|s.fetches|] == Fetch(single, p.locals, p.missing, [])
  {
    var p := Partition(s.store, cids, faults.has);
    assert GetMany(s, cids, single, faults, None, maxProviders)
        == Await(Begin(s, single, p), |s.fetches|, p.missing, cids[0], maxProviders);
  }

  /** The listeners getMany registers for its missing CIDs, which are the distinct CIDs
      of `bs`, hold one block listener per block of `bs`. */
  lemma RegisteredOnce(s: State, f: nat, missing: seq<Cid>, bs: seq<Block>)
    requires Valid(s) && f == |s.fetches| && UniqueCids(bs) && multiset(CidsOf(bs)) == multiset(missing)
    ensures forall j :: 0 <= j < |bs| ==>
      multiset(s.listeners + ListenersFor(f, missing))[Listener(f, OnBlock, bs[j].cid)] == 1
  {
    forall j | 0 <= j < |bs|
      ensures multiset(s.listeners + ListenersFor(f, missing))[Listener(f, OnBlock, bs[j].cid)] == 1
    {
      var x := Listener(f, OnBlock, bs[j].cid);
      assert x !in s.listeners;
      ListenersForCount(f, missing, bs[j].cid);
      UniqueCount(bs, j);
    }
  }

  /** Every local CID of a complete partition was requested. */
  lemma LocalsRequested(store: map<Cid, Block>, cids: seq<Cid>, faults: StoreFaults)
    requires !Partition(store, cids, faults.has).failed
    requires forall c :: c in cids ==> c !in faults.get
    ensures forall c :: c in Partition(store, cids, faults.has).locals ==> c !in faults.get
  {
    PartitionPermutation(store, cids, faults.has);
    forall c | c in Partition(store, cids, faults.has).locals
      ensures c !in faults.get
    {
      assert multiset(cids)[c] > 0;
    }
  }

  /** Fetch `f` waiting for one block `b`, as `get` leaves it, ends with that block when
      it is emitted, whatever else was registered after it. */
  lemma EmitCompletesGet(s: State, f: nat, b: Block, faults: StoreFaults)
    requires Valid(s) && f < |s.fetches| && s.fetches[f] == Fetch(true, [], [b.cid], [])
    requires Listener(f, OnBlock, b.cid) in s.listeners
    ensures Delivered(f, Found(b)) in EmitBlock(s, b, faults).log
  {
    EmitArrives(s, b, faults, f);
    assert Completed(s, f, [b]) == Delivered(f, Found(b));
  }

  /** What `get` of a missing block leaves behind: its fetch record, and its two
      listeners registered after all others. */
  lemma GetPending(s: State, c: Cid, faults: StoreFaults, maxProviders: nat)
    requires Valid(s) && c !in s.store && c !in faults.has
    ensures var g := GetMany(s, [c], true, faults, None, maxProviders);
      var f := |s.fetches|;
      && g.store == s.store
      && g.fetches == s.fetches + [Fetch(true, [], [c], [])]
      && g.listeners == s.listeners + [Listener(f, OnUnwant, c), Listener(f, OnBlock, c)]
  {
    assert [c][1..] == [];
    assert Partition(s.store, [c], faults.has) == Split([], [c], false);
    assert ListenersFor(|s.fetches|, [c]) == [Listener(|s.fetches|, OnUnwant, c), Listener(|s.fetches|, OnBlock, c)];
  }

  /** A `get` still waiting for block `b` ends with that block when `b` is put. */
  lemma PutCompletesGet(s: State, f: nat, b: Block, faults: StoreFaults)
    requires Valid(s) && f < |s.fetches| && s.fetches[f] == Fetch(true, [], [b.cid], [])
    requires Listener(f, OnBlock, b.cid) in s.listeners
    requires b.cid !in s.store && b.cid !in faults.has && b.cid !in faults.put
    ensures var p := Put(s, b, faults);
      p.error == None && Delivered(f, Found(b)) in p.state.log
  {
    var s1 := s.(store := s.store[b.cid := b]);
    var e := EmitBlock(s1, b, faults);
    EmitCompletesGet(s1, f, b, faults);
    var p := Put(s, b, faults);
    assert p == After(e.(log := e.log + [Provide(b.cid), EngineReceivedBlocks([b.cid])]), None);
    var k :| 0 <= k < |e.log| && e.log[k] == Delivered(f, Found(b));
    assert p.state.log[k] == e.log[k];
  }

  /** `get` of a missing block followed by `put` of that block: the `get` is answered
      with exactly that block. */
  lemma GetThenPut(s: State, b: Block, faults: StoreFaults, maxProviders: nat)
    requires Valid(s) && b.cid !in s.store && b.cid !in faults.has && b.cid !in faults.put
    ensures var g := GetMany(s, [b.cid], true, faults, None, maxProviders);
      var p := Put(g, b, faults);
      p.error == None && Delivered(|s.fetches|, Found(b)) in p.state.log
  {
    var g := GetMany(s, [b.cid], true, faults, None, maxProviders);
    GetPending(s, b.cid, faults, maxProviders);
    assert Listener(|s.fetches|, OnBlock, b.cid) in g.listeners;
    PutCompletesGet(g, |s.fetches|, b, faults);
  }

  /** Unwant listeners each call back with nothing. */
  lemma {:induction false} FireUnwantsEnd(s: State, ls: seq<Listener>, l: Listener)
    requires Valid(s) && Fits(ls, s) && l in ls
    ensures Delivered(l.fetch, NoBlock) in FireUnwants(s, ls).log
    decreases |ls|
  {
    var m := OnUnwantFired(s, ls[0]);
    var r := FireUnwants(m, ls[1..]);
    assert FireUnwants(s, ls) == r;
    assert r.log[..|m.log|] == m.log;
    if ls[0] == l {
      assert m.log[|m.log| - 1] == Delivered(l.fetch, NoBlock);
      assert r.log[|m.log| - 1] == m.log[|m.log| - 1];
    } else {
      assert ls == [ls[0]] + ls[1..];
      assert forall x :: x in ls[1..] ==> x in ls;
      FireUnwantsEnd(m, ls[1..], l);
    }
  }

  /** Emitting `unwant:<c>` ends every fetch listening for it with nothing, whether it
      came from `get` or `getMany` and whatever was registered after it. */
  lemma UnwantEndsGet(s: State, f: nat, c: Cid)
    requires Valid(s) && Listener(f, OnUnwant, c) in s.listeners
    ensures Delivered(f, NoBlock) in EmitUnwant(s, c).log
  {
    var t := s.(listeners := Kept(s.listeners, OnUnwant, c), log := s.log + [UnwantEmitted(c)]);
    FiredMembers(s.listeners, OnUnwant, c);
    KeptMembers(s.listeners, OnUnwant, c);
    assert Valid(t) && Fits(Fired(s.listeners, OnUnwant, c), t);
    FireUnwantsEnd(t, Fired(s.listeners, OnUnwant, c), Listener(f, OnUnwant, c));
  }

  /** The unwant emits of a list holding `c` end every fetch listening for `c`. */
  lemma {:induction false} EmitUnwantsEnd(s: State, cids: seq<Cid>, f: nat, c: Cid)
    requires Valid(s) && c in cids && Listener(f, OnUnwant, c) in s.listeners
    ensures Delivered(f, NoBlock) in EmitUnwants(s, cids).log
    decreases |cids|
  {
    var m := EmitUnwant(s, cids[0]);
    var r := EmitUnwants(m, cids[1..]);
    assert EmitUnwants(s, cids) == r;
    if cids[0] == c {
      UnwantEndsGet(s, f, c);
      var k :| 0 <= k < |m.log| && m.log[k] == Delivered(f, NoBlock);
      assert r.log[..|m.log|] == m.log && r.log[k] == m.log[k];
    } else {
      KeptMembers(s.listeners, OnUnwant, cids[0]);
      assert Listener(f, OnUnwant, c) in m.listeners;
      assert cids == [cids[0]] + cids[1..];
      EmitUnwantsEnd(m, cids[1..], f, c);
    }
  }

  /** `unwant` of a list holding `c` ends every fetch still listening for `c`. */
  lemma UnwantEndsFetch(s: State, cids: seq<Cid>, f: nat, c: Cid)
    requires Valid(s) && c in cids && Listener(f, OnUnwant, c) in s.listeners
    ensures Delivered(f, NoBlock) in Unwant(s, cids).log
  {
    EmitUnwantsEnd(s.(log := s.log + [UnwantBlocks(cids)]), cids, f, c);
  }

  /** `get` of a missing block followed by `unwant` of that block: the `get` ends with
      nothing. */
  lemma GetThenUnwant(s: State, c: Cid, cids: seq<Cid>, faults: StoreFaults, maxProviders: nat)
    requires Valid(s) && c !in s.store && c !in faults.has && c in cids
    ensures var g := GetMany(s, [c], true, faults, None, maxProviders);
      Delivered(|s.fetches|, NoBlock) in Unwant(g, cids).log
  {
    var g := GetMany(s, [c], true, faults, None, maxProviders);
    GetPending(s, c, faults, maxProviders);
    assert Listener(|s.fetches|, OnUnwant, c) in g.listeners;
    UnwantEndsFetch(g, cids, |s.fetches|, c);
  }
}
