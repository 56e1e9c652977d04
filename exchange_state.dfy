/** The orchestrator of src/index.js as a state machine: each operation is a function from
    the state before the call (and the collaborators' answers) to the state after it.
    The class in bitswap.dfy is proved to follow these functions step by step. */
module ExchangeState {
  import opened Types

  datatype Kind = OnBlock | OnUnwant

  /** A one-shot listener that a pending getMany registered on the notification emitter,
      under `block:<cid>` (OnBlock) or `unwant:<cid>` (OnUnwant); `fetch` names the
      getMany call that registered it. */
  datatype Listener = Listener(fetch: nat, kind: Kind, cid: Cid)

  /** What one getMany call keeps in its closure: the requested CIDs split into those
      found locally and those missing, and the blocks its listeners have collected.
      `single` marks a call made by get, whose callback unwraps the first block. */
  datatype Fetch = Fetch(single: bool, locals: seq<Cid>, missing: seq<Cid>, retrieved: seq<Block>)

  /** The arguments a get/getMany callback is invoked with. */
  datatype Reply =
    | Blocks(blocks: seq<Block>)  // callback(null, blocks)
    | Found(block: Block)         // get only: callback(null, block)
    | NoBlock                     // callback()
    | Failed(error: Error)        // callback(err)

  /** Calls into the collaborators (decision engine, want manager, network), emits on the
      notification emitter, and invocations of get/getMany callbacks, in the order they
      happen. */
  datatype Event =
    | EngineMessageReceived(peer: PeerId, msg: Message)
    | EngineReceivedBlocks(cids: seq<Cid>)
    | EnginePeerDisconnected(peer: PeerId)
    | WantBlocks(cids: seq<Cid>)
    | CancelWants(cids: seq<Cid>)
    | UnwantBlocks(cids: seq<Cid>)
    | WantConnected(peer: PeerId)
    | WantDisconnected(peer: PeerId)
    | Provide(cid: Cid)
    | FindAndConnect(cid: Cid, maxProviders: nat)
    | BlockEmitted(block: Block)
    | UnwantEmitted(cid: Cid)
    | Delivered(fetch: nat, reply: Reply)

  /** The blockstore's answers: which CIDs make `has`, `put` and `get` fail, with which
      error, and whether the batched `putMany` fails. */
  datatype StoreFaults = StoreFaults(
    has: map<Cid, Error>,
    put: map<Cid, Error>,
    get: map<Cid, Error>,
    putMany: Option<Error>)

  const NoFaults := StoreFaults(map[], map[], map[], None)

  datatype State = State(
    store: map<Cid, Block>,
    blocksRecvd: nat,
    dupBlocksRecvd: nat,
    dupDataRecvd: nat,
    listeners: seq<Listener>,
    fetches: seq<Fetch>,
    log: seq<Event>)

  /** The state after an operation and the error its callback receives, if any. */
  datatype After = After(state: State, error: Option<Error>)

  /** `unwant` and `cancelWants` take one CID or an array of them. */
  datatype CidArg = One(cid: Cid) | Many(cids: seq<Cid>)

  function AsArray(a: CidArg): seq<Cid> {
    match a
    case One(c) => [c]
    case Many(cs) => cs
  }

  // ---------------------------------------------------------------------------
  // Invariant

  /** The blockstore maps every CID to a block with that CID. */
  ghost predicate Keyed(store: map<Cid, Block>) {
    forall c :: c in store ==> store[c].cid == c
  }

  ghost predicate Valid(s: State) {
    && Keyed(s.store)
    && (forall l :: l in s.listeners ==> l.fetch < |s.fetches|)
    && (forall i, c :: 0 <= i < |s.fetches| && c in s.fetches[i].locals ==> c in s.store)
  }

  function Initial(store: map<Cid, Block>): (s: State)
    requires Keyed(store)
    ensures Valid(s)
  {
    State(store, 0, 0, 0, [], [], [])
  }

  ghost predicate Extends(a: seq<Event>, b: seq<Event>) {
    |a| <= |b| && b[..|a|] == a
  }

  /** The only events a getMany listener produces. */
  predicate Reaction(e: Event) {
    e.CancelWants? || e.Delivered?
  }

  ghost predicate SameCounters(s: State, r: State) {
    r.blocksRecvd == s.blocksRecvd && r.dupBlocksRecvd == s.dupBlocksRecvd && r.dupDataRecvd == s.dupDataRecvd
  }

  /** `r` arises from `s` by running getMany listeners: the store, the counters, the
      registered listeners and the split of each fetch stay as they are, and the log
      only grows by reactions. */
  ghost predicate HandlerStep(s: State, r: State) {
    && r.store == s.store
    && SameCounters(s, r)
    && r.listeners == s.listeners
    && |r.fetches| == |s.fetches|
    && (forall i :: 0 <= i < |s.fetches| ==> r.fetches[i].locals == s.fetches[i].locals)
    && Extends(s.log, r.log)
    && (forall i :: |s.log| <= i < |r.log| ==> Reaction(r.log[i]))
  }

  lemma HandlerStepTrans(s: State, m: State, r: State)
    requires HandlerStep(s, m) && HandlerStep(m, r)
    ensures HandlerStep(s, r)
  {
    assert r.log[..|s.log|] == r.log[..|m.log|][..|s.log|];
  }

  lemma ExtendsTrans(a: seq<Event>, b: seq<Event>, c: seq<Event>)
    requires Extends(a, b) && Extends(b, c)
    ensures Extends(a, c)
  {
    assert c[..|a|] == c[..|b|][..|a|];
  }

  // ---------------------------------------------------------------------------
  // Sequences the operations filter

  function CidsOf(bs: seq<Block>): (r: seq<Cid>)
    ensures |r| == |bs| && forall i :: 0 <= i < |bs| ==> r[i] == bs[i].cid
  {
    seq(|bs|, i requires 0 <= i < |bs| => bs[i].cid)
  }

  /** The blocks whose CID the store does not hold, in input order. */
  function Absent(store: map<Cid, Block>, bs: seq<Block>): (r: seq<Block>)
    ensures |r| <= |bs|
  {
    if bs == [] then []
    else (if bs[0].cid !in store then [bs[0]] else []) + Absent(store, bs[1..])
  }

  /** Absent filters block by block: extending the input extends the result. */
  lemma {:induction false} AbsentSnoc(store: map<Cid, Block>, bs: seq<Block>, b: Block)
    ensures Absent(store, bs + [b]) == Absent(store, bs) + (if b.cid !in store then [b] else [])
  {
    if bs == [] {
      assert [] + [b] == [b];
    } else {
      assert (bs + [b])[0] == bs[0] && (bs + [b])[1..] == bs[1..] + [b];
      AbsentSnoc(store, bs[1..], b);
    }
  }

  /** The blocks whose CID the store already holds, in input order. */
  function Present(store: map<Cid, Block>, bs: seq<Block>): (r: seq<Block>)
    ensures |r| + |Absent(store, bs)| == |bs|
  {
    if bs == [] then []
    else (if bs[0].cid in store then [bs[0]] else []) + Present(store, bs[1..])
  }

  /** The blocks whose existence check does not fail. */
  function Checked(bs: seq<Block>, has: map<Cid, Error>): (r: seq<Block>)
    ensures |r| <= |bs|
  {
    if bs == [] then []
    else (if bs[0].cid !in has then [bs[0]] else []) + Checked(bs[1..], has)
  }

  /** The CIDs of the blocks that the want list contains, in message order. */
  function ToCancel(bs: seq<Block>, wanted: set<Cid>): (r: seq<Cid>)
    ensures |r| <= |bs|
  {
    if bs == [] then []
    else (if bs[0].cid in wanted then [bs[0].cid] else []) + ToCancel(bs[1..], wanted)
  }

  function Size(bs: seq<Block>): nat {
    if bs == [] then 0 else |bs[0].data| + Size(bs[1..])
  }

  /** The listeners an emit on (kind, cid) invokes, in registration order. */
  function Fired(ls: seq<Listener>, kind: Kind, cid: Cid): (r: seq<Listener>)
  {
    if ls == [] then []
    else (if ls[0].kind == kind && ls[0].cid == cid then [ls[0]] else []) + Fired(ls[1..], kind, cid)
  }

  /** The listeners an emit on (kind, cid) leaves registered, in registration order. */
  function Kept(ls: seq<Listener>, kind: Kind, cid: Cid): (r: seq<Listener>)
  {
    if ls == [] then []
    else (if ls[0].kind == kind && ls[0].cid == cid then [] else [ls[0]]) + Kept(ls[1..], kind, cid)
  }

  /** An emit invokes exactly the listeners registered for its kind and CID, */
  lemma {:induction false} FiredMembers(ls: seq<Listener>, kind: Kind, cid: Cid)
    ensures forall l :: l in Fired(ls, kind, cid) <==> l in ls && l.kind == kind && l.cid == cid
  {
    if ls != [] {
      FiredMembers(ls[1..], kind, cid);
      assert ls == [ls[0]] + ls[1..];
    }
  }

  /** and keeps exactly the others. */
  lemma {:induction false} KeptMembers(ls: seq<Listener>, kind: Kind, cid: Cid)
    ensures forall l :: l in Kept(ls, kind, cid) <==> l in ls && !(l.kind == kind && l.cid == cid)
  {
    if ls != [] {
      KeptMembers(ls[1..], kind, cid);
      assert ls == [ls[0]] + ls[1..];
    }
  }

  /** The first error the store reports for `cids`, checked in order. */
  function FirstFault(cids: seq<Cid>, faults: map<Cid, Error>): (r: Option<Error>)
    ensures r.None? <==> forall c :: c in cids ==> c !in faults
  {
    if cids == [] then None
    else if cids[0] in faults then Some(faults[cids[0]])
    else FirstFault(cids[1..], faults)
  }

  /** The error FirstFault reports is that of the first faulting CID. */
  lemma {:induction false} FirstFaultIsFirst(cids: seq<Cid>, faults: map<Cid, Error>)
    requires FirstFault(cids, faults).Some?
    ensures exists k :: 0 <= k < |cids| && cids[k] in faults && FirstFault(cids, faults).value == faults[cids[k]]
                        && forall j :: 0 <= j < k ==> cids[j] !in faults
  {
    if cids[0] !in faults {
      FirstFaultIsFirst(cids[1..], faults);
      var k :| 0 <= k < |cids| - 1 && cids[1..][k] in faults && FirstFault(cids[1..], faults).value == faults[cids[1..][k]]
               && forall j :: 0 <= j < k ==> cids[1..][j] !in faults;
      assert cids[k + 1] in faults && forall j :: 0 <= j < k + 1 ==> cids[j] !in faults;
    } else {
      assert cids[0] in faults && FirstFault(cids, faults).value == faults[cids[0]];
    }
  }

  // ---------------------------------------------------------------------------
  // The blockstore

  /** The store after a batched put of `bs`, later blocks written last. */
  function StoreAll(store: map<Cid, Block>, bs: seq<Block>): (r: map<Cid, Block>)
    ensures Keyed(store) ==> Keyed(r)
    ensures r.Keys == store.Keys + set b | b in bs :: b.cid
    ensures forall c :: c in store && c !in CidsOf(bs) ==> r[c] == store[c]
    decreases bs
  {
    if bs == [] then store else StoreAll(store[bs[0].cid := bs[0]], bs[1..])
  }

  /** Every CID the batch writes holds the last block given for it. */
  lemma {:induction false} StoreAllWrites(store: map<Cid, Block>, bs: seq<Block>)
    ensures forall i :: 0 <= i < |bs| && (forall j :: i < j < |bs| ==> bs[j].cid != bs[i].cid) ==>
      bs[i].cid in StoreAll(store, bs) && StoreAll(store, bs)[bs[i].cid] == bs[i]
    decreases |bs|
  {
    if bs != [] {
      var st := store[bs[0].cid := bs[0]];
      StoreAllWrites(st, bs[1..]);
      forall i | 0 <= i < |bs| && (forall j :: i < j < |bs| ==> bs[j].cid != bs[i].cid)
        ensures bs[i].cid in StoreAll(store, bs) && StoreAll(store, bs)[bs[i].cid] == bs[i]
      {
        if i == 0 {
          assert bs[0].cid !in CidsOf(bs[1..]);
        } else {
          assert bs[1..][i - 1] == bs[i];
          assert forall j :: i - 1 < j < |bs| - 1 ==> bs[1..][j].cid != bs[1..][i - 1].cid;
        }
      }
    }
  }

  /** `map(locals, blockstore.get)`: the blocks in request order, or the first error. */
  function ReadLocals(store: map<Cid, Block>, cids: seq<Cid>, faults: map<Cid, Error>): (r: Result<seq<Block>>)
    requires forall c :: c in cids ==> c in store
    ensures r.Success? <==> forall c :: c in cids ==> c !in faults
    ensures r.Failure? ==> Some(r.error) == FirstFault(cids, faults)
  {
    if cids == [] then Success([])
    else if cids[0] in faults then Failure(faults[cids[0]])
    else
      match ReadLocals(store, cids[1..], faults)
      case Success(bs) => Success([store[cids[0]]] + bs)
      case Failure(e) => Failure(e)
  }

  lemma ReadLocalsStep(store: map<Cid, Block>, cids: seq<Cid>, i: nat, faults: map<Cid, Error>)
    requires forall c :: c in cids ==> c in store
    requires i < |cids|
    ensures ReadLocals(store, cids[i..], faults) ==
      if cids[i] in faults then Failure(faults[cids[i]])
      else match ReadLocals(store, cids[i + 1..], faults)
           case Success(bs) => Success([store[cids[i]]] + bs)
           case Failure(e) => Failure(e)
  {
    assert cids[i..][0] == cids[i] && cids[i..][1..] == cids[i + 1..];
  }

  // ---------------------------------------------------------------------------
  // The notification emitter and getMany's listeners

  function Deliver(s: State, f: nat, r: Reply): State
    requires f < |s.fetches|
  {
    s.(log := s.log + [Delivered(f, if s.fetches[f].single then ForGet(r) else r)])
  }

  /** get's callback: the first block if there is one, otherwise nothing. */
  function ForGet(r: Reply): Reply {
    match r
    case Blocks(bs) => if |bs| > 0 then Found(bs[0]) else NoBlock
    case _ => r
  }

  /** getMany's `finish`: read the local blocks and deliver them followed by the
      retrieved ones, or deliver the read error. */
  function Finish(s: State, f: nat, faults: StoreFaults): (r: State)
    requires Valid(s) && f < |s.fetches|
    ensures HandlerStep(s, r) && r.fetches == s.fetches && |r.log| == |s.log| + 1
    ensures r.log[|s.log|].Delivered? && r.log[|s.log|].fetch == f
  {
    match ReadLocals(s.store, s.fetches[f].locals, faults.get)
    case Success(bs) => Deliver(s, f, Blocks(bs + s.fetches[f].retrieved))
    case Failure(e) => Deliver(s, f, Failed(e))
  }

  /** A `block:<cid>` listener: cancel the want, collect the block, and finish once as
      many blocks arrived as were missing. */
  function OnBlockFired(s: State, l: Listener, b: Block, faults: StoreFaults): (r: State)
    requires Valid(s) && l.fetch < |s.fetches|
    ensures Valid(r) && HandlerStep(s, r)
    ensures |s.log| < |r.log| && r.log[|s.log|] == CancelWants([l.cid])
    ensures forall i :: 0 <= i < |s.fetches| && i != l.fetch ==> r.fetches[i] == s.fetches[i]
    ensures r.fetches[l.fetch] == s.fetches[l.fetch].(retrieved := s.fetches[l.fetch].retrieved + [b])
    ensures |r.log| == |s.log| + (if |s.fetches[l.fetch].retrieved| + 1 == |s.fetches[l.fetch].missing| then 2 else 1)
    ensures r.log[|r.log| - 1].Delivered? <==> |s.fetches[l.fetch].retrieved| + 1 == |s.fetches[l.fetch].missing|
    ensures r.log[|r.log| - 1].Delivered? ==> r.log[|r.log| - 1].fetch == l.fetch
  {
    var f := s.fetches[l.fetch];
    var f' := f.(retrieved := f.retrieved + [b]);
    var s1 := s.(log := s.log + [CancelWants([l.cid])], fetches := s.fetches[l.fetch := f']);
    if |f'.retrieved| == |f'.missing| then Finish(s1, l.fetch, faults) else s1
  }

  /** An `unwant:<cid>` listener: cancel the want and call back with nothing. */
  function OnUnwantFired(s: State, l: Listener): (r: State)
    requires Valid(s) && l.fetch < |s.fetches|
    ensures Valid(r) && HandlerStep(s, r) && r.fetches == s.fetches
    ensures r.log[|s.log|..] == [CancelWants([l.cid]), Delivered(l.fetch, NoBlock)]
  {
    var s1 := s.(log := s.log + [CancelWants([l.cid])]);
    Deliver(s1, l.fetch, NoBlock)
  }

  ghost predicate Fits(ls: seq<Listener>, s: State) {
    forall l :: l in ls ==> l.fetch < |s.fetches|
  }

  function FireBlocks(s: State, ls: seq<Listener>, b: Block, faults: StoreFaults): (r: State)
    requires Valid(s) && Fits(ls, s)
    ensures Valid(r) && HandlerStep(s, r)
    decreases |ls|
  {
    if ls == [] then s
    else
      var m := OnBlockFired(s, ls[0], b, faults);
      var r := FireBlocks(m, ls[1..], b, faults);
      HandlerStepTrans(s, m, r);
      r
  }

  function FireUnwants(s: State, ls: seq<Listener>): (r: State)
    requires Valid(s) && Fits(ls, s)
    ensures Valid(r) && HandlerStep(s, r) && r.fetches == s.fetches
    decreases |ls|
  {
    if ls == [] then s
    else
      var m := OnUnwantFired(s, ls[0]);
      var r := FireUnwants(m, ls[1..]);
      HandlerStepTrans(s, m, r);
      r
  }

  lemma FireBlocksStep(s: State, ls: seq<Listener>, b: Block, faults: StoreFaults)
    requires Valid(s) && Fits(ls, s) && ls != []
    ensures Valid(OnBlockFired(s, ls[0], b, faults)) && Fits(ls[1..], OnBlockFired(s, ls[0], b, faults))
    ensures FireBlocks(s, ls, b, faults) == FireBlocks(OnBlockFired(s, ls[0], b, faults), ls[1..], b, faults)
  {
  }

  lemma FireUnwantsStep(s: State, ls: seq<Listener>)
    requires Valid(s) && Fits(ls, s) && ls != []
    ensures Valid(OnUnwantFired(s, ls[0])) && Fits(ls[1..], OnUnwantFired(s, ls[0]))
    ensures FireUnwants(s, ls) == FireUnwants(OnUnwantFired(s, ls[0]), ls[1..])
  {
  }

  /** `notifications.emit('block:<cid>', b)`: every listener on that event is removed
      (they were registered with `once`) and then invoked in registration order. */
  function EmitBlock(s: State, b: Block, faults: StoreFaults): (r: State)
    requires Valid(s)
    ensures Valid(r)
    ensures HandlerStep(s.(listeners := Kept(s.listeners, OnBlock, b.cid), log := s.log + [BlockEmitted(b)]), r)
  {
    FiredMembers(s.listeners, OnBlock, b.cid);
    KeptMembers(s.listeners, OnBlock, b.cid);
    var s1 := s.(listeners := Kept(s.listeners, OnBlock, b.cid), log := s.log + [BlockEmitted(b)]);
    FireBlocks(s1, Fired(s.listeners, OnBlock, b.cid), b, faults)
  }

  /** `notifications.emit('unwant:<cid>')`. */
  function EmitUnwant(s: State, c: Cid): (r: State)
    requires Valid(s)
    ensures Valid(r) && r.fetches == s.fetches
    ensures HandlerStep(s.(listeners := Kept(s.listeners, OnUnwant, c), log := s.log + [UnwantEmitted(c)]), r)
  {
    FiredMembers(s.listeners, OnUnwant, c);
    KeptMembers(s.listeners, OnUnwant, c);
    var s1 := s.(listeners := Kept(s.listeners, OnUnwant, c), log := s.log + [UnwantEmitted(c)]);
    FireUnwants(s1, Fired(s.listeners, OnUnwant, c))
  }

  // ---------------------------------------------------------------------------
  // Storing blocks

  /** `_putBlock`: write the block; on success emit it, announce it and tell the
      decision engine, once each and in that order. A store error changes nothing. */
  function PutBlock(s: State, b: Block, faults: StoreFaults): (r: After)
    requires Valid(s)
    ensures Valid(r.state)
    ensures b.cid in faults.put ==> r == After(s, Some(faults.put[b.cid]))
    ensures b.cid !in faults.put ==>
      && r.error == None
      && r.state.store == s.store[b.cid := b]
      && SameCounters(s, r.state)
      && r.state.listeners == Kept(s.listeners, OnBlock, b.cid)
      && |r.state.fetches| == |s.fetches|
      && |s.log| + 3 <= |r.state.log|
      && r.state.log[..|s.log| + 1] == s.log + [BlockEmitted(b)]
      && (forall i :: |s.log| + 1 <= i < |r.state.log| - 2 ==> Reaction(r.state.log[i]))
      && r.state.log[|r.state.log| - 2..] == [Provide(b.cid), EngineReceivedBlocks([b.cid])]
  {
    if b.cid in faults.put then After(s, Some(faults.put[b.cid]))
    else
      var s1 := s.(store := s.store[b.cid := b]);
      var s2 := EmitBlock(s1, b, faults);
      var r := s2.(log := s2.log + [Provide(b.cid), EngineReceivedBlocks([b.cid])]);
      assert r.log[..|s.log| + 1] == s2.log[..|s.log| + 1];
      After(r, None)
  }

  /** `put`: a block the store already holds is skipped. */
  function Put(s: State, b: Block, faults: StoreFaults): (r: After)
    requires Valid(s)
    ensures Valid(r.state)
    ensures b.cid in faults.has ==> r == After(s, Some(faults.has[b.cid]))
    ensures b.cid !in faults.has && b.cid in s.store ==> r == After(s, None)
  {
    if b.cid in faults.has then After(s, Some(faults.has[b.cid]))
    else if b.cid in s.store then After(s, None)
    else PutBlock(s, b, faults)
  }

  /** The `forEach` of `putMany` over the newly stored blocks. */
  function AnnounceAll(s: State, bs: seq<Block>, faults: StoreFaults): (r: State)
    requires Valid(s)
    ensures Valid(r) && r.store == s.store && SameCounters(s, r) && Extends(s.log, r.log)
    decreases |bs|
  {
    if bs == [] then s
    else
      var m := Announce(s, bs[0], faults);
      var r := AnnounceAll(m, bs[1..], faults);
      ExtendsTrans(s.log, m.log, r.log);
      r
  }

  lemma AnnounceAllStep(s: State, bs: seq<Block>, i: nat, faults: StoreFaults)
    requires Valid(s) && i < |bs|
    ensures AnnounceAll(s, bs[i..], faults) == AnnounceAll(Announce(s, bs[i], faults), bs[i + 1..], faults)
  {
    assert bs[i..][0] == bs[i] && bs[i..][1..] == bs[i + 1..];
  }

  /** One step of that `forEach`: emit the block, tell the decision engine, provide it. */
  function Announce(s: State, b: Block, faults: StoreFaults): (r: State)
    requires Valid(s)
    ensures Valid(r) && r.store == s.store && SameCounters(s, r) && Extends(s.log, r.log)
    ensures |r.log| >= 2 && r.log[|r.log| - 2..] == [EngineReceivedBlocks([b.cid]), Provide(b.cid)]
  {
    var e := EmitBlock(s, b, faults);
    var r := e.(log := e.log + [EngineReceivedBlocks([b.cid]), Provide(b.cid)]);
    assert r.log[..|s.log|] == e.log[..|s.log|];
    r
  }

  /** `putMany`: reject the blocks the store holds, write the rest as one batch and,
      on success, announce each of them in input order. */
  function PutMany(s: State, bs: seq<Block>, faults: StoreFaults): (r: After)
    requires Valid(s)
    ensures Valid(r.state)
    ensures r.error.None? <==> FirstFault(CidsOf(bs), faults.has).None? && faults.putMany.None?
    ensures r.error.Some? ==> r.state == s
    ensures r.error.None? ==> r.state.store == StoreAll(s.store, Absent(s.store, bs)) && SameCounters(s, r.state)
  {
    var hasError := FirstFault(CidsOf(bs), faults.has);
    if hasError.Some? then After(s, hasError)
    else if faults.putMany.Some? then After(s, faults.putMany)
    else
      var newBlocks := Absent(s.store, bs);
      After(AnnounceAll(s.(store := StoreAll(s.store, newBlocks)), newBlocks, faults), None)
  }

  // ---------------------------------------------------------------------------
  // Receiving blocks

  /** `_updateReceiveCounters`. */
  function Count(s: State, b: Block, existed: bool): State {
    s.(blocksRecvd := s.blocksRecvd + 1,
       dupBlocksRecvd := if existed then s.dupBlocksRecvd + 1 else s.dupBlocksRecvd,
       dupDataRecvd := if existed then s.dupDataRecvd + |b.data| else s.dupDataRecvd)
  }

  /** `_handleReceivedBlock`: check existence, count, and store the block if new. */
  function HandleReceivedBlock(s: State, b: Block, faults: StoreFaults): (r: After)
    requires Valid(s)
    ensures Valid(r.state) && Extends(s.log, r.state.log)
    ensures b.cid in faults.has ==> r == After(s, Some(faults.has[b.cid]))
    ensures b.cid !in faults.has ==>
      && r.state.blocksRecvd == s.blocksRecvd + 1
      && r.state.dupBlocksRecvd == s.dupBlocksRecvd + (if b.cid in s.store then 1 else 0)
      && r.state.dupDataRecvd == s.dupDataRecvd + (if b.cid in s.store then |b.data| else 0)
    ensures r.error.Some? <==> b.cid in faults.has || (b.cid !in s.store && b.cid in faults.put)
    ensures b.cid !in faults.has && b.cid in s.store ==>
      r == After(s.(blocksRecvd := s.blocksRecvd + 1,
                    dupBlocksRecvd := s.dupBlocksRecvd + 1,
                    dupDataRecvd := s.dupDataRecvd + |b.data|), None)
    ensures r.state.store == if b.cid in faults.has || b.cid in s.store || b.cid in faults.put
                             then s.store else s.store[b.cid := b]
  {
    if b.cid in faults.has then After(s, Some(faults.has[b.cid]))
    else
      var existed := b.cid in s.store;
      var s1 := Count(s, b, existed);
      if existed then After(s1, None) else PutBlock(s1, b, faults)
  }

  /** The `each` of `_receiveMessage`: every block is handled; the callback receives
      the first error. */
  function HandleAll(s: State, bs: seq<Block>, faults: StoreFaults): (r: After)
    requires Valid(s)
    ensures Valid(r.state) && Extends(s.log, r.state.log)
    ensures r.state.blocksRecvd == s.blocksRecvd + |Checked(bs, faults.has)|
    decreases |bs|
  {
    if bs == [] then After(s, None)
    else
      var h := HandleReceivedBlock(s, bs[0], faults);
      var t := HandleAll(h.state, bs[1..], faults);
      ExtendsTrans(s.log, h.state.log, t.state.log);
      After(t.state, if h.error.Some? then h.error else t.error)
  }

  lemma HandleAllStep(s: State, bs: seq<Block>, i: nat, faults: StoreFaults)
    requires Valid(s) && i < |bs|
    ensures var h := HandleReceivedBlock(s, bs[i], faults);
      var t := HandleAll(h.state, bs[i + 1..], faults);
      HandleAll(s, bs[i..], faults) == After(t.state, if h.error.Some? then h.error else t.error)
  {
    assert bs[i..][0] == bs[i] && bs[i..][1..] == bs[i + 1..];
  }

  /** `_receiveMessage`: hand the message to the decision engine (whose error is only
      logged), then, if it carries blocks, cancel the wanted ones and handle each block. */
  function ReceiveMessage(s: State, peer: PeerId, msg: Message, wanted: set<Cid>, faults: StoreFaults): (r: After)
    requires Valid(s)
    ensures Valid(r.state)
    ensures |msg.blocks| == 0 ==> r == After(s.(log := s.log + [EngineMessageReceived(peer, msg)]), None)
    ensures |msg.blocks| > 0 ==>
      && |s.log| + 2 <= |r.state.log|
      && r.state.log[..|s.log| + 2] == s.log + [EngineMessageReceived(peer, msg), CancelWants(ToCancel(msg.blocks, wanted))]
      && r.state.blocksRecvd == s.blocksRecvd + |Checked(msg.blocks, faults.has)|
  {
    var s1 := s.(log := s.log + [EngineMessageReceived(peer, msg)]);
    if |msg.blocks| == 0 then After(s1, None)
    else HandleAll(s1.(log := s1.log + [CancelWants(ToCancel(msg.blocks, wanted))]), msg.blocks, faults)
  }

  // ---------------------------------------------------------------------------
  // Fetching blocks

  /** The requested CIDs split by `blockstore.has`; `failed` when a check failed, in
      which case only the CIDs before it were split. */
  datatype Split = Split(locals: seq<Cid>, missing: seq<Cid>, failed: bool)

  function Partition(store: map<Cid, Block>, cids: seq<Cid>, has: map<Cid, Error>): (r: Split)
    ensures forall c :: c in r.locals ==> c in store
    ensures forall c :: c in r.missing ==> c !in store
    ensures r.failed <==> FirstFault(cids, has).Some?
    ensures |r.locals| + |r.missing| <= |cids|
  {
    if cids == [] then Split([], [], false)
    else if cids[0] in has then Split([], [], true)
    else
      var p := Partition(store, cids[1..], has);
      assert cids == [cids[0]] + cids[1..];
      if cids[0] in store then p.(locals := [cids[0]] + p.locals)
      else p.(missing := [cids[0]] + p.missing)
  }

  /** `addListeners(missing)`: an unwant and a block listener per missing CID. */
  function ListenersFor(f: nat, cids: seq<Cid>): (r: seq<Listener>)
    ensures forall l :: l in r ==> l.fetch == f && l.cid in cids
  {
    if cids == [] then []
    else [Listener(f, OnUnwant, cids[0]), Listener(f, OnBlock, cids[0])] + ListenersFor(f, cids[1..])
  }

  /** The fetch record a getMany call starts with. */
  function Begin(s: State, single: bool, p: Split): (r: State)
    requires Valid(s) && forall c :: c in p.locals ==> c in s.store
    ensures Valid(r) && r.store == s.store && r.listeners == s.listeners && r.log == s.log
    ensures |r.fetches| == |s.fetches| + 1 && r.fetches[..|s.fetches|] == s.fetches
    ensures r.fetches[|s.fetches|] == Fetch(single, p.locals, p.missing, [])
  {
    s.(fetches := s.fetches + [Fetch(single, p.locals, p.missing, [])])
  }

  /** Register the listeners for the missing CIDs, want them, and look for providers
      of the first requested CID. */
  function Await(s: State, f: nat, missing: seq<Cid>, first: Cid, maxProviders: nat): (r: State)
    requires Valid(s) && f < |s.fetches|
    ensures Valid(r) && r.store == s.store && SameCounters(s, r) && r.fetches == s.fetches
    ensures |s.listeners| <= |r.listeners| && r.listeners[..|s.listeners|] == s.listeners
    ensures forall l :: l in r.listeners[|s.listeners|..] ==> l.fetch == f && l.cid in missing
    ensures Extends(s.log, r.log) && r.log[|s.log|..] == [WantBlocks(missing), FindAndConnect(first, maxProviders)]
  {
    s.(listeners := s.listeners + ListenersFor(f, missing),
       log := s.log + [WantBlocks(missing), FindAndConnect(first, maxProviders)])
  }

  /** `getMany` (and, with `single`, `get`) up to the point where it waits for
      notifications. `findError` is the error findAndConnect calls back with; on success
      findAndConnect never calls back. */
  function GetMany(s: State, cids: seq<Cid>, single: bool, faults: StoreFaults,
                   findError: Option<Error>, maxProviders: nat): (r: State)
    requires Valid(s)
    ensures Valid(r) && r.store == s.store && SameCounters(s, r) && Extends(s.log, r.log)
    ensures |r.fetches| == |s.fetches| + 1 && r.fetches[..|s.fetches|] == s.fetches
    ensures var p := Partition(s.store, cids, faults.has);
      r.fetches[|s.fetches|] == Fetch(single, p.locals, p.missing, [])
  {
    var p := Partition(s.store, cids, faults.has);
    var f := |s.fetches|;
    var s1 := Begin(s, single, p);
    if p.failed then Finish(s1, f, faults)
    else if |p.missing| > 0 then
      var s2 := Await(s1, f, p.missing, cids[0], maxProviders);
      if findError.Some? then Finish(s2, f, faults) else s2
    else Finish(s1, f, faults)
  }

  /** `unwant`: drop the wants regardless of reference counts, then emit an unwant
      notification per CID. */
  function Unwant(s: State, cids: seq<Cid>): (r: State)
    requires Valid(s)
    ensures Valid(r) && r.store == s.store && SameCounters(s, r) && r.fetches == s.fetches
    ensures Extends(s.log + [UnwantBlocks(cids)], r.log)
  {
    EmitUnwants(s.(log := s.log + [UnwantBlocks(cids)]), cids)
  }

  lemma EmitUnwantsStep(s: State, cids: seq<Cid>, i: nat)
    requires Valid(s) && i < |cids|
    ensures EmitUnwants(s, cids[i..]) == EmitUnwants(EmitUnwant(s, cids[i]), cids[i + 1..])
  {
    assert cids[i..][0] == cids[i] && cids[i..][1..] == cids[i + 1..];
  }

  function EmitUnwants(s: State, cids: seq<Cid>): (r: State)
    requires Valid(s)
    ensures Valid(r) && r.store == s.store && SameCounters(s, r) && r.fetches == s.fetches
    ensures Extends(s.log, r.log)
    decreases |cids|
  {
    if cids == [] then s
    else
      var m := EmitUnwant(s, cids[0]);
      assert m.log[..|s.log|] == m.log[..|s.log| + 1][..|s.log|];
      var r := EmitUnwants(m, cids[1..]);
      ExtendsTrans(s.log, m.log, r.log);
      r
  }
}
