# js-ipfs-bitswap exchange core in Dafny

This project models the two stateful components of js-ipfs-bitswap and proves
properties of them:

- The exchange orchestrator `Bitswap` (src/index.js). It keeps
  - the local blockstore,
  - three receive counters (`blocksRecvd`, `dupBlocksRecvd`, `dupDataRecvd`),
  - and the one-shot listeners that pending `get`/`getMany` calls register on the
    notification emitter.

  It also drives the want manager, the decision engine and the network.
- The network transport `Network` (src/components/network/index.js). It has
  - a `_running` flag that guards its entry points,
  - protocol handlers registered according to `b100Only`,
  - the dial fallback from `/ipfs/bitswap/1.1.0` to `/ipfs/bitswap/1.0.0`,
  - and the choice of serializer by the protocol actually dialed.

## Modules

- **`Types`**: shared values.
  - CIDs are byte sequences.
  - Blocks are a CID plus data.
  - Messages hold a want-list delta and blocks.
  - Errors are reduced to their message.
- **`ExchangeState`**: the orchestrator as a pure state machine.
  - A `State` holds
    - the blockstore (`map<Cid, Block>`),
    - the counters,
    - the listeners registered on the emitter (in registration order),
    - the closure state of every `getMany` call (`Fetch`: locals, missing, retrieved),
    - and an append-only `Event` log.
  - The log records calls into the decision engine, the want manager and the network, emitter emits, and callback invocations, in the order they happen.
  - The blockstore's answers are a parameter (`StoreFaults`): which CIDs make `has`, `put` or `get` fail, and whether the batched `putMany` fails.
- **`Bitswap`**: the class `Bitswap`.
  - Its fields mirror `State`.
  - Each method that changes fields is proved to leave `Model()` equal to the matching `ExchangeState` function applied to the old state. The plain forwarding methods (`CancelWants`, `OnPeerConnected`, `OnPeerDisconnected`, `AddListeners`) are specified by an explicit update of the old model instead.
  - Loops become `while` loops with invariants. They cover the `each` over message blocks, the `forEach` of `putMany`, the emit over listeners, the `has` partition, the listener registration and the `map` over locals.
- **`ExchangeProperties`**: lemmas about the state machine.
  - Receive counters, and "existing blocks are never re-stored or re-announced".
  - Ordering: cancel before handling, store before notifying.
  - The `getMany` partition, and how a pending `get` ends.
- **`Network`**: the class `Network` with its `running` field and a log of calls into libp2p, the DHT, content routing and the exchange. It also holds the pure decision functions `Fallback` (for `_dialPeer`) and `Serializer` (for the `switch` of `sendMessage`).
- **`NetworkProperties`**: lemmas about the network.
  - What `start`/`stop` leave bound.
  - How an incoming connection's stream is consumed.
  - Which dials and serializers are used.

## How the code's behaviour is modelled

The collaborators answer synchronously. Each answer is an input: a `StoreFaults` value, the set `wanted` that `wm.wantlist.contains` accepts, a `DialOutcome`, a `Frame` stream, or a provider lookup `Result`. The following follow from that choice, and from the code as written where it differs from the library's documented intent:

- **`async/each` with synchronous iteratees**
  - It visits every item.
  - Its final callback gets the first error.
  - So `_receiveMessage` handles every block even after one fails.
  - In `getMany` (src/index.js:258-271), a `has` error calls `finish` at once. Only the CIDs classified before the failing one are in `locals`.
- **`cleanupListener` removes nothing.**
  - At src/index.js:220 it is called with no argument.
  - At src/index.js:227 it is called with a CID object, whose string form is not the `cid.buffer.toString()` key the listener maps use.
  - So only the `once` registration removes a listener, when its own event fires. The sibling listener of the same CID stays registered.
- **The unwant listener (src/index.js:218-223) skips `finish`.** It calls the callback with nothing directly.
- **`getMany` ignores the error it finishes with** (src/index.js:245, 282).
  - A failing `findAndConnect` makes `finish` deliver the local blocks plus whatever was retrieved so far, not the error.
  - A failing `has` does the same, delivering the locals classified before it.
- **`findAndConnect` never calls back after a successful lookup.** The `each` at src/components/network/index.js:120 has no final callback, so only a lookup error reaches the caller.
- **`_dialPeer` reports the 1.0.0 error when both dials fail.** The 1.1.0 error is discarded, not combined with it. With synchronous dials, the `try` also covers the second dial, so an exception from either becomes the callback's error.
- **The unknown-protocol branch of `sendMessage` cannot be reached.** With `_dialPeer` as written, the protocol is always one of the two versions. `Serializer` still models the `switch`, including its "Unkown protocol" error, spelled as the code spells it.
- **Repeated `start` leaks peer-event listeners** (src/components/network/index.js:32-33, 41-42, 57-58).
  - Every `start` binds new listener functions and adds them beside the earlier ones.
  - `stop` removes only the functions bound last.
  - So the model counts listeners per event: after `start`, `start`, `stop` one listener per peer event is still registered.
- **The first CID decides provider lookup.** `getMany` asks `findAndConnect` only for `cids[0]`, even when that CID was found locally.

## Model

| member | source | states |
|---|---|---|
| ExchangeState.Initial | src/index.js:44-46 | the state a new exchange starts in, over any blockstore keyed by CID, satisfies the invariant every operation keeps: every listener and every local CID of a fetch refers to an existing fetch and a stored block |
| ExchangeState.FirstFault | src/index.js:338-340 | the `reject` over `has` fails exactly when some CID's existence check fails |
| ExchangeState.FirstFaultIsFirst | src/index.js:338-340 | the error reported is that of the first failing CID in input order |
| ExchangeState.Absent | src/index.js:338-340 | the blocks `reject` keeps are at most the input blocks |
| ExchangeState.Present | src/index.js:85-89 | every block is either present or absent, never both or neither (their counts add up to the input's) |
| ExchangeState.FiredMembers | src/index.js:235-242 | an emit on `block:`/`unwant:` of a CID invokes exactly the listeners registered for that event and CID |
| ExchangeState.KeptMembers | src/index.js:235-242 | and it leaves exactly the other listeners registered, because they were registered with `once` |
| ExchangeState.StoreAll | src/index.js:341 | the batched write stores exactly the given blocks, keyed by CID, and keeps every other entry |
| ExchangeState.StoreAllWrites | src/index.js:341 | each CID written holds the last block given for it |
| ExchangeState.ReadLocals | src/index.js:246-248 | the `map` over local CIDs succeeds iff no `get` fails, and otherwise reports the first failing CID's error |
| ExchangeState.Finish | src/index.js:245-255 | `finish` invokes the fetch's callback exactly once and changes nothing but the log |
| ExchangeState.OnBlockFired | src/index.js:225-233 | a block listener first cancels the want for its CID, appends the block to its fetch's retrieved blocks, touches no other fetch, and calls `finish` for its fetch exactly when as many blocks were retrieved as were missing |
| ExchangeState.OnUnwantFired | src/index.js:218-223 | an unwant listener cancels the want and then calls back with nothing, without `finish` |
| ExchangeState.EmitBlock | src/index.js:127-130 | the emit removes the fired listeners and then only runs listener reactions: store, counters and fetch splits stay |
| ExchangeState.EmitUnwant | src/index.js:293 | same for an `unwant:` emit, which also changes no fetch record |
| ExchangeState.PutBlock | src/index.js:121-140 | a store error is returned and changes nothing; on success the block is stored, emitted first, and `provide` then `receivedBlocks` come last; the provide outcome never reaches the caller |
| ExchangeState.Put | src/index.js:313-326 | a `has` error is returned unchanged and an existing block changes nothing and succeeds |
| ExchangeState.Announce | src/index.js:346-357 | one step of `putMany`'s `forEach` ends with `receivedBlocks` then `provide` for that block and leaves the store and counters alone |
| ExchangeState.AnnounceAll | src/index.js:346-357 | announcing changes neither the store nor the counters and only appends to the log |
| ExchangeState.PutMany | src/index.js:336-361 | `putMany` succeeds iff no `has` fails and the batched write succeeds; on failure nothing changes; on success exactly the absent blocks are added to the store |
| ExchangeState.HandleReceivedBlock | src/index.js:80-103 | each received block raises `blocksRecvd` by 1, and the duplicate counters by 1 and its data length exactly when it already existed; an existing block only changes the counters; the store changes only for a new block whose write succeeds |
| ExchangeState.HandleAll | src/index.js:72-76 | every block whose existence check succeeds is counted |
| ExchangeState.ReceiveMessage | src/index.js:53-78 | the engine is told first; an empty message does nothing else; otherwise one `cancelWants` of the wanted block CIDs comes before any block is handled, and every block whose check succeeds is counted |
| ExchangeState.Partition | src/index.js:258-271 | locals are in the store, missing are not, and the partition fails iff some existence check fails |
| ExchangeState.ListenersFor | src/index.js:211-243 | the listeners a fetch registers belong to it and to its missing CIDs |
| ExchangeState.GetMany | src/index.js:183-283 | `getMany` adds one fetch record holding its partition, and does not touch the store, the counters or earlier fetches |
| ExchangeState.Unwant | src/index.js:286-295 | `unwantBlocks` with all CIDs comes first; the store, counters and fetches stay |
| ExchangeState.EmitUnwants | src/index.js:292-294 | the unwant emits only append to the log |
| Bitswap.Bitswap.constructor | src/index.js:44-46 | all three counters start at 0 and the object is in the initial state |
| Bitswap.Bitswap.UpdateReceiveCounters | src/index.js:96-103 | `blocksRecvd` + 1; `dupBlocksRecvd` + 1 and `dupDataRecvd` + data length iff the block existed |
| Bitswap.Bitswap.OnPeerConnected | src/index.js:111-113 | the want manager is told of the peer and nothing else changes |
| Bitswap.Bitswap.OnPeerDisconnected | src/index.js:116-119 | the want manager and then the decision engine are told, and nothing else changes |
| Bitswap.Bitswap.PutBlock | src/index.js:121-140 | the fields end up exactly as `ExchangeState.PutBlock` says |
| Bitswap.Bitswap.Get | src/index.js:160-173 | `get` is `getMany` of one CID whose callback unwraps the first block |
| Bitswap.Bitswap.GetMany | src/index.js:183-283 | the fields end up exactly as `ExchangeState.GetMany` says |
| Bitswap.Bitswap.Classify | src/index.js:258-271 | the `each` over `has` computes exactly `ExchangeState.Partition` |
| Bitswap.Bitswap.AddListeners | src/index.js:211-243 | registration appends exactly the fetch's listeners and changes nothing else |
| Bitswap.Bitswap.Finish | src/index.js:245-255 | as `ExchangeState.Finish` |
| Bitswap.Bitswap.ReadAll | src/index.js:246-248 | the `map` loop computes exactly `ExchangeState.ReadLocals` |
| Bitswap.Bitswap.Deliver | src/index.js:250-253 | one callback invocation is appended to the log |
| Bitswap.Bitswap.OnBlockListener | src/index.js:225-233 | as `ExchangeState.OnBlockFired` |
| Bitswap.Bitswap.OnUnwantListener | src/index.js:218-223 | as `ExchangeState.OnUnwantFired` |
| Bitswap.Bitswap.EmitBlock | src/index.js:127-130 | the emit loop computes exactly `ExchangeState.EmitBlock` |
| Bitswap.Bitswap.EmitUnwant | src/index.js:293 | the emit loop computes exactly `ExchangeState.EmitUnwant` |
| Bitswap.Bitswap.Unwant | src/index.js:286-295 | as `ExchangeState.Unwant` of the CID or array given |
| Bitswap.Bitswap.EmitUnwantEach | src/index.js:292-294 | the `forEach` loop computes exactly `ExchangeState.EmitUnwants` |
| Bitswap.Bitswap.CancelWants | src/index.js:298-303 | one `cancelWants` with the CID or the array, and nothing else |
| Bitswap.Bitswap.Put | src/index.js:313-326 | as `ExchangeState.Put` |
| Bitswap.Bitswap.PutMany | src/index.js:336-361 | as `ExchangeState.PutMany` |
| Bitswap.Bitswap.Reject | src/index.js:338-340 | the `reject` loop reports the first `has` error, and otherwise keeps exactly the absent blocks in order |
| Bitswap.Bitswap.Announce | src/index.js:346-357 | as `ExchangeState.Announce` |
| Bitswap.Bitswap.AnnounceEach | src/index.js:346-357 | the `forEach` loop computes exactly `ExchangeState.AnnounceAll` |
| Bitswap.Bitswap.HandleReceivedBlock | src/index.js:80-94 | as `ExchangeState.HandleReceivedBlock` |
| Bitswap.Bitswap.ReceiveMessage | src/index.js:53-78 | as `ExchangeState.ReceiveMessage`, whatever the engine's error is |
| Bitswap.Bitswap.HandleBlocks | src/index.js:72-76 | the `each` loop computes exactly `ExchangeState.HandleAll` |
| Bitswap.Bitswap.Stat | src/index.js:377-385 | the snapshot holds the three counters and the collaborators' want list and peers |
| ExchangeProperties.AbsentMembers | src/index.js:338-340 | a block is kept by `reject` iff it is in the input and its CID is not stored |
| ExchangeProperties.PresentMembers | src/index.js:85-89 | a block counts as a duplicate iff it is in the input and its CID is stored |
| ExchangeProperties.CheckedMembers | src/index.js:84 | a block is counted iff its existence check succeeds |
| ExchangeProperties.ToCancelMembers | src/index.js:66-68 | a CID is cancelled iff it is a block CID of the message that the want list contains |
| ExchangeProperties.ToCancelSnoc | src/index.js:66-68 | the cancelled CIDs keep message order |
| ExchangeProperties.FiredKept | src/index.js:235-242 | an emit splits the registrations into fired and kept, each exactly once |
| ExchangeProperties.FiredAppend | src/index.js:235-242 | listeners fire in registration order |
| ExchangeProperties.ListenersForMembers | src/index.js:211-243 | every missing CID gets both a block and an unwant listener |
| ExchangeProperties.PartitionPermutation | src/index.js:258-271 | without a failing check, every requested CID lands in exactly one of locals and missing, as often as it was requested |
| ExchangeProperties.PartitionAllLocal | src/index.js:258-271 | when every CID is stored, all are local in request order and none is missing |
| ExchangeProperties.ReadLocalsValues | src/index.js:246-248 | a successful read returns the stored block of each local CID in request order |
| ExchangeProperties.FinishOrder | src/index.js:245-255 | `finish` delivers, as its one callback invocation, the local blocks in request order followed by the retrieved blocks in arrival order, unwrapped for `get` |
| ExchangeProperties.EmitBlockActions | src/index.js:127-130 | apart from listener reactions, an emit adds only itself |
| ExchangeProperties.PutBlockActions | src/index.js:121-140 | a successful `_putBlock` adds exactly emit, `provide`, `receivedBlocks` for that CID, once each, in that order |
| ExchangeProperties.PutActions | src/index.js:313-326 | `put` of an existing block or with a `has` error changes nothing; of a new block it adds exactly one emit, one `provide` and one `receivedBlocks` |
| ExchangeProperties.PutTwice | src/index.js:313-326 | a second `put` of the same block changes nothing and succeeds |
| ExchangeProperties.AnnounceActions | src/index.js:346-357 | one announcement adds exactly emit, `receivedBlocks`, `provide` for that block |
| ExchangeProperties.AnnounceAllActions | src/index.js:346-357 | the `forEach` adds exactly one announcement per block, in input order |
| ExchangeProperties.PutManyActions | src/index.js:336-361 | `putMany` announces exactly the blocks the store did not hold, in input order, and nothing when a check or the batched write fails |
| ExchangeProperties.EmitUnwantActions | src/index.js:293 | apart from listener reactions, an unwant emit adds only itself |
| ExchangeProperties.EmitUnwantsActions | src/index.js:292-294 | exactly one unwant emit per CID, in order |
| ExchangeProperties.UnwantActions | src/index.js:286-295 | `unwant` calls `unwantBlocks` once with all CIDs, then emits exactly one unwant per CID |
| ExchangeProperties.ReceiveCounts | src/index.js:72-103 | over a message's distinct blocks, `blocksRecvd` rises by their number, the duplicate counters by the number and size of the existing ones, and exactly the new ones are stored |
| ExchangeProperties.ReceiveMessageCounts | src/index.js:53-103 | the same for a whole `_receiveMessage` call |
| ExchangeProperties.GetManyLocal | src/index.js:245-283 | when every CID is local, no listener, want or lookup happens, and the callback gets the stored blocks in request order (the first one for `get`) |
| ExchangeProperties.GetManyWaits | src/index.js:272-282 | with missing CIDs, listeners for them are registered, `wantBlocks` and then `findAndConnect` are called, and the callback fires only if the lookup fails |
| ExchangeProperties.GetManyCheckFails | src/index.js:258-263 | a failing existence check calls back at once, with no listener, want or lookup |
| ExchangeProperties.FireBlocksOther | src/index.js:225-233 | block listeners of other fetches leave a fetch's record alone |
| ExchangeProperties.GetPending | src/index.js:183-283 | `get` of a missing block records an empty fetch and registers its unwant and block listeners after all others |
| ExchangeProperties.BlockListenerFinishes | src/index.js:225-233 | the block listener that brings the last missing block makes `finish` call back with the locals, the earlier retrieved blocks and that block |
| ExchangeProperties.FireBlocksArrive | src/index.js:225-242 | while an emit's listeners fire, a fetch's one block listener appends the block to what it retrieved and, when it was the last one missing, the fetch calls back |
| ExchangeProperties.EmitArrives | src/index.js:225-242 | the same for a whole `block:` emit over the registered listeners |
| ExchangeProperties.ArrivalsComplete | src/index.js:225-255 | emitting the remaining missing blocks of a fetch, each with its one block listener, in any order, makes it call back with the locals, the retrieved blocks and the emitted ones in emit order |
| ExchangeProperties.WaitingCompletes | src/index.js:211-255 | a fetch that has retrieved nothing and registered listeners for its missing CIDs calls back with its local blocks then the emitted blocks once those blocks are emitted |
| ExchangeProperties.GetManyCompletes | src/index.js:183-283 | a `getMany` that waits for k missing CIDs calls back, once blocks for them are emitted, with the stored local blocks in request order followed by the emitted blocks in emit order (the first one for `get`) |
| ExchangeProperties.EmitCompletesGet | src/index.js:127-130 | emitting the block of a pending `get` whose block listener is still registered, anywhere among the listeners, ends with its callback receiving the block |
| ExchangeProperties.PutCompletesGet | src/index.js:313-326 | `put` of a new block, in any state where a pending `get` for it still listens, succeeds and answers that `get` with the block |
| ExchangeProperties.GetThenPut | src/index.js:160-173 | a `get` waiting for a block is answered with exactly that block when the block is `put` next, whatever the store does for other CIDs |
| ExchangeProperties.FireUnwantsEnd | src/index.js:218-223 | every unwant listener that fires calls back its fetch with nothing |
| ExchangeProperties.UnwantEndsGet | src/index.js:218-223 | emitting the unwant of a CID that a fetch still listens for ends with that fetch's callback receiving nothing |
| ExchangeProperties.EmitUnwantsEnd | src/index.js:292-294 | the same when the CID is one of several unwanted in order |
| ExchangeProperties.UnwantEndsFetch | src/index.js:286-295 | `unwant` of CIDs including one a fetch listens for ends that fetch with nothing |
| ExchangeProperties.GetThenUnwant | src/index.js:286-295 | a `get` waiting for a block ends with nothing when `unwant` is next called with any CIDs that include it |
| Network.HandlesProtocols | src/components/network/index.js:36-39 | the handlers are 1.0.0 and, unless `b100Only`, 1.1.0, in that order |
| Network.Pipeline | src/components/network/index.js:67-86 | a connection makes at most one call per frame plus one error report |
| Network.Halt | src/components/network/index.js:70-84 | a frame that is not clean makes one or two calls, the last an error report |
| Network.Fallback | src/components/network/index.js:163-185 | 1.1.0 iff its dial connects; 1.0.0 iff 1.1.0 is refused and 1.0.0 connects; the connection of that dial; otherwise the thrown error, or the 1.0.0 error |
| Network.Serializer | src/components/network/index.js:143-153 | 1.0.0 format iff protocol 1.0.0, 1.1.0 format iff protocol 1.1.0, otherwise the "Unkown protocol" error |
| Network.Send | src/components/network/index.js:138-160 | `sendMessage` succeeds iff the dial succeeds; then exactly one write in the dialed protocol's format follows the dials; otherwise the dial error and nothing written |
| Network.Network.constructor | src/components/network/index.js:18-27 | a new transport is not running and has made no calls |
| Network.Network.Start | src/components/network/index.js:29-47 | running; handles 1.0.0 and 1.1.0 unless `b100Only`; listens for both peer events; forwards each known peer |
| Network.Network.Stop | src/components/network/index.js:49-59 | not running; unhandles the same protocols and removes both listeners |
| Network.Network.OnConnection | src/components/network/index.js:62-87 | while stopped nothing happens; otherwise exactly the pipeline's calls |
| Network.Network.Consume | src/components/network/index.js:67-86 | the stream loop makes exactly the calls `Pipeline` describes |
| Network.Network.OnPeerConnect | src/components/network/index.js:89-95 | forwards the peer to the exchange iff running |
| Network.Network.OnPeerDisconnect | src/components/network/index.js:97-103 | forwards the peer to the exchange iff running |
| Network.Network.ConnectTo | src/components/network/index.js:105-111 | while stopped fails with "No running network" and dials nothing; otherwise dials once and passes the outcome on |
| Network.Network.FindProviders | src/components/network/index.js:113-115 | one DHT lookup with the fixed timeout, and its answer passed on |
| Network.Network.FindAndConnect | src/components/network/index.js:117-122 | a lookup error reaches the callback and nothing is dialed; after a successful lookup, each provider is passed to `connectTo`, which dials only while running, and the callback never fires |
| Network.Network.Provide | src/components/network/index.js:124-126 | one content-routing call, and its outcome passed on |
| Network.Network.DialPeer | src/components/network/index.js:163-185 | the outcome is `Fallback`'s, and 1.0.0 is dialed only after 1.1.0 is refused |
| Network.Network.SendMessage | src/components/network/index.js:130-161 | while stopped fails with "No running network" and dials nothing; otherwise as `Send` |
| NetworkProperties.ApplyConnects | src/components/network/index.js:44-46 | forwarding peers binds nothing |
| NetworkProperties.Served | src/components/network/index.js:36-39 | 1.0.0 is always served and 1.1.0 iff not `b100Only`, nothing else |
| NetworkProperties.StartBinds | src/components/network/index.js:29-47 | `start` adds the served protocols to the handled ones and one more listener on each peer event |
| NetworkProperties.StopUnbinds | src/components/network/index.js:49-59 | `stop` unhandles exactly those protocols and removes one listener from each peer event |
| NetworkProperties.StartThenStop | src/components/network/index.js:29-59 | from nothing bound, `start` then `stop` leaves nothing bound |
| NetworkProperties.RestartLeaks | src/components/network/index.js:29-59 | from nothing bound, `start`, `start`, `stop` leaves no protocol handled but one listener on each peer event |
| NetworkProperties.ConnectsIndex | src/components/network/index.js:44-46 | one peer-connected notification per known peer, in order |
| NetworkProperties.PipelineShape | src/components/network/index.js:67-86 | every call but the last hands a message to the exchange, and the last is a message or an error report |
| NetworkProperties.PipelineClean | src/components/network/index.js:67-86 | clean frames are handed over one by one in order, then the stream's end error is reported if any |
| NetworkProperties.PipelineStops | src/components/network/index.js:67-86 | the first bad frame ends the stream: later frames are never read and its error is reported |
| NetworkProperties.SerializerOfDialed | src/components/network/index.js:143-153 | a successful dial always has a serializer, the 1.0.0 one iff the dial used 1.0.0 |
| NetworkProperties.DialOrder | src/components/network/index.js:163-185 | 1.1.0 is always dialed first; 1.0.0 is dialed iff 1.1.0 is refused |
| NetworkProperties.DialsIndex | src/components/network/index.js:120 | one dial per provider, in order |
| NetworkProperties.FindAndConnectDials | src/components/network/index.js:117-122 | a failed lookup or a stopped network dials nobody; otherwise every provider is dialed once, in order |

## Left out

- The pull-stream pipeline, the length-prefixed framing, `Message.deserialize` and `writeMessage` are not modelled. An incoming stream is a sequence of `Frame`s (decoded message, peer lookup answer, the exchange's answer) and an end error.
- The serializers `serializeToBitswap100`/`serializeToBitswap110` are opaque. A write records the format and the message.
- The write's own outcome in `sendMessage` is only logged by the code, so the model ignores it.
- libp2p, the DHT, content routing, the want manager and the decision engine are logged calls. Their answers are inputs.
- `_receiveError` only logs, so it is the `ReceiveError` event.
- `wantlistForPeer` and `getWantlist` only forward to the decision engine and the want manager. `Stat` takes their answers as inputs.
- Bitswap `start`/`stop` (src/index.js:392-407) only start and stop the collaborators, and are not part of this model.
- The outcome of `network.provide` and the error from `engine.messageReceived` are only logged. The model takes the latter as an unused input.
- The values in the constants module (`maxProvidersPerRequest`, `providerRequestTimeout`, `maxListeners`) are constructor parameters, and `setMaxListeners` and `debug` logging are not modelled.
- Asynchrony and concurrency are not modelled: there are no interleavings between peers and no ordering races between unwant and block listeners. Every collaborator answers synchronously, and one operation runs at a time.
- Listener keys are `cid.buffer.toString()`, which can collide for different byte strings. The model compares CIDs as byte sequences.
- The model makes no claim that a `getMany` callback fires exactly once or that listeners are always removed. The code guarantees neither, and the model keeps the sibling listener registered.
- The peer book's key order is an input sequence of peers.
- JavaScript numbers are doubles. The counters are unbounded naturals, since they stay far below 2^53 in practice.
- ExchangeProperties.ReceiveCounts: requires that the message's blocks have distinct CIDs and that neither `has` nor `put` fails. A message's block map has distinct keys; with failures the counters are still given per block by `ExchangeState.HandleReceivedBlock`.
- ExchangeProperties.ReceiveMessageCounts: same conditions as ReceiveCounts, for the same reason.
- ExchangeProperties.GetThenPut: requires that the block's own `has` and `put` succeed. When they fail, the `put` error is already described by `ExchangeState.Put`.
- ExchangeProperties.GetThenPut: states the `put` that comes right after the `get`. PutCompletesGet states it for any later state that still holds the block listener, but the model does not prove that operations in between leave that listener registered.
- ExchangeProperties.GetThenUnwant: states the `unwant` that comes right after the `get`. UnwantEndsFetch states it for any later state that still holds the unwant listener, with the same gap.
- ExchangeProperties.GetManyCompletes: states the emits that come right after the `getMany`. ArrivalsComplete states them for any later state that still holds one block listener per remaining block, with the same gap.
- ExchangeProperties.GetManyCompletes: requires the emitted blocks to have distinct CIDs, no failing `get` of a local CID, and the emits to follow one another with nothing in between.
