# blocktracker in Dafny

A model of the block tracker in `blocktracker.go` and the fake client and scenario table in
`blocktracker_test.go`. The tracker watches the head of an Ethereum-style chain and keeps the
newest `maxReconcileBlocks` (10) blocks it has seen, oldest first. When a new head does not
extend that history, the tracker reconciles:
- it fetches missing ancestors by hash until one fits (a backfill);
- it cuts the history back to the fork point;
- it reports the blocks that joined the chain (`Added`) and the ones that left it (`Removed`).

Modules:

- `Chain` (chain.dfy): blocks as `(hash, parent)`, events, errors, and the block source as
  a map from hash to block (`Client`). `FetchByHash` is `BlockByHash` on that map.
- `History` (history.dfy): the bounded history as values.
  - `Add` is `addBlock`. `AddAll` adds blocks one at a time.
  - `Newest` is the newest ten entries of a sequence.
  - `IndexOf` is `parentHashInHistory`.
  - The lemmas relate these.
- `Reconciler` (reconciler.dfy): the reference definition `Reconcile`, stated parent-first.
  - `Lineage` walks back through the client from the observed block to the first block that
    fits on the history.
  - The history is then cut after `ForkIndex`.
  - The walked blocks are added oldest first.
  - `Terminates` is the termination precondition: the walk stops within a ghost `depth` of
    hops, and when it stops at a block that fits, the hashes along it are distinct.
- `ReconcileLoop` (reconcile_loop.dfy): the loop invariant of `handleReconcile`'s restarting
  walk, and one lemma per branch of the loop body. These are proof steps only.
- `Tracker` (tracker.dfy): class `BlockTracker` with the `blocks` field updated in place.
  - It has `addBlock`, `exists`, `parentHashInHistory`, the `removeBlock` closure, and
    `handleReconcile` as an imperative loop in place of the `goto`.
  - `HandleReconcile` is proved to end in the state and result that `Reconcile` gives. Its
    loop body is the method `ReconcilePass`.
  - `OnBlock` and `Dispatched` are the callback of `Start`.
- `Polling` (polling.dfy): the dedupe step of `polling` as a transition function, and the
  polling loop over a finite trace of fetch results.
- `DummyClient` (dummy_client.dfy): the map-backed `DummyEthClient`, the `mock` and `Parent`
  block builders, one Reconcile-level lemma per row of `TestReconcile`, and a method per row
  that runs the row through the fake client and the tracker.

The imperative model keeps the code's loop shape rather than a parent-first recursion.
- The code restarts from the original block every time an ancestor has been placed
  (blocktracker.go:146-150). So the walk is taken again from the top after each placement,
  not unwound one parent at a time.
- `HandleReconcile` keeps that loop shape. Its proof shows that it ends where the
  parent-first `Reconcile` does.

## Model

| member | source | states |
|---|---|---|
| Chain.FetchByHash | blocktracker.go:137-140 | a fetch succeeds exactly when the client holds the hash; it returns the stored block, whose hash is the one asked for, and otherwise an error naming the hash |
| History.AddShape | blocktracker.go:78-83 | addBlock keeps at most 10 blocks and puts the new block last; below capacity it appends and keeps every earlier entry; at capacity it drops exactly the oldest |
| History.AddIsNewest | blocktracker.go:78-83 | addBlock leaves the newest 10 blocks of the old history followed by the new block |
| History.AddAllIsNewest | blocktracker.go:78-83 | adding blocks one at a time leaves the newest 10 of the old history followed by the new blocks, within the bound |
| History.AddAllBelowCap | blocktracker.go:78-83 | below capacity, adding blocks one at a time appends them all |
| History.AddAllLast | blocktracker.go:78-83 | after adding blocks the history ends with the last block added |
| History.AddAllHashes | blocktracker.go:78-83 | adding blocks brings in no hash other than theirs |
| History.NewestKeeps | blocktracker.go:79-82 | eviction keeps the last block and the bound, and brings in no new hash |
| History.NewestLinked | blocktracker.go:79-82 | eviction keeps a linked history linked |
| History.IndexOf | blocktracker.go:155-162 | the smallest index whose hash matches, or -1 exactly when no entry has it |
| Reconciler.ForkIndex | blocktracker.go:126-133 | the cut point is -1 only for an empty history; otherwise it is an index of a block whose hash is the parent |
| Reconciler.Lineage | blocktracker.go:135-143 | the backfill walk is never empty and ends with the observed block |
| Reconciler.LineageStep | blocktracker.go:135-143 | every step of the walk starts at a block that did not fit, and fetches its parent from the client |
| Reconciler.LineageFacts | blocktracker.go:135-143 | over a well-keyed client the walk is linked; every block but the last came from the client under its own hash and is absent from the history |
| Reconciler.ReconcileEmpty | blocktracker.go:119-120 | on an empty history the block is added alone, with nothing removed |
| Reconciler.ReconcileKnown | blocktracker.go:122-124 | no event and no error exactly when the block's hash is already in the history, and the history is then unchanged |
| Reconciler.ReconcileSingle | blocktracker.go:126-133 | a new block whose parent is in the history is added alone after the fork point, and the tail after it is removed |
| Reconciler.ReconcileOnHistory | blocktracker.go:108-133 | a parent that is the last block gives plain extension with nothing removed; a parent elsewhere cuts after its first occurrence, and the cut blocks are reported oldest first |
| Reconciler.ReconcileFails | blocktracker.go:135-140 | over a fixed well-keyed client, a failed reconciliation leaves the history unchanged; it names a parent that is in neither the history nor the client; a block whose own parent is missing from both fails with that hash |
| Reconciler.ReconcileAddsChain | blocktracker.go:103-152 | the added blocks form a chain ending with the observed block; all were new to the history, and all but the last came from the client |
| Reconciler.ReconcileCutsAtFork | blocktracker.go:108-133 | removed is exactly the old history after the fork point, oldest first; the first added block's parent is the last kept block; the new history is the newest 10 of the kept prefix plus the added blocks, and ends with the observed block |
| Reconciler.ReconcileKeepsLinked | blocktracker.go:100-153 | reconciling keeps a linked history linked |
| Reconciler.ReconcileBounded | blocktracker.go:100-153 | reconciling never lets the history grow past 10 blocks |
| Reconciler.ReconcileTwice | blocktracker.go:122-152 | reconciling the same block twice in a row gives an event only the first time, and the second call changes nothing |
| Tracker.Dispatched | blocktracker.go:167-173 | an error is logged, a present event is sent, and an absent event sends nothing, each exactly in its case |
| Tracker.BlockTracker.constructor | blocktracker.go:58-65 | a new tracker starts with an empty history and the chosen mode |
| Tracker.BlockTracker.AddBlock | blocktracker.go:78-83 | the history becomes Add of the old history, within the bound |
| Tracker.BlockTracker.Exists | blocktracker.go:85-92 | true exactly when some block in the history has the block's hash |
| Tracker.BlockTracker.ParentHashInHistory | blocktracker.go:155-162 | the first index holding the hash, or -1 exactly when none does; equal to IndexOf, so it is -1 exactly when Exists is false |
| Tracker.BlockTracker.RemoveAfter | blocktracker.go:108-113 | the blocks after the index are returned oldest first, and the history is cut back to the index |
| Tracker.BlockTracker.ReconcilePass | blocktracker.go:117-144 | one pass either ends the reconciliation with exactly Reconcile's result and history, or fetches the walk's previous block, or places the current block while keeping the loop invariant |
| Tracker.BlockTracker.HandleReconcile | blocktracker.go:100-153 | the restarting loop returns Reconcile's result and leaves Reconcile's history, within the bound |
| Tracker.BlockTracker.OnBlock | blocktracker.go:165-177 | in reconcile mode the history becomes Reconcile's and the action is the dispatch of its result; otherwise the block alone is sent as added and the history is untouched |
| Tracker.DispatchOutcomes | blocktracker.go:166-177 | in reconcile mode the callback neither sends nor logs exactly for a known block; a logged failure leaves the history as it was; every sent event ends with the observed block, which ends the history |
| Polling.PollStep | blocktracker.go:189-199 | a failed fetch or a repeated head hash is skipped with the last head unchanged; otherwise the head is handed on once and becomes the last head |
| Polling.Poll | blocktracker.go:182-199 | the callback is handed the successfully fetched heads with runs of equal hash reduced to one, and the last head is the last one handed on |
| Polling.DedupeNoRepeats | blocktracker.go:194-199 | the callback never sees the same hash twice in a row |
| Polling.DedupeFromInput | blocktracker.go:189-199 | every head handed on was fetched, and the first fetched head is always handed on |
| Polling.DedupeCoversHashes | blocktracker.go:189-199 | every fetched hash is handed on at least once |
| DummyClient.Mock | blocktracker_test.go:74-79 | mock(n) has n's hash and n-1's as parent, so block 0's parent is 0xff in byte arithmetic |
| DummyClient.WithParent | blocktracker_test.go:65-68 | Parent keeps the hash and sets the parent hash |
| DummyClient.RegisteredWellKeyed | blocktracker_test.go:22-30 | registering blocks keeps every block stored under its own hash |
| DummyClient.RegisteredLookup | blocktracker_test.go:22-30 | after registering, a hash is served exactly when it was registered or was already served; the latest block registered under it wins, and other hashes are untouched |
| DummyClient.DummyEthClient.constructor | blocktracker_test.go:16-20 | a new fake client holds no blocks |
| DummyClient.DummyEthClient.AddBlock | blocktracker_test.go:28-30 | the block is stored under its hash, replacing any block stored there |
| DummyClient.DummyEthClient.AddBlocks | blocktracker_test.go:22-26 | the map becomes the old map with each block registered in turn |
| DummyClient.DummyEthClient.BlockByHash | blocktracker_test.go:32-42 | the registered block, or an error naming the hash exactly when none is registered; the same as FetchByHash on the map |
| DummyClient.DummyEthClient.BlockByNumber | blocktracker_test.go:44-46 | asking for the head by a nil number always fails on the fake |
| DummyClient.RunCase | blocktracker_test.go:205-221 | running a row through a fresh fake client and tracker ends in the Reconcile history of the bootstrapped history |
| DummyClient.ScenarioEmptyHistory | blocktracker_test.go:93-100 | an empty history plus 1 gives [1] |
| DummyClient.ScenarioRepeatedHeader | blocktracker_test.go:102-112 | [1] plus 1 stays [1] with no event |
| DummyClient.ScenarioNewHead | blocktracker_test.go:114-125 | [1] plus 2 gives [1, 2], with 2 added and nothing removed |
| DummyClient.ScenarioAlreadyOnHistory | blocktracker_test.go:127-141 | [1, 2, 3] plus 2 stays [1, 2, 3] with no event |
| DummyClient.MultiRollBackOutcome | blocktracker_test.go:143-158 | the multi-rollback outcome on the history itself |
| DummyClient.ScenarioMultiRollBack | blocktracker_test.go:143-158 | [1, 2, 3, 4] plus 0x30 (parent 2) gives [1, 2, 0x30], with 3 and 4 removed |
| DummyClient.BackfillClient | blocktracker_test.go:161-164 | the backfill row's client maps 3 and 4 to their blocks |
| DummyClient.BackfillWalk | blocktracker_test.go:160-179 | the walk from 5 goes back through 4 to 3, whose parent is in the history |
| DummyClient.BackfillTerminates | blocktracker_test.go:160-179 | the backfill row's walk ends, along distinct hashes |
| DummyClient.BackfillOutcome | blocktracker_test.go:160-179 | the backfill outcome on the client's map and the history |
| DummyClient.ScenarioBackfill | blocktracker_test.go:160-179 | history [1, 2] and a client with 3 and 4, plus 5, gives [1, 2, 3, 4, 5], with 3, 4, 5 added and nothing removed |
| DummyClient.RollBackClient | blocktracker_test.go:182-185 | the rollback row's client maps 0x30 and 0x40 to their blocks |
| DummyClient.RollBackWalk | blocktracker_test.go:181-202 | the walk from 0x50 goes back through 0x40 to 0x30, whose parent 2 is in the history |
| DummyClient.RollBackTerminates | blocktracker_test.go:181-202 | the rollback row's walk ends, along distinct hashes |
| DummyClient.RollBackOutcome | blocktracker_test.go:181-202 | the rollback-and-backfill outcome on the client's map and the history |
| DummyClient.ScenarioRollBackAndBackfill | blocktracker_test.go:181-202 | [1, 2, 3, 4] with a client holding 0x30 and 0x40, plus 0x50, gives [1, 2, 0x30, 0x40, 0x50], with 3 and 4 removed |
| DummyClient.CutAndAppend | blocktracker.go:108-133 | below capacity, a history that splits at the first block holding the walk's parent is kept up to it; the rest is reported removed and the walk is appended |
| DummyClient.RunEmptyHistory | blocktracker_test.go:93-100 | the row run through the tracker ends with [1] |
| DummyClient.RunRepeatedHeader | blocktracker_test.go:102-112 | the row run through the tracker ends with [1] |
| DummyClient.RunNewHead | blocktracker_test.go:114-125 | the row run through the tracker ends with [1, 2] |
| DummyClient.RunAlreadyOnHistory | blocktracker_test.go:127-141 | the row run through the tracker ends with [1, 2, 3] |
| DummyClient.RunMultiRollBack | blocktracker_test.go:143-158 | the row run through the tracker ends with [1, 2, 0x30] |
| DummyClient.RunBackfill | blocktracker_test.go:160-179 | the row run through the tracker ends with [1, 2, 3, 4, 5] |
| DummyClient.RunRollBackAndBackfill | blocktracker_test.go:181-202 | the row run through the tracker ends with [1, 2, 0x30, 0x40, 0x50] |

## Left out

- `WrappedClient` and `NewBlockTrackerWithEndpoint` (blocktracker.go:16-29, 67-76): thin wrappers over RPC dialing to a node.
- The goroutine, the `time.After` timer, `ctx.Done()` cancellation and the `EventCh` sends (blocktracker.go:165-203). These are concurrency and timing.
  - `PollStep` and `Poll` cover one tick and a finite trace of fetch results.
  - `OnBlock` and `Dispatched` cover what the callback does, returned as an `Action`.
  - `Start` itself, which only wires these together on a goroutine, is not a member.
  - `EventCh` is never created by `NewBlockTracker`. Whether a send ever completes is outside the model.
- The logger and the error strings built with `Hash.String()` (blocktracker.go:139, 170; blocktracker_test.go:35). Each error is a constructor carrying the hash.
- `common.Hash` and `byteToHash` (blocktracker_test.go:48-50). A hash is a natural number, and `byteToHash(x)` is read as the number x. Only equality of hashes is used.
- The fake client keys its map by the hash's text. The model keys it by the hash itself, which is the same map because the text is one-to-one.
- DummyClient.DummyEthClient.BlockByNumber: always fails. Polling calls it with a nil number, whose text is never the text of a hash, so the fake never serves a head. The model does not build the text.
- The test's `Eq` (blocktracker_test.go:70-72): it accepts a block whose hash or parent matches. The scenarios here are stated with exact equality, which is stronger.
- The test loop reconciles every block of a row's `Reconcile` list (blocktracker_test.go:219-221). Every row lists exactly one, so `RunCase` takes one block.
- The test loop compares lengths and entries (blocktracker_test.go:223-231); the scenario lemmas state the whole history instead.
- cmd/blocktracker/main.go is not part of this model: it is a command-line front end.
- Tracker.BlockTracker.HandleReconcile: it requires `Terminates`, a ghost bound on the backfill walk. The code has no bound and can loop forever on a cyclic or endless chain of parents held by the client.
  - The precondition also rules out an observed block whose hash is shared by one of the ancestors it fetches.
  - In that case the code's restart test, which compares hashes, would stop early.
- Tracker.BlockTracker.HandleReconcile: the client is a parameter, a fixed map for the whole call, rather than the tracker's field. The code calls a remote node.
  - With a live node, a fetch can fail on a later pass after an earlier pass has already cut and extended the history (blocktracker.go:128-133, then 146-150, then 137-140). The code then returns the error with `blocks` already changed, and drops the Removed blocks it had collected, so they are never reported. The model does not capture this: over a fixed map a failure always happens before anything is placed, which is why `ReconcileFails` can promise an unchanged history.
- Tracker.BlockTracker.HandleReconcile: it requires `WellKeyed(client)`, so every block the client serves carries the hash it was asked for. The fake client and a node both meet this. On a client that breaks it the code can diverge from the model. For example, with history `[Block(1, 0)]`, observed `Block(5, 9)` and a client that serves `Block(1, 0)` for 9, the code fetches that block, finds it in the history by `exists` (blocktracker.go:122-124) and returns no event and no error.
- Tracker.BlockTracker.ReconcilePass: the body of the source's loop, split out as its own method. It is not a separate function in the code.
- Tracker.BlockTracker.OnBlock: in reconcile mode it inherits the `WellKeyed` and `Terminates` preconditions and the fixed client map parameter of `HandleReconcile`, for the same reasons.
