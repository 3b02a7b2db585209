# Nullspace verification model

A Dafny 4.11 model of the parts of the nullspace repository whose correctness is hardest to see by reading: the
two-log crash recovery of the execution layer, the bounded indexes of the simulator and explorer, the lossy channel
of the client, the small state machines of the web backend, and the arithmetic and codecs behind token state and
reward claims. To check it, run `dafny verify dfyconfig.toml` in this directory.

Code that changes state is a class whose methods make the same steps and are proved against a specification
function or a ghost history; the theorems are lemmas about those specifications, over all inputs and all runs.

| file | what it models |
|---|---|
| `Overlay.dfy`, `Turns.dfy` | the key-value state, the copy-on-write overlay of a block, nonces, the transaction loop; a block told turn by turn |
| `StateTransition.dfy` | `execute_state_transition`, one durable write at a time, with a crash possible before each |
| `CrashRecovery.dfy`, `ChainReports.dfy` | whole runs of calls and crashes against the crash-free chain of stores; what each block adds and what is reported for it |
| `LossyChannel.dfy` | the lossy channel and its waker, every interleaving of senders and receiver |
| `ExplorerLru.dfy` | the token-queue LRU used for accounts and for game events |
| `Retention.dfy` | ordered maps that keep their greatest keys |
| `BlockIndex.dfy`, `BlockListing.dfy` | the five block and transaction maps of the explorer, retention, what the entries say, page links and listing |
| `Persistence.dfy`, `Reload.dfy` | the SQL tables as maps, the batching and pruning worker, loading them back |
| `Counting.dfy`, `Summaries.dfy`, `SimulatorState.dfy` | reference-counted proof nodes, duplicate submissions, seed and key histories, queries |
| `NodeLeaks.dfy` | over which runs of submissions the proof-node counts stay exact |
| `EventIndex.dfy`, `EventRouting.dfy`, `Subscriptions.dfy` | routing events to subscribers, whom each event reaches, and the counts that decide who they are |
| `WsConnections.dfy`, `Supervisor.dfy` | guard-counted connections; the swap-remove notifier |
| `EvmLinks.dfy`, `RateLimiter.dfy` | EVM address links with their cooldown; the fixed-window rate limiter |
| `Claims.dfy` | bid capping and pool scaling of the eligibility snapshot |
| `Bytes.dfy`, `TokenCodec.dfy`, `MetadataCodec.dfy`, `WireLayout.dfy` | the binary form of token accounts and token metadata, and where each field stands in it |
| `Fixed.dfy` | four-digit fixed-point decimals |

What is taken as given:

- **Storage.** An operation is durable once the commit after it has returned; a crash, or any error after the first
  append, drops the uncommitted suffix. `Stores` counts writes with a fuse, and every place it can burn out is
  covered.
- **Game rules.** What a transaction does after its nonce is accepted is an arbitrary function of the seed, the
  committed contents, the overlay and the transaction; it may fail, and it does not write account records. That it
  is a function at all is the determinism the execution crate demands of itself (`execution/src/lib.rs:6-13`).
- **Codec library.** Integers are big-endian, a flag is one byte, a decoder rejects bytes left over, public keys are
  ordered by their 32 bytes. Which 32 bytes are curve points and which bytes are UTF-8 are parameters.
- **Clocks, network and randomness** are parameters; a mutation that throws changes nothing.

What the proofs showed about the code, beyond its promises holding:

- A block index stays coherent exactly when retained blocks share no block or transaction digest
  (`CoherentExactlyWhenFresh`, over whole runs `CoherentThroughoutIff`); a shared digest is lost with whichever block
  goes first.
- A pagination link with page size zero points at itself (`PagesTile`).
- The channel can report its end while an item is queued, even to a sender that closed only after its push had
  returned (`EndBeforeDrained`). An end is sure to be a drained one exactly when, at the empty pop, the channel is
  closed and no push is under way (`EndIsDrainedIff`).
- Proof-node counts stay exact in every run exactly when `submission_history_limit` is unset or
  `state_max_progress_entries` is zero (`CountsStayExactIff`): a height forgotten as submitted but still retained can
  be submitted again, and its first list is then never given back.
- After one user unlinks an address and another links it, the new owner cannot refresh it: two rows hold the address
  and the unique lookup throws, until the first user moves to another address (`RefreshSucceedsIff`,
  `OwnerCannotRefresh`, `OwnerCanRefreshAgain`).
- The rate limiter accepts at most one request less than twice its maximum in any window-long interval, and that is
  exact (`IntervalBound`, `BoundIsReached`). It holds for every run of a set of keys exactly when there is a bucket
  for each of them (`BoundHoldsIff`).
- Whatever order blocks arrive in and however they are batched, a restart brings back the live index, parents
  aside, exactly when the live index retains no height outside the window below the greatest one
  (`ReloadReproducesLive`). Heights without gaps never leave it (`NoGapsInWindow`); heights 1 and 10 with a limit of
  two do, and the restart loses a block that was being served (`GapIsPruned`).
- A failed proof leaves a mentioned account with the public update alone (`ServedInFullIff`).
- A links file in which no entry is usable removes every cap (`CapsOffIff`), and an overdrawn pool can round all
  claims to nothing (`GivesUpIff`, `PoolRoundsToNothing`).
- Token metadata with texts longer than the reader allows is written without complaint and cannot be read back
  (`MetadataRoundTripIff`).
- `i32::MIN / -1` is the one fraction that does not round to its nearest integer (`RoundsToNearestIff`).

## Model

| member | source | states |
|---|---|---|
| `Overlay.Memory.Apply` | execution/src/state.rs:60-68 | applying a list of changes in order leaves the contents `ApplyAll` names |
| `Overlay.AppliedAt` | execution/src/state.rs:60-68 | a key ends up with exactly the status listed for it last |
| `Overlay.View.Get` | execution/src/state.rs:210-216 | a read sees the pending entry, a pending deletion hides the base |
| `Overlay.OverlayMatchesApply` | execution/src/state.rs:209-227 | reading through the overlay equals reading the base after its pending entries are applied in any order |
| `Overlay.View.Prepare` | execution/src/state.rs:159-207 | a transaction is admitted exactly when it carries the stored nonce, which then rises by one; a rejected one leaves the overlay unchanged |
| `Overlay.View.Execute` | execution/src/layer/mod.rs:623-652 | the loop over transactions: mismatches are dropped, any other error ends the block; outputs, nonces and overlay are those of `Executed`, which `Turns.BlockHappens` and `Turns.BlockFails` tell by reads and positions |
| `Turns.BlockHappens` | execution/src/layer/mod.rs:623-676 | a block is one turn per transaction: each reads what the earlier ones left, is accepted exactly when it carries the stored nonce, and then runs the rules with the nonce raised; a game key reads what its last writer wrote, and the outputs are the turns' events in order, each turn's transaction last |
| `Turns.AcceptedReads` | execution/src/layer/mod.rs:623-676 | after an accepted transaction exactly the keys its effects list and its sender's account read differently |
| `Turns.BlockFails` | execution/src/layer/mod.rs:631-648 | a block that does not execute has a first transaction that carries the stored nonce and overflows it or fails in the rules, and fails with that error |
| `Overlay.AcceptedNoncesAreConsecutive` | execution/src/state.rs:159-207 | over any transaction list an account's accepted nonces are base, base+1, ..., the stored nonce ends one past the last, and the reported nonce agrees |
| `Overlay.NoNonceAcceptedTwice` | execution/src/state.rs:166-178 | two accepted transactions of one account never carry the same nonce |
| `StateTransition.Stores.Transition` | execution/src/state_transition.rs:75-292 | one call, write by write, leaves durable and returns exactly what `Attempt` says for every place a crash can fall, on every branch and error |
| `StateTransition.Stores.LogBlock` | execution/src/state_transition.rs:140-178 | the normal order: outputs are durable all together or not at all |
| `StateTransition.Stores.CheckBlock` | execution/src/state_transition.rs:193-255 | the recovery checks in order, each with its error, and no store touched |
| `StateTransition.Stores.FinishBlock` | execution/src/state_transition.rs:180-191 | changes are durable all together with the block's height or not at all |
| `StateTransition.Stores.Matches` | execution/src/state_transition.rs:243-255 | the comparison loop decides equality of the committed slice with the re-executed outputs |
| `StateTransition.Stores.AppendEvents` | execution/src/state_transition.rs:165-171 | outputs reach the log in order until the crash, and none of them is durable before the commit |
| `StateTransition.Stores.ApplyState` | execution/src/state_transition.rs:180-184 | changes reach the state in order until the crash, and none of them is durable before the commit |
| `CrashRecovery.ChainExists` | execution/src/state_transition.rs:89-292 | for every schedule of blocks there is a crash-free chain, up to the first block the rules reject |
| `CrashRecovery.CallStaysOnChain` | execution/src/state_transition.rs:89-292 | any call at any fuse moves on-chain stores only to on-chain stores, with events at the state height or one above, and with no mismatch error |
| `CrashRecovery.RecoveryMatches` | execution/src/state_transition.rs:193-269 | a half-committed block recovers with the report of an uninterrupted one |
| `CrashRecovery.CrashingRunsFollowTheChain` | execution/src/state_transition.rs:89-292 | after any calls and crashes both stores equal the crash-free ones for the completed height, the events possibly one block ahead, and the reports of completed blocks are exactly the crash-free ones |
| `CrashRecovery.EveryCallStaysOnChain` | execution/src/state_transition.rs:89-292 | from every reachable state the next call stays on the chain, mismatch errors are unreachable, one crash-free call for the next height completes it, and a call for a height already done reports both logs as they are with no transaction |
| `CrashRecovery.RangesTileBothLogs` | execution/src/state_transition.rs:140-292 | over any run the reported start and end ranges of successive heights tile the state log and the events log with no gap or overlap |
| `CrashRecovery.RecoverySucceedsIff` | execution/src/state_transition.rs:193-269 | whatever the stores hold and wherever the process stops, recovery succeeds exactly when the log ends with a commit, reads as if the outputs executed anew had been appended at the recorded start, and the process survives; otherwise nothing durable changes |
| `CrashRecovery.RecoveryFailsWith` | execution/src/state_transition.rs:193-269 | otherwise the first unmet condition, by positions of the log, is the error |
| `CrashRecovery.TurnedAwayIff` | execution/src/state_transition.rs:89-138 | whatever the stores hold, which calls are turned away and with what, and what is returned for a height already done |
| `CrashRecovery.HeightsAre` | execution/src/state_transition.rs:89-108 | a state is at the height its last commit names, else at zero; the log's metadata are those of its last commit |
| `CrashRecovery.Recover` | execution/src/state_transition.rs:193-269 | the same of the running code |
| `CrashRecovery.ChainNonces` | execution/src/state_transition.rs:140-192 | along the chain an account's logged nonces are consecutive and the stored nonce is the next one |
| `CrashRecovery.NoTransactionLoggedTwice` | execution/src/lib.rs:11-13 | however a run crashes and recovers, no two logged transactions of an account carry the same nonce |
| `ChainReports.BlockOnChain` | execution/src/state_transition.rs:140-192 | at every height of the chain the log gained exactly the outputs of the block's turns and one commit naming height and start, the state reads what the turns left, and its commit names height and start |
| `ChainReports.BlockOps` | execution/src/state_transition.rs:180-191 | the state log grows by what each change logs where it is applied, by raising the floor, and by the commit |
| `ChainReports.ReportsTell` | execution/src/state_transition.rs:159-292 | over any run of calls and crashes the report of a height has the roots and ends of both logs after it and the starts before it, counts the positions at which it logged a transaction, and names exactly the accounts that sent one, each with the nonce its record then carries |
| `LossyChannel.Channel.Push` | client/src/events.rs:53-71 | without interference: a closed channel refuses, a full one drops its oldest item, the new one goes last and the receiver is woken |
| `LossyChannel.Channel.PollRecv` | client/src/events.rs:91-108 | without interference: an item, the end, or parked with a waker registered |
| `LossyChannel.PushAlone` | client/src/events.rs:53-71 | the steps of a push with nothing between them, in any interleaving that led there, do just that |
| `LossyChannel.CloseAlone` | client/src/events.rs:73-76 | likewise a close |
| `LossyChannel.PollFindsItem` | client/src/events.rs:91-95 | a poll hands over the oldest item |
| `LossyChannel.PollLooksOnce` | client/src/events.rs:91-98 | a poll of an empty channel reports the end exactly when it is closed |
| `LossyChannel.PollLooksAgain` | client/src/events.rs:100-108 | and otherwise parks with a waker registered |
| `LossyChannel.NoLostWakeup` | client/src/events.rs:52-108 | in every interleaving a parked receiver with an item or the end to see is scheduled or some sender is still before its wake |
| `LossyChannel.WakeSchedules` | client/src/events.rs:52-77 | that sender's wake does schedule the parked receiver |
| `LossyChannel.DeliversInOrder` | client/src/events.rs:52-108 | the queue is a contiguous suffix of everything pushed within capacity, the items handed over are those pushed at strictly increasing positions, and every item is queued, received or dropped, none twice |
| `LossyChannel.BoundedExactlyWhenPositive` | client/src/events.rs:64-67 | the capacity bounds the queue in every run exactly when it is not zero |
| `LossyChannel.EndBeforeDrained` | client/src/events.rs:91-108 | the end can be reported while an item is queued, its push having returned before the close |
| `LossyChannel.EndIsDrainedIff` | client/src/events.rs:91-108 | after an empty pop, whatever the senders still do, a reported end is a drained one exactly when the channel is closed and no sender is between its open check and its push |
| `LossyChannel.OrderlyCloseLosesNothing` | client/src/events.rs:52-108 | when every close waits for the pushes to return, a poll that begins after the close reports the end only once every item was received or dropped for a newer one |
| `LossyChannel.ClosedTakesNothing` | client/src/events.rs:52-77 | a closed channel with no push under way takes nothing more |
| `LossyChannel.DrainedExactlyWhenNothingPushed` | client/src/events.rs:91-108 | between the empty pop and the closed check the queue stays empty exactly when no push reaches it |
| `ExplorerLru.MostRecentIsUnique` | simulator/src/explorer.rs:135-221 | "the k most recently touched keys" leaves no choice of keys |
| `ExplorerLru.LruIndex.Record` | simulator/src/explorer.rs:301-317 | after any touches the map holds exactly the k most recently touched keys, the touched entry is updated, the others unchanged, and the queue is at most max(2k, 1) long |
| `ExplorerLru.LruIndex.Enforce` | simulator/src/explorer.rs:195-221 | popping skips stale pairs and stops at exactly the limit |
| `ExplorerLru.LruIndex.Compact` | simulator/src/explorer.rs:159-193 | rebuilding the queue from current tokens loses no key and bounds it |
| `ExplorerLru.AgreeAfterTouch` | simulator/src/explorer.rs:135-157 | a touch keeps tokens, queue and history in agreement |
| `ExplorerLru.CurrentIsOldest` | simulator/src/explorer.rs:195-221 | a popped pair that is current belongs to the key touched longest ago |
| `Retention.InsertBounded` | simulator/src/state.rs:1067-1075 | insert and pop-first keep the entries of the unbounded map at its greatest keys |
| `Retention.BoundedKeepsTop` | simulator/src/state.rs:1186-1208 | a bounded history still ends in the last write to the greatest key ever written, unless the bound is zero |
| `Retention.TopIsHighest` | simulator/src/state.rs:1186-1208 | that write is what the unbounded history holds at its greatest key |
| `Retention.TopIsLast` | simulator/src/state.rs:1008-1023 | that write is the last one to a key that no other write exceeds |
| `Retention.WrittenIsLast` | simulator/src/state.rs:1099-1100 | a key holds what was written to it last |
| `BlockIndex.ExplorerState.ApplyBlockIndexing` | simulator/src/explorer.rs:607-693 | the in-place updates of the five maps and the retention loop leave exactly `Indexed`; a known height changes nothing |
| `BlockIndex.ExplorerState.EnforceBlockRetention` | simulator/src/explorer.rs:115-133 | the lowest heights go until few enough are left, with everything recorded for them |
| `BlockIndex.CoherentExactlyWhenFresh` | simulator/src/explorer.rs:614-692 | one more block keeps the maps mutually inverse exactly when no retained block shares its block digest or a transaction digest |
| `BlockIndex.RetainsGreatestHeights` | simulator/src/explorer.rs:115-133 | for any arrival order the retained heights are the greatest ever applied |
| `BlockIndex.FreshRunsStayCoherent` | simulator/src/explorer.rs:607-693 | over any run of fresh blocks the maps stay mutually inverse over exactly the retained heights |
| `BlockIndex.CoherentThroughoutIff` | simulator/src/explorer.rs:607-693 | the maps are mutually inverse after every prefix of a run exactly when each block, on arrival, shares no digest with a retained one |
| `BlockListing.BlockTells` | simulator/src/explorer.rs:625-690 | over any run each retained height was indexed from a block that arrived for it, and its entries say that block's height, view, digest, time and transactions, in order and number |
| `BlockListing.ParentOnArrival` | simulator/src/explorer.rs:618-623 | a new block's parent is the retained block one height below, and no other block changes |
| `BlockListing.TransactionTells` | simulator/src/explorer.rs:629-645 | over a run of fresh blocks the entry of a digest is that of the last transaction with it in its block, with its position modulo 2^32 |
| `BlockListing.TransactionFound` | simulator/src/explorer.rs:629-645 | and only digests of retained blocks are found |
| `BlockListing.ListBlocks` | simulator/src/explorer.rs:747-781 | a page holds, newest first, the blocks with `offset` and more newer ones, 20 of them unless asked otherwise and never more than 200, and links to the next one exactly when a block is left |
| `BlockIndex.PagesTile` | simulator/src/explorer.rs:747-781 | following the page links reads every item once, in order, exactly when pages are not empty or nothing remains |
| `Persistence.Database.PersistBlock` | simulator/src/explorer_persistence.rs:345-364 | a block replaces its row and all its operations, and touches no other height |
| `Persistence.Database.PruneToMinHeight` | simulator/src/explorer_persistence.rs:254-270 | exactly the rows and operations below the minimum go |
| `Persistence.Database.LoadOps` | simulator/src/explorer_persistence.rs:327-343 | the operations come back in their order |
| `Persistence.Database.Load` | simulator/src/explorer_persistence.rs:272-325 | the query returns the blocks at the greatest heights, ascending, with their operations |
| `Persistence.Worker.Drain` | simulator/src/explorer_persistence.rs:554-602 | whatever order the blocks come in and however the queue is split into batches, from the lower end of the window up the tables hold exactly the last block written for each height; in ascending order nothing else is left |
| `Persistence.PruningIsRight` | simulator/src/explorer_persistence.rs:575-600 | pruning to a batch's own minimum, or skipping it, never touches the window over everything written; in ascending order it leaves exactly that window |
| `Reload.WindowIs` | simulator/src/explorer_persistence.rs:575-600 | that window holds, for each height written that lies less than the limit below every other, the block written for it last |
| `Reload.LoadReturnsSuffix` | simulator/src/explorer_persistence.rs:272-325 | after blocks in ascending order what is loaded is the last part of everything written, oldest first; the last `limit` blocks when heights are successive |
| `Reload.AscendingSettles` | simulator/src/explorer.rs:607-693 | indexing blocks in ascending order leaves each retained block as written, its parent the block written for the height before |
| `Reload.RetainedArePersisted` | simulator/src/explorer.rs:703-723 | in any arrival order each retained block was handed to the worker, and no other block for its height after it |
| `Reload.PersistedHeights` | simulator/src/explorer.rs:703-723 | every height that arrived was handed to the worker, although repeats of retained ones are not |
| `Reload.DistinctRunsAreFresh` | simulator/src/explorer.rs:607-693 | blocks of different heights that share no digest are fresh on arrival, in any order and however often they are repeated |
| `Reload.HeightsReloadedIff` | simulator/src/explorer_persistence.rs:554-602 | for any arrival order and any limit but zero the window of the tables has the live index's heights exactly when the live index retains nothing outside it |
| `Reload.ReloadReproducesLive` | simulator/src/explorer_persistence.rs:272-325 | for any arrival order of fresh blocks the reload gives the live index, each block's parent looked up among those retained, exactly under that condition |
| `Reload.NoGapsInWindow` | simulator/src/explorer_persistence.rs:554-602 | the condition holds when no height between the lowest and the greatest is missing, in any order |
| `Reload.AscendingParents` | simulator/src/explorer.rs:618-623 | after ascending blocks every live parent but the oldest block's is among those retained, so the reload changes only that one |
| `Reload.AscendingReload` | simulator/src/explorer_persistence.rs:272-325 | without a limit the reload then is the live index itself |
| `Reload.GapIsPruned` | simulator/src/explorer_persistence.rs:45-74 | on the running code, heights 1 and 10 with room for two blocks: live keeps both, the reload only the second |
| `Reload.IndexBlocks` | simulator/src/explorer.rs:703-723 | each block is indexed, and queued for the worker exactly when the index took it |
| `Reload.LoadAndStart` | simulator/src/explorer_persistence.rs:45-74 | pruning, loading and indexing on the tables of any such run: they end as exactly the window, and the index is the live one under exactly that condition |
| `Reload.WriteAndReload` | simulator/src/explorer_persistence.rs:45-74 | the same from the worker's queue through empty tables to the reloaded index, for every limit and batch size |
| `SimulatorState.Submissions.Claim` | simulator/src/state.rs:1034-1044 | a height is new exactly when it is not among the last `limit` accepted ones; events summaries are deduplicated the same way |
| `SimulatorState.ProofNodes.Record` | simulator/src/state.rs:1046-1054 | counts are the occurrences in retained lists plus what replaced lists left behind; a second list for a height moves the first to that remainder |
| `SimulatorState.ProofNodes.Evict` | simulator/src/state.rs:1107-1120 | eviction gives back exactly the height's list, no node still counted is lost, and digests do not change |
| `SimulatorState.RetainedNodesPresent` | simulator/src/state.rs:1046-1054 | a node listed for a retained height is always stored |
| `NodeLeaks.CountsStayExactIff` | simulator/src/state.rs:1031-1123 | the counts equal the occurrences in retained lists after every run of submissions exactly when submitted heights are never forgotten or no height is retained |
| `NodeLeaks.Leaks` | simulator/src/state.rs:1031-1123 | for all other limits a run that leaks: a high height, as many lower ones as are remembered, the high one again |
| `NodeLeaks.SubmitTwice` | simulator/src/state.rs:1031-1123 | the smallest such run on the running code, after which the stored counts differ from the occurrences in retained lists |
| `SimulatorState.SeedHistory.Submit` | simulator/src/state.rs:1008-1023 | the greatest views submitted stay, and only a new view is broadcast |
| `SimulatorState.SeedHistory.Latest` | simulator/src/state.rs:1282-1287 | the latest seed is the one last submitted for the greatest view ever submitted |
| `SimulatorState.State.RecordOp` | simulator/src/state.rs:1063-1096 | each key's bounded history stays that of all operations ever submitted for it |
| `SimulatorState.State.RecordProgress` | simulator/src/state.rs:1099-1122 | the greatest heights keep their progress, and evicted ones give their nodes back |
| `SimulatorState.State.Submit` | simulator/src/state.rs:1031-1123 | a remembered height changes nothing; any other summary is received whole; counts leak exactly when a retained list is replaced; every stored node carries the digest listed last for it |
| `SimulatorState.State.Query` | simulator/src/state.rs:1182-1275 | a key resolves to the last operation on it in the summary received for the greatest height that touches it: nothing for a deletion or a height no longer among the greatest, otherwise its value and its location with a proof from the progress received last for the height and the digests listed last |
| `SimulatorState.State.TryQuery` | simulator/src/state.rs:1186-1275 | the exact reasons for finding nothing, up to a proof that cannot be built; a retained height's own nodes are never the reason |
| `Summaries.TouchesByIndex` | simulator/src/state.rs:1056-1096 | each operation of a summary but the floors is one touch, at the summary's height and its own location, in order, and there is no other |
| `Summaries.TopIsLastTouch` | simulator/src/state.rs:1186-1199 | over all summaries the entry a lookup finds is that operation |
| `Summaries.NodesStayCurrent` | simulator/src/state.rs:1046-1051 | one more list keeps every stored node at the digest listed last |
| `SimulatorState.RememberedIff` | simulator/src/state.rs:1034-1044 | a height is remembered exactly when it is among the last `limit` accepted ones |
| `SimulatorState.HistoryRecorded` | simulator/src/state.rs:1063-1096 | recording one operation keeps the history of every other key |
| `EventIndex.ForAccountIsFilter` | simulator/src/state.rs:404-985 | what an account receives is the filter "public or mentions it" exactly when no event names it twice |
| `EventIndex.MergeOps` | simulator/src/state.rs:354-379 | the three merge loops compute the merge by location |
| `EventIndex.MergeIsOnePass` | simulator/src/state.rs:354-379 | merging an account's operations with the public ones gives the one-pass result, in location order |
| `EventIndex.NeverMentioned` | simulator/src/state.rs:341-347 | for an account never mentioned the public update is that result |
| `EventIndex.IndexEvents` | simulator/src/state.rs:404-985 | what every subscribed account and session is served, given which proofs can be built: its own update, else the public one for an account and nothing for a session |
| `EventRouting.AudienceIs` | simulator/src/state.rs:428-860 | whom each operation reaches: everyone, the accounts its event or transaction names, or one session |
| `EventRouting.AccountIsRouted` | simulator/src/state.rs:354-379 | an account's result holds a public operation once and any other as often as it names the account, each at its own location, in order, and nothing else |
| `EventRouting.PublicIsRouted` | simulator/src/state.rs:428-860 | the public update holds each public operation once, and nothing else |
| `EventRouting.SessionIsRouted` | simulator/src/state.rs:468-480 | a session's update holds each of its moves once, and nothing else |
| `EventRouting.MentionedIff` | simulator/src/state.rs:341-347 | an account has an update of its own exactly when some operation names it |
| `EventIndex.ServedInFullIff` | simulator/src/state.rs:341-347 | that is exactly the account's one-pass result when and only when there is nothing to send or its proof can be built |
| `EventIndex.AccountUpdates` | simulator/src/state.rs:864-919 | every collected account whose proof can be built gets its merged update, no other account one |
| `Subscriptions.Tracker.Register` | simulator/src/state.rs:250-262 | a registration adds exactly one live filter to exactly one count |
| `Subscriptions.Tracker.Unregister` | simulator/src/state.rs:264-288 | dropping a guard undoes exactly its registration, with no zero count left |
| `Subscriptions.Tracker.TotalCount` | simulator/src/state.rs:290-294 | the total is the number of live filters |
| `Subscriptions.Tracker.Snapshot` | simulator/src/state.rs:296-310 | the snapshot names exactly the accounts and sessions with a live filter, or all when receivers outnumber filters |
| `Subscriptions.Tracker.IndexFor` | simulator/src/state.rs:1327-1338 | every account and session with a live filter is served its full update, a failed proof aside |
| `WsConnections.Tracker.TryAcquire` | simulator/src/lib.rs:567-605 | a guard is handed out exactly when neither limit is reached; total and per-address counts are the live guards; limits once met stay met |
| `WsConnections.Tracker.Release` | simulator/src/lib.rs:607-625 | a dropped guard takes one off both counts and leaves no zero count |
| `Supervisor.Subscribers.Notify` | node/src/supervisor.rs:131-145 | every subscriber is offered the message exactly once, and exactly those whose send succeeded stay |
| `Supervisor.SwapRemoveRest` | node/src/supervisor.rs:131-145 | swap-removing leaves the same subscribers still to be offered |
| `Supervisor.EpochManager.Update` | node/src/supervisor.rs:39-53 | everyone listening is told the new epoch once |
| `Supervisor.EpochManager.Subscribe` | node/src/supervisor.rs:55-60 | a subscriber learns the current epoch and joins for later ones |
| `EvmLinks.EvmLinkTable.LinkEvmAddress` | website/convex/evm.ts:104-171 | each guard's error leaves the table alone; otherwise exactly one row is inserted or patched as `Linked` says |
| `EvmLinks.EvmLinkTable.UnlinkEvmAddress` | website/convex/evm.ts:173-194 | an active row becomes unlinked now; anything else is left alone |
| `EvmLinks.ReachableTablesSound` | website/convex/evm.ts:104-194 | in every reachable state each user has at most one row and each address at most one active row |
| `EvmLinks.LinkedStaysSound` | website/convex/evm.ts:104-171 | a successful link keeps both, although the address check looks at one row only |
| `EvmLinks.LinkSucceedsIff` | website/convex/evm.ts:104-146 | in every sound table, a link succeeds exactly with a public key, an address in no more than one row and not active for somebody else, and, for a change of address, an unlink or without one a link at least seven days ago; the first unmet condition is the error |
| `EvmLinks.LinkDoes` | website/convex/evm.ts:148-170 | a link leaves the user's one row with the given address, chain and signature, active, verified now, not unlinked, and linked now unless it held the address; no other row changes |
| `EvmLinks.UnlinkDoes` | website/convex/evm.ts:173-194 | an unlink marks the user's active row and changes nothing else |
| `EvmLinks.DueChangeSucceeds` | website/convex/evm.ts:140-158 | over any run, a user whose changes of address and unlinks are all seven days old may link any address no other row holds, however often the old one was linked again in between |
| `EvmLinks.UnlinkedRowsAreInactive` | website/convex/evm.ts:148-194 | in every reachable table a row has an unlink time exactly when it is not active |
| `EvmLinks.LowerIsCaseless` | website/convex/evm.ts:116 | addresses are compared without regard to case |
| `EvmLinks.ChangesAreApart` | website/convex/evm.ts:140-158 | over any run with a monotone clock two address changes of a user are at least seven days apart, whatever unlinks and same-address links lie between |
| `EvmLinks.HeldFromChangeOn` | website/convex/evm.ts:140-158 | from an address change on, the user's row is never dated before it |
| `EvmLinks.RefreshSucceedsIff` | website/convex/evm.ts:122-134 | linking one's own address again succeeds exactly when no other row, active or not, holds it |
| `EvmLinks.OwnerCannotRefresh` | website/convex/evm.ts:122-134 | three ordinary steps reach a state where the active owner cannot, at any time |
| `EvmLinks.MovingAwayFrees` | website/convex/evm.ts:122-158 | the other holder linking another address makes the refresh succeed |
| `EvmLinks.OwnerCanRefreshAgain` | website/convex/evm.ts:140-158 | in that state the first user may do so once the cooldown is over |
| `RateLimiter.Limiter.CleanupRateBuckets` | website/convex/http.ts:37-57 | the two deletion loops leave the unexpired buckets, the newest ones if they are too many |
| `RateLimiter.Limiter.EnforceRateLimit` | website/convex/http.ts:69-82 | the decision and the new map are those of `Enforced` |
| `RateLimiter.MapStaysSmall` | website/convex/http.ts:37-82 | over any run, with any clock, one bucket per key and never more than the configured maximum plus one |
| `RateLimiter.PruningNeverChangesADecision` | website/convex/http.ts:37-82 | with a monotone clock and no running bucket of the key evicted, each request is decided as if the key were alone and nothing were pruned |
| `RateLimiter.OpenerIs` | website/convex/http.ts:73-76 | a key's window is opened by its first request and then by each first one made later than the window's length after the opener before |
| `RateLimiter.RejectedIff` | website/convex/http.ts:73-82 | then a request is rejected exactly when its key's window has not passed and has already accepted its quota |
| `RateLimiter.RejectionChangesNothing` | website/convex/http.ts:77-79 | without a rejected request every later decision would be the same |
| `RateLimiter.CleanupIs` | website/convex/http.ts:37-57 | when a cleanup comes, and that it removes exactly the expired buckets and the first others if they are too many |
| `RateLimiter.PlacesKept` | website/convex/http.ts:72-80 | a request moves no bucket: its own is renewed in place or put last, so the order is that in which keys came |
| `RateLimiter.StaleBucketsGo` | website/convex/http.ts:37-47 | over any run no bucket outlives its window by the cleanup interval |
| `RateLimiter.IntervalBound` | website/convex/http.ts:69-82 | any interval as long as the window then accepts at most 2 * max - 1 of the key's requests |
| `RateLimiter.BoundIsReached` | website/convex/http.ts:69-82 | and some run reaches that number, for every configuration with a window, a quota and a bucket |
| `RateLimiter.FewKeysNeverEvict` | website/convex/http.ts:48-56 | no running bucket is evicted while there are no more keys than buckets allowed |
| `RateLimiter.BoundHoldsIff` | website/convex/http.ts:37-82 | for every configuration and set of keys, the interval bound holds in every run of those keys exactly when they are no more than the buckets |
| `RateLimiter.RotationAccepted` | website/convex/http.ts:48-82 | with one key more than buckets, requests in rotation at one instant are all accepted |
| `RateLimiter.EvictionVoidsTheBound` | website/convex/http.ts:48-56 | the smallest case, three requests and one bucket |
| `Claims.CreditsByAddress` | evm/scripts/buildEligibilitySnapshot.js:67-102 | an address's credits are those of every key linked to it, the last snapshot entry of a key counting |
| `Claims.Claimable` | evm/scripts/buildEligibilitySnapshot.js:104-136 | the loop lists the entitled addresses by the bid that first gave them something, each with its positive successful bids up to its cap |
| `Claims.ClaimedAmounts` | evm/scripts/buildEligibilitySnapshot.js:104-136 | an address may claim exactly what it is entitled to, and is listed exactly when that is not zero |
| `Claims.ClaimsIgnoreOrder` | evm/scripts/buildEligibilitySnapshot.js:104-131 | any order of the bids gives every address the same amount |
| `Claims.LastEntryCounts` | evm/scripts/buildEligibilitySnapshot.js:67-84 | the last snapshot entry of a key says its credits |
| `Claims.LinkAdds` | evm/scripts/buildEligibilitySnapshot.js:86-102 | wherever it stands, a usable link adds its key's credits to its address, any other link nothing |
| `Claims.UnlinkedHasNoCredits` | evm/scripts/buildEligibilitySnapshot.js:86-102 | an address that no usable link names has no credits |
| `Claims.BidAdds` | evm/scripts/buildEligibilitySnapshot.js:104-131 | wherever it stands, a bid that did not fail adds its positive amount to its bidder, any other bid nothing |
| `Claims.NoBidNoTotal` | evm/scripts/buildEligibilitySnapshot.js:104-131 | an address none of whose bids succeeded with more than nothing may claim nothing |
| `Claims.ClaimantsInOrder` | evm/scripts/buildEligibilitySnapshot.js:104-136 | the claims stand in the order of the bids that first entitled their addresses |
| `Claims.PoolIsSpentButNotOverspent` | evm/scripts/buildEligibilitySnapshot.js:138-150 | a scaled total is within the pool and loses less than T / 10^6 + n of it |
| `Claims.ScalingIsFair` | evm/scripts/buildEligibilitySnapshot.js:138-150 | scaling keeps the order, raises no claim, keeps only positive ones, and nobody with a smaller claim ends up with more |
| `Claims.PaidExactly` | evm/scripts/buildEligibilitySnapshot.js:138-150 | in an overdrawn pool a claim is paid its product with pool over total, both cut off at six digits, and otherwise whole |
| `Claims.GivesUpIff` | evm/scripts/buildEligibilitySnapshot.js:138-154 | the script gives up exactly when nobody is entitled or an overdrawn pool rounds every share to zero |
| `Claims.PoolRoundsToNothing` | evm/scripts/buildEligibilitySnapshot.js:138-154 | two claims of one unit and a pool of one unit |
| `Claims.PayoutsAreBounded` | evm/scripts/buildEligibilitySnapshot.js:67-154 | end to end, every payout is positive and within the address's capped bids, nobody entitled to less is paid more, and a pool is never overspent |
| `Claims.CapsOffIff` | evm/scripts/buildEligibilitySnapshot.js:86-117 | the caps are off, for everybody, exactly when no link is usable: each address may then claim all it bid, otherwise at most the credits of the keys linked to it |
| `Claims.BuildClaims` | evm/scripts/buildEligibilitySnapshot.js:54-154 | the whole computation from bids and the optional snapshot and links to the final claims, with the errors for no bids and for links without a snapshot |
| `Bytes.ReadsInt` | types/src/token.rs:229-247 | an integer written is read back and the rest of the buffer is left |
| `Bytes.CameFromInt` | types/src/token.rs:229-247 | bytes read as an integer are the ones it is written as |
| `WireLayout.IntSpells` | types/src/token.rs:217-247 | an integer is written as its digits to the base 256, the highest first |
| `TokenCodec.InsertIsUpdate` | types/src/token.rs:143-145 | inserting keeps the entries ascending and replaces exactly the key's entry |
| `TokenCodec.SameLookupsSameMap` | types/src/token.rs:128-136 | an ordered map has one form |
| `TokenCodec.WriteAccount` | types/src/token.rs:217-227 | the writer's loop produces the encoding, of the announced size |
| `TokenCodec.ReadTokenAccount` | types/src/token.rs:229-247 | the reader takes the parts in order, with the first error that comes up, and inserts as it reads |
| `TokenCodec.RoundTripIff` | types/src/token.rs:217-253 | decoding an encoded account gives it back exactly when it has fewer than 2^32 allowances, and is rejected for leftover bytes otherwise; the size is `encode_size` |
| `TokenCodec.AcceptedBytesBecomeCanonical` | types/src/token.rs:217-253 | accepted bytes mean the last entry given for each spender; one decode and encode makes them canonical with the same meaning; they were canonical exactly when the spenders ascended |
| `TokenCodec.AllowanceIsLastSet` | types/src/token.rs:138-146 | after any `set_allowance` calls a spender's allowance is the one set last, or the one from before |
| `TokenCodec.EncodingIgnoresInsertionOrder` | types/src/token.rs:143-227 | two lists of `set_allowance` calls that agree on each spender's last amount give the same bytes |
| `TokenCodec.LastDuplicateWins` | types/src/token.rs:234-240 | of several entries for a spender the last one stays |
| `TokenCodec.AllowanceIsEntry` | types/src/token.rs:138-141 | an account allows a spender the amount of its entry, and without one nothing |
| `WireLayout.AccountLayout` | types/src/token.rs:217-227 | where balance, flag, count and each allowance stand in an encoded account |
| `WireLayout.AccountIsSelfDelimiting` | types/src/token.rs:229-247 | accepted bytes cut short anywhere miss their end, and any bytes after them are extra |
| `WireLayout.AccountWithBadKey` | types/src/token.rs:235-239 | a spender that is no key is what an otherwise encoded account is rejected for |
| `WireLayout.AccountWithBadFlag` | types/src/token.rs:232-233 | a flag that is neither zero nor one is rejected for that |
| `MetadataCodec.ReadStr` | types/src/casino/codec.rs:12-34 | length, bound, buffer and UTF-8 checks in that order |
| `MetadataCodec.WriteMetadata` | types/src/token.rs:150-167 | the encoding, of the announced size |
| `MetadataCodec.ReadTokenMetadata` | types/src/token.rs:169-197 | the fields in order, with the first error that comes up |
| `MetadataCodec.MetadataRoundTripIff` | types/src/token.rs:150-215 | metadata survives a round trip exactly when its texts are within the reader's bounds |
| `MetadataCodec.AcceptedMetadataIsCanonical` | types/src/token.rs:150-197 | each value has one accepted encoding |
| `WireLayout.MetadataLayout` | types/src/token.rs:150-167 | where each text, flag and number stands in encoded metadata |
| `WireLayout.MetadataIsSelfDelimiting` | types/src/token.rs:169-197 | accepted bytes cut short anywhere miss their end, and any bytes after them are extra |
| `WireLayout.MetadataWithLongText` | types/src/casino/codec.rs:12-18 | metadata written with a name over 32, a symbol over 8 or an icon over 256 bytes is rejected as too long |
| `Fixed.NearestIsNearest` | execution/src/fixed.rs:32-38 | the reference: nearest integer to a fraction, ties away from zero |
| `Fixed.NoDoubleRounding` | execution/src/fixed.rs:22-38 | truncating to four digits and then rounding equals rounding once |
| `Fixed.RoundsToNearestIff` | execution/src/fixed.rs:22-38 | converting and rounding a fraction gives the nearest integer except for `i32::MIN / -1`, and zero over zero denominators |
| `Fixed.FracIsCutOff` | execution/src/fixed.rs:22-30 | a fraction becomes exactly four digits, cut off toward zero |
| `Fixed.RoundsOrAborts` | execution/src/fixed.rs:32-38 | for every decimal, when rounding aborts, and otherwise the nearest integer modulo 2^32 |
| `Fixed.MulIsCutOff` | execution/src/fixed.rs:60-63 | for all operands the exact product cut off toward zero, modulo 2^64 |
| `Fixed.DivIsCutOff` | execution/src/fixed.rs:66-72 | for all operands the exact quotient cut off toward zero, modulo 2^64, and zero over zero |
| `Fixed.MulWithinOneUnit` | execution/src/fixed.rs:60-63 | a product that fits is off by less than one unit of the last digit, toward zero |
| `Fixed.DivWithinOneUnit` | execution/src/fixed.rs:66-72 | a quotient that fits misses by less than the divisor, toward zero |
| `Fixed.IntegersAreExact` | execution/src/fixed.rs:60-72 | a product of integers that fits is exact, and dividing by one gives the other back |
| `Fixed.IntegersRoundTrip` | execution/src/fixed.rs:12-38 | an integer goes in and comes out unchanged |

## Left out

- Certificates, signatures and the Merkle proofs over both logs (`Summary::verify`, `create_multi_proof`): library code; roots stand for the log contents, and the positions a proof needs and the building of it are function parameters.
- The casino game rules behind `Layer::apply`: an arbitrary deterministic function, assumed not to write account records.
- Errors reported by the stores themselves before anything is appended: they leave both stores as they were.
- Memory orderings weaker than sequential consistency: the channel's `closed` flag and waker are single atomic steps.
- Blocking of the queue lock, and the fairness that eventually runs a pending wake.
- `ExplorerLru.LruIndex.Record`: requires fewer than 2^64 - 1 touches, so the wrap-around of the token counter is not modelled.
- `ExplorerLru.LruIndex.Touch`: one generic index stands for the account map and the game-event map; the contents of an account's activity are the `update` parameter.
- `WsConnections.Tracker.TryAcquire`: requires fewer than 2^64 - 1 live guards, where the saturating counters would stop counting.
- `Subscriptions.Tracker.Register`: requires fewer than 2^64 - 1 live filters, for the same reason.
- `EventIndex.IndexEvents`: events carry only the fields that decide their audience; which proofs can be built is a parameter, and tasks that are cancelled are not modelled.
- `SimulatorState.State.RecordOps`: operation locations are unbounded, so the abort on a location past 2^64 - 1 is not modelled.
- Dropped persistence requests and failed SQL statements: the worker is followed over runs without them.
- The Postgres variant of the persistence code: the same statements as the SQLite one.
- `Reload.IndexBlocks`: blocks are queued in the order they are indexed; submissions handled at the same time could swap the two steps, which happen under different locks.
- Account activity, account search and the descriptions of instructions in the explorer: presentation over the same maps.
- `EvmLinks.EvmLinkTable.LinkEvmAddress`: `Lower` lowers ASCII letters only, which are all that addresses contain; the service token check is left out.
- `RateLimiter.Limiter.EnforceRateLimit`: times and limits are integers, not floating-point numbers.
- `Claims.BuildClaims`: addresses and keys arrive normalised and lower-cased, and the Merkle tree over the claims is not built.
- `Fixed.Decimal`: addition, subtraction, negation, `div_int` and the conversions to and from `u16` would only add easy members.
- Gateway sessions, node actors, bots, front ends and deployment scripts: wiring and presentation.
