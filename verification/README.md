# Verified model of the web3 event platform

A Dafny model of the platform's four pieces of real logic, with proofs about all their inputs and
all their runs:

- the **chain monitor**, which follows an EVM chain into a store, rolls back on reorgs, promotes
  deep blocks to confirmed and publishes events (`Erc20`, `Chain`, `StoreModel`, `Sync`,
  `SyncOutcome`, `MemStore`, `Stores`, `Monitor`, `Events`, `ChainInvariant`, `OnView`, `Convergence`, `IndexSpec`, `Interrupted`,
  `Finality`, `DeepReorgs`);
- the **Postgres store** behind the same interface, which the service runs on: its agreement with
  the in-memory one, and what runs on it keep, whatever the backend answers (`Postgres`, `Inserts`,
  `Refinement`, `Resave`, `TableRuns`, `TableEvents`, `TableIndex`, `TableFinality`);
- the **rate limiters** of the gateway: the token bucket and the shared Redis window
  (`TokenBucket`, `RedisWindow`);
- the **margin engine** (`Margin`).

`dafny verify dfyconfig.toml` checks the whole project.

## How the chain monitor is modelled

`SyncSpec.Sync` is one call of `Monitor.Sync`: from the stored blocks and an `Env`, it gives the
sequence of writes (`Save`, `Delete`, `Confirm`) and how the call ends. The `Env` holds every answer
from outside: headers and logs by height, the head, cancellation, and which store calls fail. A Sync
never asks for the same height twice, so an arbitrary `Env` is a backend that may lie, fail, or
change between any two calls. The store contents, the Postgres tables and the event log are each a
fold of the same writes. `Monitors.Monitor.Sync` is the imperative loop over a store object and an
event bus, proved equal to that specification; `Stores.Store` is the interface, with a `MemStore` or
a `PostgresStore` object behind it, and a call that is to fail is made and fails. `SyncSpec.Run` and
`Refinement.PgRun` are any number of Syncs on the one and on the other, one `Env` each;
`Monitors.Monitor.Poll` is the loop that makes those calls, proved to leave the store and the bus as
they say.

`SyncOutcome` tells what that specification does without its functions, from the answers alone: how
far the loop comes, what stops it, every field of every write by then, and how the call ends.

`TableRuns.RunDropsRepeats` ties the two stores for every run: the tables always hold the blocks of
the in-memory store, and its transfers but for those whose transaction hash and log index occurred
before. So results about blocks hold of both. What results about transfers become on the rows is
stated in `TableEvents`, `TableIndex` and `TableFinality`.

A `View` is one linked chain. `ServesHeaders` and `ServesTransfers` say that what a node answers
comes from one view, while any call may still fail; `NeverFails` says that none does.

Modelling assumptions:

- A block hash is a symbolic term over the header it covers, so it is injective; `Plain` is any
  other 32-byte value.
- A Postgres transaction that fails is rolled back, at whichever statement it fails, but the ids it
  drew are gone. A single statement that fails has no effect. Contents are compared up to ids.
- The backend filters logs by token and topic; the monitor sees what it returns. Logs are fetched by
  height, so that the stored transfers are those of the stored blocks assumes that a block's logs are
  a function of its hash and that one Sync sees one view. Results about blocks, links, rollbacks and
  replayed hashes do not, and when the two stores, or the rows and the replayed transfers, are the
  same is stated exactly, for all answers.
- ABI words are 32 bytes, big-endian; a value is read from the first data word and longer data is
  accepted.
- Every published event is delivered.
- Heights, counts and amounts are unbounded integers; tokens, rates and USD amounts are exact reals.
- In `RedisWindow`, replicas and Redis share one clock; each clock read, INCR and EXPIRE is an atomic
  step, in any order that each request's own program allows. An INCR may fail with or without having
  taken effect, but is not sent again by the client library; an EXPIRE may never be sent.
- In `Margin`, `FloatString` is round-to-nearest with halves away from zero, and a printed number is
  held in units of its last digit. A `Holding` pairs an asset with what its two reads return.

## Where the documentation and the code differ

- README.md:48-50 says that reorgs only ever touch unconfirmed data, and the comment at
  internal/chainmonitor/monitor.go:20-21 says that reorgs are only handled within the confirmation
  window. The code has no such bound. `ConfirmedCanBeLost` gives, for every configuration, a run that
  removes a confirmed transfer, and `ConfirmedRowCanBeLost` one that removes a confirmed row.
  `ReorgSparesConfirmedIff` and `ReorgSparesConfirmedRowsIff` say exactly when recovery from a reorg
  spares confirmed data, and `ConfirmedIsFinal` and `ConfirmedRowsAreFinal` prove the claim when
  reorgs are bounded.
- internal/chainmonitor/store.go:22 says that SaveBlock upserts a block and its transfers. It upserts
  the block alone. Saving a block again stores its transfers twice in memory (`MemResaveIsNoOpIff`),
  and in Postgres keeps those of the first save, whatever the second one brings
  (`PgResaveKeepsFirst`). `MemSaveUpsertsIff` and `PgSaveUpsertsIff` say exactly when a save is an
  upsert, and `SyncSavesUpsert` which saves of Sync are.
- internal/chainmonitor/monitor.go:133-136 announces and publishes every decoded transfer, also one
  that internal/chainmonitor/store_postgres.go:79 drops. `RepeatedLogBreaksReplay` gives a run after
  which a consumer holds twice what the tables hold once; `ReplayRebuildsTables` and
  `ReplayFollowsTablesIffFresh` say exactly when they hold the same.
- The token bucket admits a key's first request without looking at the level, so it keeps its
  (burst, rate) envelope if and only if the burst is at least one (`EnvelopeHoldsIff`).
- The Redis limiter can grant more than its limit for one window when an INCR arrives after the
  counter it belongs to has expired (`LateIncrExceedsLimit`); `WindowGrantsExactly` gives the exact
  number in every case. Within a window's length it can admit more than the two limits on either side
  of a window's end, even with no counter revived and no error (`LateIncrExceedsInterval`);
  `IntervalAdmitsTwiceLimitAndExtra` bounds it in every case.

## Model

| member | source | states |
|---|---|---|
| `Erc20.DecodeUndoesEncode` | internal/chainmonitor/erc20.go:53-69 | decoding the log that the EIP-20 Transfer event emits gives back token, both addresses, value, transaction hash and log index, for every value below 2^256 |
| `Erc20.EncodeUndoesDecodeIffCanonical` | internal/chainmonitor/erc20.go:53-69 | a log is accepted iff it has three topics, the event topic and a full data word; decoding loses nothing iff the address padding is zero and the data is one word |
| `Erc20.DecodeReadsFields` | internal/chainmonitor/erc20.go:61-68 | of every accepted log, also with longer data or other padding, the token is the emitter, the addresses are the last 20 bytes of their topics, and the value is that of the first data word |
| `Bytes.ToNatIsBigEndian` | internal/chainmonitor/erc20.go:57-60 | a word is read with the most significant byte first, in base 256 |
| `Bytes.Pow256Adds` | internal/chainmonitor/erc20.go:57-60 | the weights of the bytes are the powers of 256 |
| `Erc20.DecodeAllIsExact` | internal/chainmonitor/monitor.go:159-165 | exactly the well-formed logs are decoded, each once, in log order |
| `Erc20.FetchTransfers` | internal/chainmonitor/monitor.go:148-166 | the loop returns the decoded transfers of the well-formed logs |
| `MemStores.MemStore.constructor` | internal/chainmonitor/store.go:48-50 | a new store is empty |
| `MemStores.MemStore.SaveBlock` | internal/chainmonitor/store.go:52-60 | sets the block and appends its transfers in order with the flag; the rest is unchanged |
| `StoreModel.SaveIsExact` | internal/chainmonitor/store.go:52-60 | a save sets the block at its height alone, keeps all transfers, and adds its own in order, each with the height and the flag |
| `MemStores.MemStore.LastBlock` | internal/chainmonitor/store.go:62-74 | returns the block at the greatest stored height, and nothing iff the store is empty |
| `MemStores.MemStore.DeleteFrom` | internal/chainmonitor/store.go:83-99 | deleting while iterating and compacting in place leave exactly the blocks and transfers below the height, in order |
| `MemStores.MemStore.Compact` | internal/chainmonitor/store.go:91-97 | the aliasing compaction loop equals a pure filter of the old contents |
| `MemStores.MemStore.ConfirmThrough` | internal/chainmonitor/store.go:101-110 | sets the flag of exactly the transfers at or below the height |
| `Stores.Store.SaveBlock` | internal/chainmonitor/store.go:21-23 | through the interface, either store performs the save and changes its block map at that height alone, or returns an error and holds the blocks and transfers it held, at whichever statement it failed |
| `Stores.Store.LastBlock` | internal/chainmonitor/store.go:24-25 | through the interface, either store returns its highest block, nothing iff it is empty, or an error |
| `Stores.Store.DeleteFrom` | internal/chainmonitor/store.go:28-30 | through the interface, either store performs the deletion, or returns an error and is unchanged |
| `Monitors.Monitor.Sync` | internal/chainmonitor/monitor.go:72-146 | on either store and for every answer the backend and store may give, the writes to the store, the published events and the outcome are those of the specification, up to the ids of rows |
| `Monitors.Monitor.CheckParent` | internal/chainmonitor/monitor.go:112-120 | fails if the lookup of the height below fails; otherwise, iff a stored block there has another hash than the header's parent, ends Sync with a rollback of that height, which fails iff its deletion does; otherwise changes nothing |
| `Monitors.Monitor.Index` | internal/chainmonitor/monitor.go:100-137 | one round of the loop either ends Sync as specified or saves the block, publishes it and its transfers, and leaves the rest of the specified writes to do |
| `Monitors.Monitor.RollBack` | internal/chainmonitor/monitor.go:168-175 | deletes from the height and publishes one reorg event, or fails with no effect |
| `Monitors.Monitor.PublishTransfers` | internal/chainmonitor/monitor.go:134-136 | publishes one event per transfer in order |
| `Monitors.Monitor.Poll` | internal/chainmonitor/monitor.go:53-68 | any number of Syncs one after the other on one store, whichever of them fail, leave in the store what the run from its first contents has, up to ids, and on the bus the events of exactly the writes of that run |
| `SyncOutcome.SyncIsExactly` | internal/chainmonitor/monitor.go:72-146 | for every answer, Sync does nothing and fails, or rolls back a replaced tip, or indexes exactly the heights from the first one up to some k, each with all fields of its header, its decoded transfers and the flag n + confirmations <= head, and ends as k says: cancelled or unreadable, not building on the header below and so rolled back from k - 1, unsaved, or above the head and so promoted |
| `SyncOutcome.RolledBackIff` | internal/chainmonitor/monitor.go:86-119 | when no call fails, Sync never fails; it rolls back iff the header answered for the tip is another one, or that of some height of the loop does not build on the one below; its last write deletes from the tip, or from below the first such height |
| `SyncOutcome.CancelledStops` | internal/chainmonitor/monitor.go:101-105 | a Sync cancelled at a height of its loop saves neither that height nor any above it and does not complete |
| `SyncOutcome.EventsTellDepth` | internal/chainmonitor/monitor.go:128-136 | for every answer, each block event and transfer event of a Sync is marked confirmed iff its height plus the confirmations is at most the head |
| `ChainInvariant.IndexedAtEveryWrite` | internal/chainmonitor/monitor.go:95-131 | from an empty in-memory store and with arbitrary answers, after any Syncs and after every write of the next one, the stored heights are one interval from the start block, each block's parent hash is the stored hash below it, and transfers are sorted by height and refer to stored blocks |
| `ChainInvariant.RollbackIsMinimalAndFinal` | internal/chainmonitor/monitor.go:90-92 | on every run in memory, a rollback is the last write of its Sync, names the highest stored height, and removes exactly that block and its transfers |
| `ChainInvariant.BelowTruncates` | internal/chainmonitor/store.go:83-99 | on sorted transfers the deletion filter is a prefix truncation |
| `ChainInvariant.DeleteTipIsMinimal` | internal/chainmonitor/store.go:83-99 | deleting from the highest height keeps the chain invariant and removes only that block and its transfers |
| `Events.ReplayRebuildsStore` | internal/chainmonitor/monitor.go:129-136 | after every run in memory, including failed Syncs, replaying the published events gives the store's height-to-hash map and all its transfers in order, and an event marked confirmed is confirmed in the store |
| `Events.ReorgEventIsLast` | internal/chainmonitor/monitor.go:168-175 | on every run in memory, a Sync publishes at most one reorg event, nothing after it, and it names the highest height a replica of all earlier events holds |
| `Events.StreamIsAnnounced` | internal/chainmonitor/monitor.go:177-188 | each block event is followed by exactly as many transfer events of its block as it announces, with its flag |
| `OnView.HashForcesPrefix` | internal/chainmonitor/monitor.go:79-93 | if the stored hash at one height is the canonical one, every stored block below is canonical too |
| `OnView.SyncOnView` | internal/chainmonitor/monitor.go:72-146 | against one chain, a Sync does nothing and fails, rolls back the tip because it diverges, or saves a run of canonical blocks without rolling back; it completes only at the head, and without faults fails iff the chain is shorter than the index |
| `OnView.CompletedReachesHead` | internal/chainmonitor/monitor.go:95-145 | a completed Sync leaves exactly the canonical blocks from the start block to the head |
| `Convergence.DivergenceIsSuffix` | internal/chainmonitor/monitor.go:79-93 | the stored blocks that differ from the chain are exactly the topmost ones, as many as there are |
| `Convergence.SyncConverges` | internal/chainmonitor/monitor.go:79-93 | against one chain no shorter than the index, wherever it fails, a Sync leaves the store, or takes off the one topmost block, which is divergent, with its transfers, or, with none divergent, keeps every block and every transfer in place, adds only canonical blocks and transfers of new blocks, and confirms; without faults it does one of the last two, the latter up to the head |
| `Convergence.ReorgConvergesDespiteFaults` | internal/chainmonitor/monitor.go:70-146 | against one chain and with any calls failing, divergent blocks never become more, each fault-free Sync takes one off, and after more fault-free Syncs than there were divergent blocks the store has and keeps the canonical blocks |
| `Convergence.GrowingChainConverges` | internal/chainmonitor/monitor.go:53-146 | while the chain grows between Syncs and with any calls failing, divergent blocks never become more, each fault-free Sync takes one off while there are any, and a fault-free Sync after as many fault-free ones as there were divergent blocks leaves the canonical blocks of the chain it sees |
| `Convergence.ReorgConverges` | internal/chainmonitor/monitor.go:72-146 | without faults and with d divergent blocks, k Syncs leave the store without its k topmost blocks and their transfers for k <= d, and with the canonical blocks for every k > d |
| `Convergence.ShorterChainsChangeNothing` | internal/chainmonitor/monitor.go:86-89 | as long as the chains served are shorter than the index, any number of Syncs write and publish nothing |
| `IndexSpec.RunIsFaithful` | internal/chainmonitor/monitor.go:122-136 | on every run, however Syncs end and however the chain changes between them, the stored transfers are those of the stored blocks, in order, each once, and only blocks deep under some seen head are confirmed |
| `IndexSpec.SaveIsFaithfulIff` | internal/chainmonitor/monitor.go:148-158 | with any backend, a save keeps the stored transfers those of the stored blocks iff the logs answered for the height are those of the header answered for it |
| `IndexSpec.IndexIsFunctionOfChain` | internal/chainmonitor/monitor.go:100-144 | when a Sync completes at a head no earlier one exceeded, the whole store equals the index of that chain: its blocks, exactly their transfers, confirmed iff n + confirmations <= head |
| `Interrupted.InterruptionsDoNotMatter` | internal/chainmonitor/monitor.go:70-146 | any number of Syncs cut short, then a complete one, give the same store and the same events as one uninterrupted Sync |
| `Interrupted.SecondSyncIsSilent` | internal/chainmonitor/monitor.go:70-146 | another Sync against the same chain changes nothing and publishes nothing |
| `Finality.ConfirmedIsFinal` | README.md:48-50 | if no chain replaces a height an earlier chain had buried deep enough, a transfer confirmed after any number of Syncs stays in the store, at the same place and confirmed, after every continuation of the run |
| `DeepReorgs.ReorgSparesConfirmedIff` | README.md:48-50 | against one chain no shorter than the index, with at least as many fault-free Syncs as divergent blocks and any number of failing ones, every confirmed transfer is in the store at every point of the recovery iff the chain still has the block of each |
| `DeepReorgs.RollbacksSpareConfirmedIff` | README.md:48-50 | after exactly the fault-free Syncs that roll the divergent blocks back, every confirmed transfer is in the store iff the chain still has the block of each |
| `DeepReorgs.ReincludedIsKept` | README.md:48-50 | for every configuration and every transfer there is a recovery that ends with the confirmed transfer in place although its block was replaced, because the new chain has it at the same height |
| `DeepReorgs.RunSparesCanonical` | internal/chainmonitor/monitor.go:79-93 | against one chain no shorter than the index, whichever calls fail, stored canonical blocks and their transfers stay |
| `DeepReorgs.SurvivesIffStillCanonical` | internal/chainmonitor/monitor.go:90-92 | after at least as many fault-free Syncs against one chain no shorter than the index as there were divergent blocks, and any number of failing ones, a stored block is still stored unchanged iff the chain has it |
| `DeepReorgs.ConfirmedCanBeLost` | internal/chainmonitor/monitor.go:168-175 | for every configuration and every transfer there are two chains that share the start block and all before it, and a run over them that confirms the transfer and then removes it |
| `Postgres.StatementsKeepLegal` | internal/chainmonitor/store_postgres.go:14-35 | every statement keeps the foreign key, the unique key and increasing ids |
| `Postgres.PostgresStore.SaveBlock` | internal/chainmonitor/store_postgres.go:58-86 | a failure at any statement or at commit leaves blocks and rows as before, though ids may be used up; otherwise the block is upserted and the transfers inserted, conflicts skipped |
| `Postgres.PostgresStore.LastBlock` | internal/chainmonitor/store_postgres.go:88-99 | returns the block with the greatest number, nothing iff there is none, or an error |
| `Postgres.PostgresStore.DeleteFrom` | internal/chainmonitor/store_postgres.go:114-117 | exactly the blocks below the height and exactly the rows of such blocks stay, each as it was and in the order of ids; an error changes nothing |
| `Postgres.PostgresStore.ConfirmThrough` | internal/chainmonitor/store_postgres.go:119-123 | every row stays in place, and its flag is set iff it was or its block is at or below the height; an error changes nothing |
| `Inserts.SaveStoresExactly` | internal/chainmonitor/store_postgres.go:65-84 | a save upserts the block, keeps all rows, and adds, in order and with increasing ids, exactly those of its transfers that share both the transaction hash and the log index with no row and with no earlier transfer of the save |
| `Inserts.LogIndexTellsApart` | internal/chainmonitor/store_postgres.go:31 | transfers with different log indexes are both stored, also when they are of one transaction |
| `Refinement.FreshIffUnmet` | internal/chainmonitor/store_postgres.go:75-84 | a save meets no conflict iff each of its transfers shares both columns with no row and with no earlier one |
| `Refinement.SaveAgreesIffFresh` | internal/chainmonitor/store_postgres.go:75-84 | from agreeing stores, a save keeps them in agreement iff no transfer conflicts with a row or with another transfer |
| `Refinement.DeleteAgrees` | internal/chainmonitor/store_postgres.go:114-117 | on tables that satisfy the foreign key, the cascade removes exactly what the in-memory filter removes |
| `Refinement.NextBlockIsFresh` | internal/chainmonitor/store_postgres.go:75-84 | on any store Sync has built, the next block of a chain with distinct keys conflicts with nothing |
| `Refinement.StoresAgree` | internal/chainmonitor/store_postgres.go:58-123 | on every run whose chains have no two transfers with the same transaction hash and log index, the tables satisfy the schema and hold the same blocks, transfers and flags as the in-memory store |
| `Resave.MemSaveUpsertsIff` | internal/chainmonitor/store.go:52-60 | in memory, a save makes the height's transfers exactly those given, and leaves all others, iff none of the height was stored |
| `Resave.MemResaveIsNoOpIff` | internal/chainmonitor/store.go:52-60 | in memory, saving the same block twice stores its transfers twice, and changes nothing iff it has none |
| `Resave.PgSaveUpsertsIff` | internal/chainmonitor/store_postgres.go:65-84 | in Postgres, a save makes the height's transfers exactly those given iff the rows of the height are already the first of them, with the same flag, and no other one conflicts |
| `Resave.PgResaveKeepsFirst` | internal/chainmonitor/store_postgres.go:65-84 | when a height is saved twice with any transfers, all rows of the first save stay as they were, flag included, and of the second only transfers with keys neither a row nor the first save had are added |
| `Resave.PgResaveIsNoOp` | internal/chainmonitor/store_postgres.go:65-84 | in Postgres, saving the same block again changes no block and no row |
| `Resave.SyncSavesUpsert` | internal/chainmonitor/monitor.go:127-131 | with any answers, Sync never saves a stored height, so each of its saves is an upsert in memory, and in Postgres iff no transfer conflicts |
| `TableRuns.RunDropsRepeats` | internal/chainmonitor/store_postgres.go:58-123 | with any answers, the tables satisfy the schema and hold the blocks of the in-memory store, and its transfers but for those whose transaction hash and log index occurred before |
| `TableRuns.StoresAgreeIffDistinct` | internal/chainmonitor/store_postgres.go:75-84 | with any answers, the two stores hold the same after a run iff the transfers held in memory have distinct keys |
| `TableRuns.TablesIndexedAtEveryWrite` | internal/chainmonitor/monitor.go:95-131 | from empty tables and with arbitrary answers, after any Syncs and after every write of the next one, the heights are one interval from the start block, each block's parent hash is the hash below it, the schema holds, and rows are sorted by height in the order of ids |
| `TableRuns.TableRollbackIsMinimalAndFinal` | internal/chainmonitor/monitor.go:90-92 | on every run on the tables, a rollback is the last write of its Sync, names the highest height, and removes exactly that block and its rows |
| `TableEvents.SameWrites` | internal/chainmonitor/monitor.go:72-146 | with any answers, Syncs on the tables make the same writes, and so publish the same events, as in memory |
| `TableEvents.ReplayRebuildsTables` | internal/chainmonitor/monitor.go:129-136 | with any answers, replaying the published events gives the tables' height-to-hash map, every row is carried by an event in order, and the transfer events left are exactly the rows iff the transfers announced and not rolled back have distinct keys |
| `TableEvents.ReplayFollowsTablesIffFresh` | internal/chainmonitor/monitor.go:129-136 | the replayed transfers are the rows after every write of a run iff no save of the run meets a conflict |
| `TableEvents.RepeatedLogBreaksReplay` | internal/chainmonitor/monitor.go:133-136 | for every configuration and every well-formed log, a backend that answers the log twice leaves one row and two transfers with a consumer |
| `TableEvents.TableReorgEventIsLast` | internal/chainmonitor/monitor.go:168-175 | on every run on the tables, a Sync publishes at most one reorg event, nothing after it, and it names the highest height in the tables and in a replica of all earlier events |
| `TableFinality.ConfirmedRowsAreFinal` | README.md:48-50 | if no chain replaces a height an earlier chain had buried deep enough, a row confirmed after any number of Syncs stays in the table, unchanged, after every continuation of the run, conflicts or not |
| `TableFinality.TablesConverge` | internal/chainmonitor/monitor.go:70-146 | after any run with any answers, more fault-free Syncs against one chain no shorter than the index than there are divergent blocks leave the canonical blocks in the tables, whichever other Syncs fail |
| `TableFinality.TablesConvergeOnGrowingChain` | internal/chainmonitor/monitor.go:53-146 | after any run with any answers and while the chain grows, a fault-free Sync after as many fault-free ones as the tables had divergent blocks leaves the canonical blocks of the chain it sees |
| `TableFinality.ConfirmedRowSurvivesIff` | internal/chainmonitor/store_postgres.go:114-117 | after any run with any answers and a recovery with at least as many fault-free Syncs as divergent blocks, whichever others fail, a confirmed row is still in the table with its id iff the chain has the block it was confirmed in |
| `TableFinality.ReorgSparesConfirmedRowsIff` | README.md:48-50 | such a recovery keeps every confirmed row iff the chain still has the block of each |
| `TableFinality.ConfirmedRowCanBeLost` | internal/chainmonitor/monitor.go:168-175 | for every configuration and every transfer there is a run over two chains that share the start block that confirms the transfer's row and then removes it |
| `TableIndex.TablesAreFunctionOfChain` | internal/chainmonitor/monitor.go:100-144 | when a Sync completes at a head no earlier one exceeded, the tables satisfy the schema and hold the blocks of that chain and its transfers, the first with each key, confirmed iff n + confirmations <= head; all of them if keys are distinct |
| `TableIndex.InterruptionsDoNotMatterToTables` | internal/chainmonitor/monitor.go:70-146 | after any run that left the tables on a chain, any number of Syncs cut short, then a complete one, give the same blocks and rows up to ids and the same events as one uninterrupted Sync, and a further one changes and publishes nothing |
| `TokenBucket.RateLimiter.Allow` | internal/gateway/ratelimit.go:34-52 | changes the bucket of the key alone and decides as specified; buckets of different keys stay distinct objects |
| `TokenBucket.RateLimiter.constructor` | internal/gateway/ratelimit.go:29-31 | a new limiter has no buckets |
| `TokenBucket.KeysDoNotInterfere` | internal/gateway/ratelimit.go:34-52 | in any interleaving, a key's decisions and its bucket depend on that key's request times alone |
| `TokenBucket.LevelIsLeastRoom` | internal/gateway/ratelimit.go:45-50 | the level a request finds is the minimum, over all windows ending there, of burst + rate * length - admitted |
| `TokenBucket.DeniedIffEnvelopeWouldBreak` | internal/gateway/ratelimit.go:47-51 | a later request is denied exactly when admitting it would break the envelope of some window ending now |
| `TokenBucket.EnvelopeHoldsIff` | internal/gateway/ratelimit.go:40-43 | the (burst, rate) envelope holds over the whole run iff the burst is at least one |
| `TokenBucket.NoPolicyAdmitsMore` | internal/gateway/ratelimit.go:34-52 | no decisions within the envelope have admitted more at any point of the run |
| `TokenBucket.LevelInBounds` | internal/gateway/ratelimit.go:45-51 | with a clock that does not run backwards, tokens stay between zero and the burst |
| `TokenBucket.AdmittedInInterval` | internal/gateway/ratelimit.go:34-52 | requests of a key between times s and t are admitted at most burst + rate * (t - s) times |
| `RedisWindow.WindowGrantsExactly` | internal/gateway/ratelimit_redis.go:31-43 | for every interleaving and every error, grants in a window are limit per life of its counter plus those let through on an error alone; without the latter they are min(limit, requests) iff no expired counter was revived or the requests were within the limit |
| `RedisWindow.AllowDecides` | internal/gateway/ratelimit_redis.go:35-42 | INCR adds one to the counter of the client and window alone and grants iff that is within the limit; without a reply the request is granted, counted or not |
| `RedisWindow.ReadClockWaits` | internal/gateway/ratelimit_redis.go:32-33 | a request is counted for the window of that many seconds in which it read the clock |
| `RedisWindow.WindowIsExact` | internal/gateway/ratelimit_redis.go:32 | the window of a time is the one whose seconds it falls in |
| `RedisWindow.OnlyFirstSendsExpire` | internal/gateway/ratelimit_redis.go:39-41 | on every run, a request goes on to EXPIRE iff its INCR started the counter and the reply came back |
| `RedisWindow.CounterExpires` | internal/gateway/ratelimit_redis.go:39-41 | EXPIRE gives the counter one window's length from then on, nothing but another EXPIRE changes that, and the counter is gone exactly when its time has come |
| `RedisWindow.NoResetInsideWindow` | internal/gateway/ratelimit_redis.go:39-41 | however late EXPIRE is sent, a counter never expires before its window ends |
| `RedisWindow.PromptWindowIsExact` | internal/gateway/ratelimit_redis.go:31-43 | if nothing is let through on an error alone and each INCR is done within its window, exactly min(limit, requests) are granted |
| `RedisWindow.ArrivalsGetTwiceLimit` | internal/gateway/ratelimit_redis.go:31-43 | of a client's requests that read the clock in an interval no longer than a window, at most twice the limit are granted, if in the two windows involved no counter was revived and nothing was let through on an error alone |
| `RedisWindow.IntervalAdmitsTwiceLimitAndExtra` | internal/gateway/ratelimit_redis.go:31-43 | on every run, an interval no longer than a window admits for a client, by the time of admission, at most twice the limit, plus those whose INCR came after their window was over, plus those let through on an error alone |
| `RedisWindow.PromptIntervalAdmitsTwiceLimit` | internal/gateway/ratelimit_redis.go:31-43 | if each INCR of the client is done within its window and nothing is let through on an error alone, such an interval admits at most twice the limit |
| `RedisWindow.LateIncrExceedsInterval` | internal/gateway/ratelimit_redis.go:32-42 | for every limit and every window of at least one there is a run with no revival and no error that admits one more than twice the limit within a window's length |
| `RedisWindow.LateIncrExceedsLimit` | internal/gateway/ratelimit_redis.go:35-42 | a late INCR can revive an expired counter and exceed the limit |
| `Margin.Evaluate` | internal/margin/engine.go:70-125 | fails iff some balance read fails or the price of some non-zero holding fails; otherwise reports the exact sums over all assets, skipped ones included, with their health factor, status and positions |
| `Margin.FailureIsExact` | internal/margin/engine.go:76-86 | a failed balance stops the evaluation, a failed price only that of a non-zero holding |
| `Margin.StatusIsExact` | internal/margin/engine.go:114-136 | with debt, the account is liquidatable iff weighted collateral is below the liquidation threshold times the debt, in margin call iff it is not and is below the other threshold times the debt, and the printed factor is their quotient to half its last digit; without debt it is healthy and there is no factor |
| `Margin.TotalsAreSums` | internal/margin/engine.go:88-94 | totals add up over the assets, an asset counting with its value, and with its value times its factor |
| `Margin.TotalsArePrintedToTheCent` | internal/margin/engine.go:106-112 | printed gross, weighted and debt are the exact ones to half a cent |
| `Margin.PositionsAreHoldings` | internal/margin/engine.go:80-103 | the positions are those of the non-zero holdings, each once, in order, with symbol and raw balance and with price, factor, value and weighted value to half a cent |
| `Margin.Pow10IsDecimal` | internal/margin/oracle.go:93-95 | the scale is a power of ten |
| `Margin.ValueScales` | internal/margin/engine.go:88-90 | one more decimal of balance or price makes the value a tenth, and ten times the units with one more decimal are worth the same |
| `Margin.GuardIsExact` | internal/margin/oracle.go:73-80 | exactly the positive answers give a price, with the feed's decimals |
| `Margin.ValueIsExact` | internal/margin/engine.go:88-90 | scaled by the token and feed decimals, a value is exactly raw balance times raw price |
| `Margin.RoundIsNearest` | internal/margin/engine.go:99-110 | a printed number is the nearest one, ties away from zero |
| `Margin.OrderDoesNotMatter` | internal/margin/engine.go:75-104 | totals, health factor, status and failure are the same for every order of the assets, and the positions are a permutation of each other |
| `Margin.RiskIsMonotone` | internal/margin/engine.go:114-136 | raising balances, prices or factors never worsens the status, and raising the debt never improves it, also across zero |
| `Margin.RaisedReadsAreNoLess` | internal/margin/oracle.go:73-80 | raising a balance, a factor or a feed's answer, also across the positive-price guard, gives a holding that counts as no less |
| `Margin.WeightedAtMostGross` | internal/margin/engine.go:88-94 | with factors between zero and one, weighted collateral is between zero and gross collateral |
| `Margin.PrintedTotalsAgree` | internal/margin/engine.go:96-112 | the printed values of k positions differ from the printed total by at most (k + 1) half cents, likewise the weighted ones |
| `Margin.PrintedHealthTellsStatus` | internal/margin/engine.go:121-136 | for four-digit thresholds, the status read off the printed health factor is the reported one unless the print is a threshold the true value falls short of, and then the reported one is one step worse |

## Left out

- HTTP routing, reverse proxy, middleware, JSON, server lifecycle and configuration loading: plumbing.
- Tokens and JWTs, the wallet keystore, the user store and the notification consumer: thin wrappers or one-step invariants that would only add easy members.
- The event bus itself: publishing is an append to a log, and lost events are not modelled.
- A process crash between a save and its events: the code keeps no outbox, so results about events cover error returns only.
- The ticker, the cancellation and the logging of the polling loop.
- Monitors.Monitor.Sync: heights are unbounded, so the wrap-around of a 64-bit height at a head of 2^64 - 1 is not captured.
- Postgres.PostgresStore.SaveBlock: the text encoding of hashes, addresses and values in columns and the BIGINT range are not captured, nor is a commit whose outcome is unknown.
- MemStores.MemStore.LastBlock: the sort of the collected heights is a scan for the greatest one.
- TokenBucket.RateLimiter.Allow: rounding of 64-bit floating point is not captured; the mutex makes calls atomic.
- Stores.Store.SaveBlock: the in-memory store never returns an error by itself; that it may is part of the interface alone.
- RedisWindow.WindowGrantsExactly: automatic retries of the Redis client, clock skew between replicas and Redis and the text of the Redis key are not captured; a counter is identified by the pair of client and window.
- Margin.Evaluate: the text of printed numbers and of error messages is not captured.
