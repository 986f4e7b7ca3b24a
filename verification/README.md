# A verified model of the Stacks blockchain API

A Stacks node streams the blocks of a forking chain to this API, which stores them in SQL
tables, keeps a `canonical` flag on every row, and answers queries about balances, tokens,
transactions and events from the flagged rows. The project models that core in Dafny and
proves what holds of it for every input, every run of messages and every reachable state.
`dafny verify dfyconfig.toml` checks all of it.

## The parts

**The block store** (`Tables`, `Chain`, `Store`, `Reference`, `Reorg`, `Transaction`, `Runs`,
`Mempool`, `Database`). `Store` gives the transaction for one block message as functions on the
tables: find the tip, walk down an orphaned branch making it canonical again, flip the entities
of both branches, prune and restore mempool rows, insert the block. `Database.PgDataStore` is the
class that does the same statement by statement, each method proved against its function.
`Reference` says what the tables should be, from the list of stored blocks alone. The main
theorem, `Runs.EveryRunIsRecomputed`, says that after any run the two coincide. During the
recursive walk they do not: the canonical blocks are then the lower part of the old branch and
the upper part of the new one (`Reorg.Splice`), and the proof follows the walk through these
states.

**Ledger queries** (`Ledger`, `CanonicalRows`, `AddressQuery`, `AddressUpdates`,
`AddressTotals`, `Nft`). Balance, supply, locks, per-transaction totals and token counts, each
compared with a replay of the canonical chain or with another query.

**Codecs** (`Positional`, `C32`, `Abi`, `Wire`, `WireConverse`, `WireReader`, `Css`). Base-32
addresses, printed ABI types, the wire format of section "Transaction Encoding" of SIP-005, and
CSS identifiers as in section 4.3.7 of CSS Syntax Module Level 3, each with an independent
inverse. `Wire` gives the readers as functions on the bytes left, `WireReader` the class that
moves an offset.

**Smaller state machines** (`Burnchain`, `Events`, `Faucet`, `Rosetta`). Invalidation of
burnchain rewards, renumbering and paging of events, the faucet's rate limit, and Rosetta
operations built while the transaction object is being overwritten.

## Where the code falls short of the intention

Each of these is stated with the exact condition under which the code does what one expects,
and with a concrete case in which it does not.

- Mined transactions are meant to leave the mempool (`Mempool.MinedArePrunedExactlyWhen`). A
  transaction announced after it was mined is listed (`Mempool.LateTxIsVisible`). And a
  reorganisation works from the top down, so a transaction that the orphaned branch has at a
  lower height than the restored one is pruned first and restored afterwards: it is canonical
  and listed (`Mempool.MinedTxCanStayVisible`).
- The listing of an address's tokens repeats a token that left and came back, while the count
  counts it once (`Nft.ListingAgainstCount`, `Nft.ReturnedTokenIsListedTwice`).
- A Rosetta burn operation is booked on the sender of the last transfer event, which need not be
  the account that burned (`Rosetta.AccountsAgreeExactlyWhen`, `Rosetta.FinalAccountsAgreeExactlyWhen`,
  `Rosetta.BurnBookedOnWrongAccount`).
- Poison-microblock and coinbase transactions get no fee operation, so a fee on one of them is
  missing from its operations (`Rosetta.AmountsAddUp`, `Rosetta.PoisonFeeIsMissing`).
- A string with U+0000 is not recovered from its CSS text (`Css.EscapeRoundTrip`,
  `Css.NullIsReplaced`); CSSOM asks for that.
- The address query lists the transfers of a transaction in the opposite order of the socket
  (`AddressTotals.QueryAgreesWithSocket`, `AddressTotals.TransfersRunBackwards`).
- An address that is only a party of a lock or a token event is told of a transaction and not
  shown it; one touched only in an orphaned copy is shown it and not told
  (`AddressTotals.ToldAndListedAgreeExactlyWhen`, `AddressTotals.LockedAddressIsNotListed`,
  `AddressTotals.OrphanedTouchIsListed`).
- The total beside a page reads 0 on a page past the end (`Nft.NftTotalExactlyWhen`,
  `AddressQuery.PageShowsTotals`, `Nft.TotalIsLostPastTheEnd`).
- A faucet payment that is answered and not recorded escapes the rate limit
  (`Faucet.PaymentsBoundedExactlyWhen`, `Faucet.UnrecordedPaymentsAreUnbounded`).
- The supply query fails while no mint, burn or reward is canonical
  (`Ledger.SupplyAnswersExactlyWhen`, `Ledger.SupplyOfQuietChainFails`).
- When the second transaction of a burn-block message fails, the two burnchain tables can
  disagree about an earlier message (`Burnchain.TablesKeepSameMessages`,
  `Burnchain.FaultSplitsTables`).

## Assumptions about messages

Heights start at 1; one index block hash denotes one parent and height; the entities of a block
message carry the block's own hash and height (`src/event-stream/event-server.ts`, lines 171-197).
A reward's maturity height is the height of the block that reports it. Results about totals per
transaction also assume that transaction ids are unique on the canonical chain and that an
event names the transaction it was recorded under; the order of transfers is compared for
events numbered in the order of the message. Results about chain order assume that transactions
and NFT events carry the place of their transaction, and that event indexes rise within one.

## Model

| member | source | states |
|---|---|---|
| `Runs.EveryRunIsRecomputed` | src/datastore/postgres-store.ts:474-534 | after any sequence of block, mempool and drop messages, forks, repeats and rejections included, all nine chain tables equal the tables computed from the stored blocks alone: rows by arrival, flagged canonical exactly on the best branch |
| `Runs.CanonicalBlocksAreBestBranch` | src/datastore/postgres-store.ts:866-1028 | in every reachable state a block row is canonical if and only if it is the first-stored block of greatest height or an ancestor of it by parent links |
| `Runs.OneCanonicalBlockPerHeight` | src/datastore/postgres-store.ts:871-949 | in every reachable state there is exactly one canonical block at each height from 1 to the tip and none at any other height |
| `Runs.TipQueriesAgree` | src/datastore/postgres-store.ts:1279-1294 | in every reachable state the chain-tip query and the current-block query return the same row, the first-stored block of greatest height, or nothing if no block is stored |
| `Runs.EntitiesFollowTheirBlock` | src/datastore/postgres-store.ts:695-816 | in every reachable state each row of the eight entity tables belongs to one stored block and has its canonical flag and height |
| `Runs.RedeliveryChangesNothing` | src/datastore/postgres-store.ts:1166-1190 | delivering a block that is already stored succeeds, changes no table and no mempool row, and reports no reorganised entity |
| `Runs.OnlyMissingParentFails` | src/datastore/postgres-store.ts:885-1015 | from a reachable state the transaction fails if and only if the block is above height 1 and its parent is not stored; the duplicate-parent branch and the three error branches of the walk never fire |
| `Runs.ReorgCounts` | src/datastore/postgres-store.ts:895-924 | the logged counts are those of the restored and of the orphaned blocks, table by table; as many blocks are restored as orphaned: tip height minus fork height, or none without a new tip |
| `Runs.HistoryIsReachable` | src/event-stream/event-server.ts:530-541 | every history of distinct blocks with parents first is reached by delivering it, and leaves the tables recomputed from it |
| `Runs.ReachedIsDeliverable` | src/datastore/postgres-store.ts:987-1015 | the blocks any run stores form such a history: distinct, parents first |
| `Mempool.MempoolRowAfterUpdate` | src/datastore/postgres-store.ts:495-501 | after an accepted block each mempool row is pruned if the new tip has the transaction, else decided by the lowest reorganised height where either branch has it, the restored block winning at equal height, else unchanged |
| `Mempool.RestoredTxIsPruned` | src/datastore/postgres-store.ts:907-947 | after an accepted update, a transaction that the restored branch has is pruned if and only if the new block has it too or the orphaned branch does not have it at a lower height |
| `Mempool.OrphanOnlyTxIsVisible` | src/datastore/postgres-store.ts:907-924 | after an accepted update, a transaction that only the orphaned branch has is pruned if and only if the new block has it |
| `Mempool.OtherTxIsUntouched` | src/datastore/postgres-store.ts:646-693 | after an accepted update, a transaction in neither branch is pruned if and only if it was before or the new tip has it |
| `Mempool.MinedTxCanStayVisible` | src/datastore/postgres-store.ts:915-947 | a run of six messages that never lists a mined transaction; the next block, by a reorganisation, leaves one canonical and listed |
| `Mempool.MinedArePrunedExactlyWhen` | src/datastore/postgres-store.ts:474-534 | over whole runs: no transaction of the canonical chain is ever listed in the mempool if and only if every message meets its condition: a mempool message inserts no id that is canonical, and a new tip does not undo a transaction of its ancestors that it lacks itself |
| `Mempool.StepKeepsExactlyWhen` | src/datastore/postgres-store.ts:1695-1770 | from any reachable state in which no mined transaction is listed, the next message keeps it so if and only if it meets that condition; drops, rejected blocks and blocks that are no new tip always do |
| `Mempool.PrunedUnlessUndone` | src/datastore/postgres-store.ts:907-947 | all cases of a reorganisation together: a row ends pruned if and only if it is not undone and was pruned or is in the restored branch |
| `Mempool.LateTxIsVisible` | src/datastore/postgres-store.ts:1695-1739 | a run of two messages, a block and then one of its transactions announced to the mempool, after which the mined transaction is listed |
| `Mempool.AnnouncedTxs` | src/datastore/postgres-store.ts:1695-1739 | after any run, an announcement adds the transactions without a row, visible, keeps the rows that are there and leaves the chain tables |
| `Mempool.DroppedTxs` | src/datastore/postgres-store.ts:1747-1766 | after any run, a drop leaves the same rows, and a row is pruned if and only if it is named or was pruned |
| `Transaction.UpdateRecomputes` | src/datastore/postgres-store.ts:474-534 | one accepted update turns the recomputed tables of the old history into those of the new history, with the closed form of the mempool and of the counts |
| `Transaction.UpdateRejects` | src/datastore/postgres-store.ts:1009-1015 | a block above height 1 without a stored parent is rejected as such |
| `Transaction.ReorgPreparesParent` | src/datastore/postgres-store.ts:951-1028 | the reorganisation step makes the incoming block's ancestors exactly the canonical blocks when the block is a new tip, and otherwise changes nothing |
| `Transaction.ChainTipIsTip` | src/datastore/postgres-store.ts:450-472 | on recomputed tables the tip query returns the first-stored block of greatest height |
| `Transaction.CurrentBlockIsTip` | src/datastore/postgres-store.ts:1279-1294 | on recomputed tables the current-block query returns the row of the tip query |
| `Transaction.BranchesMatch` | src/datastore/postgres-store.ts:1017-1025 | a new tip is one above the old tip, so the stretch restored is as long as the stretch orphaned: tip height minus fork height |
| `Transaction.StoreNewBlock` | src/datastore/postgres-store.ts:503-533 | inserting a new block with its entities gives the recomputed tables of the longer history, duplicate transaction ids inside the block stored once |
| `Transaction.Redelivered` | src/datastore/postgres-store.ts:1166-1190 | a stored block is never a new tip, and storing it again changes no table |
| `Reorg.WalkRestoresBranch` | src/datastore/postgres-store.ts:866-949 | from any level the recursive walk ends with exactly the restored branch canonical, through states whose canonical blocks are the lower part of one branch and the upper part of the other |
| `Reorg.LevelSwapsOneBlock` | src/datastore/postgres-store.ts:871-924 | a level with one canonical block orphans exactly that block and all its entities and restores the other, so that looking at the first orphaned row alone loses nothing |
| `Reorg.OneCall` | src/datastore/postgres-store.ts:871-947 | one call of the walk swaps its level and recurses exactly if the branches still differ one level below |
| `Reorg.TopDownMempool` | src/datastore/postgres-store.ts:907-924 | applying restore and prune level by level from the top down gives the row-by-row rule in which the lowest level decides |
| `Reorg.TopDownCounts` | src/datastore/postgres-store.ts:895-924 | the counters accumulated over the levels are the sums over the two stretches |
| `Store.RestoreDescends` | src/datastore/postgres-store.ts:926-947 | every recursive call of the walk works at a strictly smaller height, in any state of the tables |
| `Reference.MarkTabled` | src/datastore/postgres-store.ts:695-816 | flipping the entities of one block keeps all eight tables in the form computed from the blocks, that block added to or taken from the canonical ones |
| `Reference.MarkCounts` | src/datastore/postgres-store.ts:695-816 | the row counts of the eight updates are the sizes of the block's entity lists |
| `Reference.MarkIds` | src/datastore/postgres-store.ts:701-710 | the ids returned by the update on transactions are exactly the block's transaction ids |
| `Chain.TipIsFirstHighest` | src/datastore/postgres-store.ts:450-472 | the tip is the earliest stored among the blocks of greatest height, and no other block is |
| `Chain.BranchesPartForGood` | src/datastore/postgres-store.ts:926-947 | two branches agree at a height exactly below their fork: once they part they never meet again |
| `Chain.BestExtend` | src/datastore/postgres-store.ts:951-1028 | a block above the tip makes its own ancestors the best branch; any other block leaves the best branch as it was |
| `Database.PgDataStore.Update` | src/datastore/postgres-store.ts:436-534 | the imperative transaction computes the specified tables and counts, or throws and leaves every table as it was |
| `Database.PgDataStore.RestoreOrphanedChain` | src/datastore/postgres-store.ts:866-949 | the recursive method leaves the specified tables and counters and throws the specified error |
| `Database.PgDataStore.RestoreLevel` | src/datastore/postgres-store.ts:871-924 | one level rewrites blocks, entities, mempool and counters as specified |
| `Database.PgDataStore.MarkEntitiesCanonical` | src/datastore/postgres-store.ts:695-816 | the loops over the rows of eight tables flip exactly the block's rows, return the ids of the transactions flipped and add the row counts on one side only |
| `Database.UpdateFlags` | src/datastore/postgres-store.ts:720-732 | one update, row by row, gives the table with exactly the matching rows flipped and their number |
| `Database.UpdateBlockFlags` | src/datastore/postgres-store.ts:871-906 | the update on blocks, row by row, sets the flag of exactly the matching rows and returns them |
| `Database.FlippedIds` | src/datastore/postgres-store.ts:701-710 | the ids collected row by row are those of the transactions the update flips |
| `Database.PgDataStore.HandleReorg` | src/datastore/postgres-store.ts:951-1028 | missing and duplicate parents throw; a walk starts exactly for an orphaned parent under a block above the tip |
| `Database.PgDataStore.PruneMempoolTxs` | src/datastore/postgres-store.ts:673-693 | a mempool row is pruned afterwards exactly if it is named or was pruned before; the ids returned are the named rows that exist |
| `Database.PgDataStore.RestoreMempoolTxs` | src/datastore/postgres-store.ts:646-666 | a mempool row is pruned afterwards exactly if it was and is not named; the ids returned are the named rows that exist |
| `Database.PgDataStore.UpdateBlock` | src/datastore/postgres-store.ts:1166-1190 | the search for a conflict returns 0 and changes nothing exactly if some row has the hash, and otherwise appends the row |
| `Database.PgDataStore.InsertBlock` | src/datastore/postgres-store.ts:503-533 | the loop over the message's transactions stores every entity with the block's hash, height and flag, or nothing if the block was stored before |
| `Database.PgDataStore.InsertEntry` | src/datastore/postgres-store.ts:508-523 | loops insert one transaction's rows into seven tables, the transaction itself only if its id is new in its block |
| `Database.PgDataStore.Handle` | src/datastore/postgres-store.ts:1695-1770 | each kind of message steps the tables as the run does |
| `Database.PgDataStore.UpdateMempoolTxs` | src/datastore/postgres-store.ts:1695-1739 | the loop of inserts adds exactly the ids without a row, visible, and keeps the other rows |
| `Database.PgDataStore.DropMempoolTxs` | src/datastore/postgres-store.ts:1747-1766 | the rows named become pruned and the others stay |
| `Database.ProcessQueue` | src/event-stream/event-server.ts:530-541 | processing the queue one message at a time on a new store ends in the recomputed tables |
| `Ledger.BalanceIsReplay` | src/datastore/postgres-store.ts:2671-2754 | after any run, for every address and height, the flag-filtered balance equals replaying fees, transfers, mints, burns and matured rewards block by block along the canonical path from genesis |
| `Ledger.BalanceAtBlockIsReplay` | src/datastore/postgres-store.ts:2660-2767 | the query by height finds no block exactly outside 1 to the tip; where it answers, its balance is the replayed one, its sent, received and fee columns are the sums along the canonical path up to that height, and its rewards the four reward columns summed along it |
| `CanonicalRows.BalanceReportsActiveLock` | src/datastore/postgres-store.ts:2709-2739 | after any run, several locks are an error if and only if several are active on the canonical branch at that block; a single one is reported with its amount, transaction, heights and the burn height of its block; without one the fields are empty |
| `CanonicalRows.CanonicalRowsAreBranch` | src/datastore/postgres-store.ts:695-816 | the canonical rows of any table are, as a multiset, the rows of the best branch |
| `Ledger.ReplayAddsUp` | src/datastore/postgres-store.ts:2682-2754 | a replayed account equals credits minus debits minus fees plus rewards summed over the branch |
| `Ledger.QuerySum` | src/datastore/postgres-store.ts:2682-2748 | any flag-filtered sum up to a height equals the sum over the canonical path up to that height |
| `Ledger.BalancesAddUpToSupply` | src/datastore/postgres-store.ts:2781-2807 | in any state and at any height the balances of all addresses sum to the supply the query reports, minus all canonical fees plus the three fee columns of matured rewards; where the query fails, to minus the fees |
| `Ledger.SupplyAnswersExactlyWhen` | src/datastore/postgres-store.ts:2769-2807 | the supply query answers if and only if a mint, burn or reward row is canonical at or below the height asked for, or the current height if there is one |
| `Ledger.SupplyHeight` | src/datastore/postgres-store.ts:2769-2807 | after any run the height reported is the height used: the one asked for, or the tip's; without a height the answer is that at the tip, or an error if no block is stored |
| `Ledger.TotalIsSums` | src/datastore/postgres-store.ts:2781-2803 | where it answers, the total is mints minus burns plus coinbase; where it is NULL these sums are 0 |
| `Ledger.SupplyOfQuietChainFails` | src/datastore/postgres-store.ts:2804-2807 | after a run of one block without mints, burns and rewards the query fails |
| `AddressQuery.GroupTransfers` | src/datastore/postgres-store.ts:3169-3198 | the grouping loop computes, from joined rows, the specified map of totals per transaction |
| `AddressQuery.QueryTotals` | src/datastore/postgres-store.ts:3110-3198 | grouping the left join gives every transaction, events or none, its fee share plus its part of each of its events by falling index, and no other entry |
| `AddressTotals.RunPageShowsTotals` | src/datastore/postgres-store.ts:3110-3204 | after any run, with or without a height, every page shows the canonical transactions that the address sent, is the target of, or is named in by some stored event, by falling height and falling place, each with the totals of its own canonical events; the total beside it is right if and only if the page shows a transaction or there is none |
| `AddressQuery.PageShowsTotals` | src/datastore/postgres-store.ts:3110-3204 | the same for any tables in which no canonical transaction id repeats |
| `AddressTotals.RunTxsBackwards` | src/datastore/postgres-store.ts:3117-3148 | after any run of blocks whose transactions carry their place, what is listed of an address is the canonical branch's transactions selected for it, from the last to the first |
| `AddressQuery.NewestSorts` | src/datastore/postgres-store.ts:3148-3148 | the events of a transaction are joined by falling index, none lost or repeated |
| `AddressUpdates.EmitAddressTxUpdates` | src/datastore/postgres-store.ts:587-639 | the addresses told of a transaction are exactly the non-empty ones it concerns: sender, target, and the parties of its locks, events and contracts; each is told about exactly the STX events that touch it, once although a transfer to oneself names it twice |
| `AddressUpdates.SocketTotals` | src/api/routes/socket-io.ts:84-110 | the handler's loop computes the sent and received totals and the transfer list of the events it is given |
| `AddressUpdates.PushAddressUpdate` | src/api/routes/socket-io.ts:80-118 | an address is pushed a transaction if and only if it is concerned, with its totals over the transaction's own events |
| `AddressTotals.QueryAgreesWithSocket` | src/datastore/postgres-store.ts:3142-3198 | after any run, for every canonical transaction and address, query and socket show the same sent and received totals; the query lists the transfers in the opposite order, so in the same order if and only if they read the same backwards (ids unique on the canonical chain, events numbered in message order) |
| `AddressTotals.TransfersRunBackwards` | src/datastore/postgres-store.ts:3148-3190 | a run of one block with two transfers, shown as 2, 1 by the query and 1, 2 by the socket |
| `AddressTotals.ToldAndListedAgreeExactlyWhen` | src/datastore/postgres-store.ts:3118-3134 | after any run, a canonical transaction is listed for an address if and only if the address is sender, target or touched by its STX events, canonical or in an orphaned copy; who is told and who is shown agree if and only if the address is one of the first three, or is both a party of something else and touched in an orphaned copy, or neither |
| `AddressTotals.LockedAddressIsNotListed` | src/datastore/postgres-store.ts:603-617 | a run of one block in which an address is only locked: it is told of the transaction and not shown it |
| `AddressTotals.OrphanedTouchIsListed` | src/datastore/postgres-store.ts:3127-3133 | a run of two competing blocks: an address touched only in the orphaned copy is shown the transaction and not told |
| `AddressQuery.UnselectedShowsNothing` | src/datastore/postgres-store.ts:3118-3134 | a transaction that the query does not select for an address shows nothing sent and nothing received |
| `AddressTotals.TotalsAddUpToBalance` | src/datastore/postgres-store.ts:3118-3134 | received minus sent over the transactions the query selects for the address, plus rewards, is the balance: no event missed or counted twice |
| `AddressTotals.RunTotalsAreReplayed` | src/datastore/postgres-store.ts:3169-3198 | after any run the same sum over the selected transactions equals the replay of the canonical chain |
| `Nft.NftCountIsHeld` | src/datastore/postgres-store.ts:2997-3029 | for rows in any order whose canonical part is a legal history, received minus sent equals the number of token values whose last canonical event names the address |
| `Nft.HistoryCountIsHeld` | src/datastore/postgres-store.ts:3555-3565 | the same along the history itself |
| `Nft.CountIsOwned` | src/datastore/postgres-store.ts:2997-3029 | received minus sent equals the tokens owned after replaying the history |
| `Nft.OwnerIsLastRecipient` | src/datastore/postgres-store.ts:3560-3565 | an address owns a token after the replay if and only if the token's last event names it |
| `Nft.ListingAgainstCount` | src/datastore/postgres-store.ts:3555-3567 | the listing has at least as many rows as the count, and as many if and only if the address never sent a token that it now holds |
| `Nft.TableListingAgainstCount` | src/datastore/postgres-store.ts:3555-3567 | the same for a table in any order whose canonical rows form a legal history |
| `Nft.TokenBalance` | src/datastore/postgres-store.ts:2997-3029 | token by token, receipts minus sends by an address are 1 if it is the owner and 0 otherwise |
| `Nft.RunCountIsHeld` | src/datastore/postgres-store.ts:2997-3029 | after any run that delivers events in place and moves tokens legally along the canonical branch, the count is that of tokens owned after replaying that branch as delivered and of values held by the last-event query, and the listing agrees exactly if no held token was ever sent |
| `Nft.RunOwnerIsLastRecipient` | src/datastore/postgres-store.ts:3560-3565 | after any such run the last-event query names an address for a token if and only if replaying the canonical branch as delivered ends with it as owner |
| `Nft.BranchHistoryInOrder` | src/datastore/postgres-store.ts:3564-3568 | events delivered in place are, along the canonical branch, in strict order of height, tx_index and event_index |
| `Nft.NftTotalExactlyWhen` | src/datastore/postgres-store.ts:3555-3585 | for a table in any order, the rows listed are those selected, newest first; the total beside a page is their number if and only if the page shows a row or there is none |
| `Nft.TotalIsLostPastTheEnd` | src/datastore/postgres-store.ts:3574-3585 | one token held, asked for from the second row on: the total reads 0 |
| `Nft.PagesShowListing` | src/datastore/postgres-store.ts:3555-3585 | for a table in any order whose canonical rows form a legal history, enough pages of any size show the listed events from the newest to the oldest, of each asset exactly its listing, every row once |
| `Nft.RunPagesShowListing` | src/datastore/postgres-store.ts:3555-3585 | after any such run, enough pages show the listed events of the canonical branch from the last delivered to the first |
| `Nft.ReturnedTokenIsListedTwice` | src/datastore/postgres-store.ts:3555-3567 | a token minted, sent away and sent back counts once and is listed at least twice |
| `Burnchain.TableIsStanding` | src/datastore/postgres-store.ts:1500-1540 | after any sequence of burn-block messages, failing ones included, a table holds every committed message's rows, canonical if and only if no later committed message has the same hash or a height at or below its own |
| `Burnchain.StandingRow` | src/datastore/postgres-store.ts:1500-1540 | the same for a single row, in both directions |
| `Burnchain.SurvivorsIncrease` | src/datastore/postgres-store.ts:1500-1540 | along a table the burn heights of canonical rows never fall, and two canonical rows have equal heights, or equal hashes, exactly if they came with the same message |
| `Burnchain.TablesKeepSameMessages` | src/event-stream/event-server.ts:78-109 | both tables hold the rows of a message handled to the end; their flags agree if and only if every later invalidation that stopped after the rewards is matched by one handled to the end |
| `Burnchain.FaultSplitsTables` | src/event-stream/event-server.ts:100-109 | a replaced burn block whose reward is invalidated and whose slot holder is not, because the second transaction failed |
| `Burnchain.InvalidateRows` | src/datastore/postgres-store.ts:1505-1517 | the update, row by row, invalidates exactly the canonical rows hit and counts them |
| `Burnchain.BurnStore.UpdateBurnchainRewards` | src/datastore/postgres-store.ts:1491-1541 | the loops invalidate and append as specified, or the table is rolled back |
| `Burnchain.BurnStore.UpdateBurnchainRewardSlotHolders` | src/datastore/postgres-store.ts:1355-1412 | the loops invalidate and append as specified, or the table is rolled back |
| `Burnchain.BurnStore.HandleBurnBlockMessage` | src/event-stream/event-server.ts:68-110 | one message steps both tables; the second transaction starts only when the first has committed, and its failure leaves the first in force |
| `Burnchain.ProcessBurnBlocks` | src/event-stream/event-server.ts:542-550 | processing a sequence of messages ends in the standing rows of both tables |
| `Events.NormaliseEventIndexes` | src/event-stream/event-server.ts:438-453 | in place, every event gets as its index the number of events of the transaction that sort before it, and the count is that of all of them |
| `Events.PlaceIsRank` | src/event-stream/event-server.ts:440-452 | the place in the sorted list is that number |
| `Events.RanksAreBijective` | src/event-stream/event-server.ts:449-452 | the new indexes are 0 to count - 1, each used exactly once |
| `Events.RanksKeepOrder` | src/event-stream/event-server.ts:440-448 | one event gets a smaller number than another if and only if its index was smaller, or equal and it was listed first |
| `Events.OriginalOrderKeeps` | src/event-stream/event-server.ts:440-452 | in the order that pages follow, an event stands at its new number, and before another exactly if its old index was smaller, or equal and it was listed first |
| `Events.RenumberedIsNumbered` | src/event-stream/event-server.ts:438-453 | events renumbered this way carry 0 to count - 1, each once |
| `Events.NumberedInEitherOrder` | src/datastore/postgres-store.ts:2087-2272 | the five lists are numbered in the order of the query if and only if they are in the order of the normalisation |
| `Events.PagesFollowOriginalOrder` | src/datastore/postgres-store.ts:2087-2272 | once the lists are renumbered, every page of the query is that slice of the events in their original order |
| `Events.NormaliseTx` | src/event-stream/event-server.ts:438-453 | the loop for one transaction: renumbered in place, the lists give for every offset and limit that slice of the original order |
| `Events.PageIsSlice` | src/datastore/postgres-store.ts:2087-2272 | a page of the five-table query is that slice of the full sorted list, past the end included |
| `Events.PagesPartition` | src/datastore/postgres-store.ts:2087-2272 | two successive pages of any sizes concatenate to one page of the combined size |
| `Tables.PagesShowAll` | src/datastore/postgres-store.ts:2087-2272 | enough pages of any size show every row once, in order |
| `Tables.OrderByOrders` | src/datastore/postgres-store.ts:3138-3148 | an ordered query is ordered and has every row as often as the table |
| `Faucet.FaucetHandler.Handle` | src/api/routes/faucets.ts:123-152 | the handler answers and records as specified: 429 when the window is full, a row only after payment; the STX handler answers before it records, the BTC handler after |
| `Faucet.AtMostFivePerWindow` | src/api/routes/faucets.ts:114-152 | with a clock that does not go back, no run records more than 5 rows of a currency and address in any closed window of 300000 ms |
| `Faucet.PaymentsBoundedExactlyWhen` | src/api/routes/faucets.ts:123-275 | payments, recorded or not: no closed window holds more than 5 to one address if and only if every payment has fewer than 5 in the window before it |
| `Faucet.RecordedPaymentsAreRows` | src/api/routes/faucets.ts:269-274 | if every payment is recorded, the payments are the recorded rows |
| `Faucet.UnrecordedPaymentsAreUnbounded` | src/api/routes/faucets.ts:262-274 | six payments in one window that are answered and never recorded |
| `Faucet.StackingGrantIsRare` | src/api/routes/faucets.ts:137-152 | an admitted stacking request has no recorded STX grant to its address in the 172800000 ms before, although only 5 rows are read |
| `Faucet.AdmittedExactlyWhen` | src/api/routes/faucets.ts:117-145 | whatever is recorded, a request is admitted if and only if fewer than 5 rows of its currency and address are at most 300000 ms old, and a stacking request if and only if none is at most 172800000 ms old |
| `Faucet.EveryRunIsSpaced` | src/api/routes/faucets.ts:69-106 | in every run, a grant and the fifth one before it are more than the window apart |
| `Faucet.AllowedIsLate` | src/datastore/postgres-store.ts:3498-3512 | reading only the newest five rows is enough for either guard |
| `C32.C32Encode` | src/import-v1/c32helper.ts:60-102 | for every byte string the text is one zero digit per leading zero byte followed by the minimal base-32 digits of the big-endian value |
| `C32.Regroup` | src/import-v1/c32helper.ts:63-81 | the carry loop over hex digits keeps the value |
| `C32.RegroupStep` | src/import-v1/c32helper.ts:65-81 | each step of the carry state machine keeps the relation between digits read, digits written and carried bits |
| `C32.DecodeEncode` | src/import-v1/c32helper.ts:60-102 | an independent decoder returns the bytes |
| `C32.EncodeInjective` | src/import-v1/c32helper.ts:60-102 | different byte strings have different texts |
| `Positional.MinDigitsOfValue` | src/import-v1/c32helper.ts:83-92 | digits without a leading zero are the minimal digits of their value |
| `Positional.ValueOfMinDigits` | src/import-v1/c32helper.ts:83-92 | the minimal digits of a number have that value |
| `C32.NibblesKeepValue` | src/import-v1/c32helper.ts:61-61 | hex digits and bytes have the same value |
| `Abi.TypeStringDelimited` | src/event-stream/contract-abi.ts:155-173 | if two printed types agree up to arbitrary trailing text, the types and the trailing texts are equal, at any nesting and for any names |
| `Abi.TypeRead` | src/event-stream/contract-abi.ts:155-173 | an independent reader, on the printed type followed by anything, returns the type and stops there, at any nesting and for any names |
| `Abi.FieldsRead` | src/event-stream/contract-abi.ts:164-167 | the fields of a tuple are read back up to its closing parenthesis |
| `Abi.NameRead` | src/event-stream/contract-abi.ts:166-166 | a quoted, escaped name is read back as that name |
| `Abi.NumberRead` | src/event-stream/contract-abi.ts:158-169 | a printed length is read back as that decimal number |
| `Wire.TransactionRoundTrip` | src/p2p/tx.ts:275-335 | parsing the SIP-005 bytes of any transaction followed by any suffix returns it, with the raw post-condition and argument bytes, and stops at the suffix |
| `Wire.RawBytesReread` | src/api/controllers/db-controller.ts:536-575 | the first saved byte is the mode, and reading on from the second gives back the post-conditions; raw arguments are kept exactly for calls with arguments and give them back |
| `Wire.EncodingsAreSelfDelimiting` | src/p2p/tx.ts:275-335 | two encodings that agree up to suffixes are of the same transaction |
| `WireConverse.ReadsOnlyEncodings` | src/p2p/tx.ts:275-335 | the converse: whatever bytes are read successfully are the encoding of a well-formed transaction followed by what is left, the header to the byte and the rest up to the high bits of text, and the raw arguments are those of the call |
| `WireConverse.PayloadOnly` | src/p2p/tx.ts:347-419 | the same for a payload |
| `WireConverse.PostConditionOnly` | src/p2p/tx.ts:478-525 | the same for a post-condition |
| `WireConverse.SpendingConditionOnly` | src/p2p/tx.ts:561-619 | the same for a spending condition, to the byte |
| `Wire.PayloadRead` | src/p2p/tx.ts:347-419 | every payload kind is read back, stopping where it ends |
| `Wire.ContractCallRead` | src/p2p/tx.ts:385-406 | a contract call is read back with its raw arguments, absent for an empty list |
| `Wire.ConditionsRead` | src/p2p/tx.ts:311-320 | mode and post-conditions are read back, and the raw bytes are exactly theirs |
| `Wire.PostConditionsRead` | src/p2p/tx.ts:478-525 | a list of post-conditions is read back |
| `Wire.PostConditionRead` | src/p2p/tx.ts:478-525 | each of the three kinds of post-condition is read back |
| `Wire.PrincipalRead` | src/p2p/tx.ts:527-559 | each kind of post-condition principal is read back |
| `Wire.SpendingConditionRead` | src/p2p/tx.ts:561-619 | single- and multi-signature spending conditions are read back |
| `Wire.AuthRead` | src/p2p/tx.ts:280-305 | standard and sponsored authorisations are read back |
| `Wire.ClarityValuesRead` | src/p2p/tx.ts:429-441 | a list of Clarity values is read back |
| `Wire.RecipientRead` | src/p2p/tx.ts:358-370 | a recipient principal is read back |
| `Wire.AssetInfoRead` | src/p2p/tx.ts:469-476 | asset information is read back |
| `Wire.AddressRead` | src/p2p/tx.ts:461-467 | an address is read back |
| `Wire.StringRead` | src/p2p/tx.ts:443-459 | a length-prefixed ASCII string is read back |
| `WireReader.BufferReader.ReadTransaction` | src/p2p/tx.ts:275-335 | the reader method, moving its offset, returns or fails exactly as specified on the bytes left, and leaves the bytes the specification leaves |
| `WireReader.BufferReader.ReadConditions` | src/p2p/tx.ts:311-320 | likewise for the mode and the post-conditions, the raw bytes copied between two offsets |
| `WireReader.BufferReader.ReadTransactionPayload` | src/p2p/tx.ts:347-419 | likewise for a payload |
| `WireReader.BufferReader.ReadContractCallPayload` | src/p2p/tx.ts:385-406 | likewise for a contract call, the raw arguments copied between two offsets |
| `WireReader.BufferReader.ReadTransactionPostConditions` | src/p2p/tx.ts:478-525 | the loop filling the array reads the list as specified |
| `WireReader.BufferReader.ReadTransactionPostCondition` | src/p2p/tx.ts:482-523 | likewise for one post-condition |
| `WireReader.BufferReader.ReadPostConditionPrincipal` | src/p2p/tx.ts:527-559 | likewise for a principal |
| `WireReader.BufferReader.ReadTransactionSpendingCondition` | src/p2p/tx.ts:561-619 | likewise for a spending condition |
| `WireReader.BufferReader.ReadAuthFields` | src/p2p/tx.ts:581-611 | the loop filling the array of authorisation fields reads the list as specified |
| `WireReader.BufferReader.ReadClarityValueArray` | src/p2p/tx.ts:429-441 | the loop filling the array of values reads the list as specified |
| `WireReader.ReadBack` | src/p2p/tx.ts:275-335 | a reader on the encoding of a transaction plus any suffix returns the transaction and has the suffix left |
| `Css.CssEscape` | src/helpers.ts:540-609 | the loop writes, code unit by code unit, the specified text |
| `Css.EscapeRoundTrip` | src/helpers.ts:540-609 | reading the text back gives the string if and only if it has no U+0000, and otherwise the string with U+FFFD in its place; every unescaped character is an identifier character |
| `Css.EscapedExactlyWhen` | src/helpers.ts:559-606 | a code unit stands for itself if and only if it is a letter, digit, hyphen, underscore or beyond ASCII and is no leading digit and no lone hyphen; controls and leading digits are written by their number, everything else after a backslash |
| `Css.NullIsReplaced` | src/helpers.ts:554-557 | the string of one U+0000 is written and read back as U+FFFD |
| `Css.EscapeStartsIdentifier` | src/helpers.ts:559-585 | the text of a non-empty string starts an identifier |
| `Css.PieceRead` | src/helpers.ts:547-607 | one code unit's text is read back as that code unit, whatever follows |
| `Rosetta.GetOperations` | src/rosetta-helpers.ts:63-102 | the method pushes the specified operations and leaves the transaction object as the events overwrote it, also when it throws half-way |
| `Rosetta.ProcessEvents` | src/rosetta-helpers.ts:104-159 | likewise for the loop over events |
| `Rosetta.GetMinerOperations` | src/rosetta-helpers.ts:178-182 | the loop appends one operation per reward |
| `Rosetta.OperationsAreNumbered` | src/rosetta-helpers.ts:63-102 | operation k has index k and names its coin after k; an operation has a related one exactly if it creates a coin, namely the one before, which spends the same amount |
| `Rosetta.OwnOperations` | src/rosetta-helpers.ts:63-95 | type, status, account, amount, coin and sub-account of every operation of the transaction itself, for each of the five kinds |
| `Rosetta.EventOperations` | src/rosetta-helpers.ts:161-307 | type, status, account, amount, coin and related operation of every operation that one more event adds, a burn on the sender of the last transfer |
| `Rosetta.SucceedsExactlyWhenComplete` | src/rosetta-helpers.ts:104-159 | an exception is thrown exactly when a token transfer lacks recipient or amount, a transfer event a party, or a mint event its recipient |
| `Rosetta.AmountsAddUp` | src/rosetta-helpers.ts:206-307 | all amounts sum to mints minus burns minus fee, plus matured rewards for a coinbase, if and only if the fee is zero or the kind of transaction shows a fee |
| `Rosetta.PoisonFeeIsMissing` | src/rosetta-helpers.ts:90-92 | a poison-microblock transaction with fee 1 has one operation, without an amount |
| `Rosetta.OperationsBook` | src/rosetta-helpers.ts:104-236 | account by account, the amounts are the effects of fee, transfers, mints, burns and rewards, corrected by burns booked on the sender of the last transfer; that sender is the one left in the transaction |
| `Rosetta.AccountsAgreeExactlyWhen` | src/rosetta-helpers.ts:221-236 | every account is right after every event if and only if each burn is made by the sender of the last transfer before it |
| `Rosetta.FinalAccountsAgreeExactlyWhen` | src/rosetta-helpers.ts:221-236 | for the whole list alone, every account is right if and only if the burns booked on each account, those made while it was the last sender, amount to the burns it made |
| `Rosetta.BurnFreeAccountsAgree` | src/rosetta-helpers.ts:104-159 | without burns every account is right |
| `Rosetta.BurnBookedOnWrongAccount` | src/rosetta-helpers.ts:134-136 | a contract call whose burn is booked on an account that did not burn |

## Left out

- AddressQuery.PageShowsTotals: the last in-memory sort of a page, which is already in that order, is not modelled.
- Database.PgDataStore.Handle: a mempool message is one step on a set of ids; parsing the raw transactions is not modelled.
- Faucet.FaucetHandler.Handle: payment and recording are parameters that succeed or fail; amounts, the nonce retry loop and the remote nodes are not modelled.
- Wire.TransactionRoundTrip: `deserializeCV` and `serializeCV` are a parameter, assumed to consume exactly the bytes of the value they return, and for the converse to accept nothing else.
- WireReader.BufferReader.ReadTransaction: reading past the end of the buffer is the buffer library's exception and is an error result here; the list reader `readTransactions` is not modelled.
- Abi.NameRead: escapes as JSON does for quotes, backslashes and control characters; the escaping of lone surrogates is not modelled.
- Rosetta.GetOperations: arguments of a contract call stay bytes where the source prints them in hex; the currency beside an amount is a constant and is dropped; reading operations back into construction options is not modelled.
- Block hashes, transaction ids, asset identifiers and token values are numbers or strings compared for equality; columns that no modelled statement reads are dropped.
- The `names`, `namespaces` and `subdomains` tables: names and namespaces store the index hash in another form than the reorganisation matches on, and subdomains take their flag from a separate attachment path.
- `src/datastore/memory-store.ts`: a second store with different fork behaviour and mostly unimplemented methods.
- Splitting a block message into transactions and per-kind event lists, before the indexes are renumbered.
- Connection pools, retries, migrations as code, logging, event emitters, routers, proxying and schema validation: input and output only.
- Hashes, signatures, base58, `c32check` and coin selection: code of other libraries.
