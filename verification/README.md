# An offline-first point-of-sale outbox and its sync cycle, in Dafny

This project models the core of a small React Native point-of-sale app that
records items, sales and stock movements in a local SQLite database. Every
local write also appends an entry to an outbox, the `sync_queue` table. A
background cycle pushes that outbox to a Supabase backend and pulls back the
rows other devices wrote.

The model is functional. The five tables (`meta`, `items`, `sales`,
`stock_movements`, `sync_queue`) form one immutable value `Database.Db`:
- `meta` is a text-to-text map;
- the other four tables are sequences in rowid order, with their PRIMARY KEY
  constraints stated as a predicate.

Every operation is a pure function from state to state. A JavaScript
exception does not undo the statements before it, so an operation that can
throw returns `After(state, result)`: the state it reached, together with an
`Ok` value or an `Err` message.

Modules, one per component:
- `Common`, `Tables`, `Sorting`: option/result types; tables keyed by id
  (INSERT, INSERT OR REPLACE, insert-if-absent); SQL/JavaScript ordering with
  NULL first.
- `JsText`: JavaScript `parseInt` without a radix and `Number#toString` on
  integers, because the sequencer stores its counter as text. Also ISO date
  splitting and the text order that the cursor comparison uses.
- `Schema` (src/db/schema.js): row types, CHECK enumerations, defaults.
- `Device` (src/db/database.js): the `meta` bootstrap, the device id, and the
  per-device sequencer `getNextDeviceSeq`.
- `Database` (src/db/database.js): the writers `addItem`, `recordSale` and
  `seedData`, with their outbox append. The outbox invariant `Gapless` says
  entry `i` carries sequence number `i + 1` and the counter stands at the
  number of entries.
- `Stock`: `computeStock` as a fold over movements and sale lines.
- `StockScreen`: the stock adjustment write path, and the stock list with its
  low-stock flag.
- `QuickSale`: cart operations and checkout.
- `Broadcast`: the status-listener registry.
- `Merge`: pull queries and merge policies.
- `Sync`: `performSync` as a single-flight Idle/Running machine.

The remote service is an oracle (`Sync.Transport`). It supplies the reply to
the push and, for each of the three pulled tables, either a failed query or
the remote table. The model applies the query's filter itself. Uuids, clock
readings and the outcome of the sequencer's UPDATE are parameters.

Behaviours of the code the model keeps as written:
- A failed pull (null `data`) is not reported as an error. The table is
  skipped and the cursor still advances (`Sync.FailedPullsStillAdvance`,
  `Sync.SkippedWindowLost`).
- Merge failures are not collected. The first throwing INSERT aborts the
  cycle, and the rows merged before it stay written
  (`Sync.MergeRejectedCycle`).
- Listener calls are not isolated from each other.

## Model

| member | source | states |
|---|---|---|
| `Schema.ParseMode` | src/db/schema.js:17 | a mode text is admitted exactly when it is one of fastfood, spaza, both, and reads back as the value it names |
| `Schema.ParseMovementType` | src/db/schema.js:38 | a movement type text is admitted exactly when it is adjustment, delivery or return |
| `Schema.ParseOpType` | src/db/schema.js:48 | an op_type is admitted exactly when it is one of the five operation names |
| `Schema.EnumTextsRoundTrip` | src/db/schema.js:17-48 | every enumeration value is stored as a text its CHECK admits, and reads back as itself |
| `Device.InitMeta` | src/db/database.js:14-20 | the bootstrap runs only without a `device_id` row, creates device_id, device_seq '0' and last_sync '', and never changes an existing row |
| `Device.InitMetaIdempotent` | src/db/database.js:14-20 | a second initialisation leaves `meta` unchanged |
| `Device.DeviceIdStable` | src/db/database.js:14-32 | a fresh device reports the id it was bootstrapped with, before and after any later initialisation |
| `Device.NextDeviceSeq` | src/db/database.js:34-39 | a failed UPDATE leaves the counter as it was and fails the call |
| `Device.NextDeviceSeqWithoutCounter` | src/db/database.js:35-37 | with no counter row the missing value counts as 0: the call answers 1 and nothing is persisted |
| `Device.NextDeviceSeqFromCounter` | src/db/database.js:34-39 | from a counter at n the call returns n+1 and persists n+1, touching no other row |
| `Device.DrawsConsecutive` | src/db/database.js:34-39 | any sequencer that counts up issues n+1, ..., n+k over k calls and leaves the counter at n+k |
| `Device.IssueSeqsConsecutive` | src/db/database.js:34-39 | k consecutive calls of `getNextDeviceSeq` issue n+1 ... n+k: strictly increasing, with no duplicates or gaps |
| `JsText.ParseIntOfIntToString` | src/db/database.js:36-37 | the counter text the sequencer writes parses back to the number it wrote |
| `JsText.DatePart` | src/db/database.js:99 | the sale date is the longest prefix of the ISO time before the first 'T' |
| `JsText.BeforeTransitive` | src/sync/sync.js:98 | the text order that `.gt` compares timestamps by is transitive |
| `Database.Installed` | src/db/database.js:8-32 | a fresh install reports the id it was given ('unknown' for an empty one), satisfies every PRIMARY KEY, and has a gapless outbox |
| `Database.AppendEntry` | src/db/database.js:77-90 | the outbox append succeeds exactly when the sequencer persists and the entry id is fresh; it adds one unsynced entry at the end and touches no domain table |
| `Database.AppendEntryFromCounter` | src/db/database.js:77-90 | from a counter at c the appended entry is stamped c+1 and the counter moves to c+1 |
| `Database.AppendEntryKeepsGapless` | src/db/database.js:77-90 | an append with a fresh entry id keeps the outbox gapless, whether or not the sequencer's UPDATE succeeds |
| `Database.AppendEntryKeepsKeys` | src/db/schema.js:47 | an append keeps every PRIMARY KEY constraint |
| `Database.WriteItem` | src/db/database.js:71-90 | the item row is inserted before the sequence is drawn, so a failing sequencer leaves the row without an outbox entry |
| `Database.AddItem` | src/db/database.js:67-93 | `addItem` returns the new id, appends exactly that row and exactly one `item_insert` entry on `items` whose record id is the returned id and whose payload holds the row's columns |
| `Database.RecordSale` | src/db/database.js:96-123 | `recordSale` inserts one sale with the given lines, total, day part of the clock and device id, and one `sale_insert` entry on `sales` whose record id is the sale id |
| `Database.WriteItemKeepsInvariants` | src/db/database.js:67-93 | an item write keeps every PRIMARY KEY and, with a fresh entry id, the gapless outbox |
| `Database.RecordSaleKeepsInvariants` | src/db/database.js:96-123 | a sale write keeps every PRIMARY KEY and, with a fresh entry id, the gapless outbox |
| `Database.RecordSaleFromCounter` | src/db/database.js:107-119 | a recorded sale's entry carries the next sequence number after the stored counter |
| `Database.AddItemFromCounter` | src/db/database.js:77-90 | an added item's entry carries the next sequence number after the stored counter |
| `Database.SeededGrow` | src/db/database.js:48-63 | one more seed iteration extends the seeded rows and entries by exactly that seed's row and entry |
| `Database.SeedItem` | src/db/database.js:49-62 | one seed record is written as an item whose outbox payload is the record; every PRIMARY KEY is kept, and, given a fresh entry id, the outbox stays gapless on every path, including a failing sequencer that leaves the row without an entry |
| `Database.SeedData` | src/db/database.js:41-64 | a non-empty `items` table is left alone; otherwise every seed gets one item row and one `item_insert` entry, in order; the outbox stays gapless whenever the drawn entry ids are distinct and fresh, even when a seed fails part way |
| `Stock.StockAfterMovement` | src/db/database.js:126-141 | a new movement shifts its item's stock by its quantity and no other item's stock |
| `Stock.StockAfterSale` | src/db/database.js:126-148 | a new sale lowers each item's stock by the quantity its lines sell of it; a sale with no line for the item changes nothing |
| `Stock.StockAfterNewItem` | src/db/database.js:126-140 | an id with no item row has stock 0; a new item row changes no other item's stock, and the new item starts at its initial stock when no movement or sale names it |
| `Stock.StockExample` | src/db/database.js:126-151 | initial stock 10, a delivery of 5 and a sale of 3 give stock 12 |
| `Stock.MovementSumConcat` | src/db/database.js:130-141 | the movement sum over a concatenation of histories is the sum of the parts |
| `Stock.SoldSumConcat` | src/db/database.js:143-148 | the sold quantity over a concatenation of sales is the sum of the parts |
| `Stock.RecordSaleLowersStock` | src/db/database.js:96-151 | recording a sale lowers stock by the quantities sold, even when its outbox append fails |
| `QuickSale.AddToCartSpec` | src/screens/QuickSaleScreen.js:31-46 | an item already in the cart gets one more on its line only; a new item is appended with quantity 1, its name and its price; the cart stays well formed and the total grows by one unit price |
| `QuickSale.UpdateQuantitySpec` | src/screens/QuickSaleScreen.js:49-57 | the item's line becomes max(1, q + delta), the others are unchanged, and no quantity drops below 1 |
| `QuickSale.RemoveFromCart` | src/screens/QuickSaleScreen.js:59-61 | the result holds exactly the lines of other items, and the item's id is gone |
| `QuickSale.RemoveFromCartConcat` | src/screens/QuickSaleScreen.js:59-61 | removal is a filter: it acts line by line and keeps the order of the remaining lines |
| `QuickSale.RemoveFromCartSpec` | src/screens/QuickSaleScreen.js:59-65 | removal keeps the cart well formed and lowers the total by the removed line's subtotal |
| `QuickSale.TotalConcat` | src/screens/QuickSaleScreen.js:63-65 | the total of joined carts is the sum of their totals |
| `QuickSale.TotalWithQuantity` | src/screens/QuickSaleScreen.js:49-65 | changing one line's quantity changes the total by its price times the change |
| `QuickSale.TotalWithout` | src/screens/QuickSaleScreen.js:59-65 | dropping one item's line lowers the total by that line's subtotal |
| `QuickSale.FirstShort` | src/screens/QuickSaleScreen.js:75-88 | finds a line exactly when some line's quantity exceeds its item's derived stock, and then reports the first such line in cart order, with its stock |
| `QuickSale.FinalizeSale` | src/screens/QuickSaleScreen.js:94-100 | the cart is recorded with its total and emptied exactly when the sale row and its outbox entry are both written; a failing sequencer leaves the sale row written and the cart full, so a retry records the sale twice |
| `QuickSale.CompleteSale` | src/screens/QuickSaleScreen.js:67-92 | an empty cart is refused without a write; in spaza mode the first line short of stock asks for confirmation without a write; in every other case, spaza with all lines in stock included, the sale is finalised |
| `StockScreen.HandleStockAdjustment` | src/screens/StockManagementScreen.js:56-83 | nothing happens without a selection or quantity text; a NaN quantity fails before any write; the write succeeds exactly when the ids are fresh and the sequencer persists |
| `StockScreen.AdjustmentWrites` | src/screens/StockManagementScreen.js:59-83 | an adjustment past its guards writes one `adjustment` movement with the parsed quantity, the notes and the device id, and on success one `stock_movement_insert` entry on `stock_movements` whose record id is the movement id and whose payload carries the movement's columns |
| `StockScreen.AdjustmentKeepsInvariants` | src/screens/StockManagementScreen.js:64-83 | an adjustment keeps every PRIMARY KEY and, with a fresh entry id, the gapless outbox |
| `StockScreen.AdjustmentShiftsStock` | src/screens/StockManagementScreen.js:56-83 | an adjustment of q moves the selected item's stock by q and no other item's stock |
| `StockScreen.StockRows` | src/screens/StockManagementScreen.js:28-37 | a row is listed exactly when its item is not deleted and sold in spaza mode, and it carries the item's derived stock; distinct items give distinct rows, as `filter` lists each item once |
| `StockScreen.StockListSpec` | src/screens/StockManagementScreen.js:26-39 | the list holds exactly the listed items with their stock, each at most once when item ids are unique, in ascending order of stock |
| `StockScreen.LowStockPrefix` | src/screens/StockManagementScreen.js:111-129 | an item is flagged when its stock is below 10, and in the sorted list the flagged rows come first |
| `Sorting.SortBySorted` | src/sync/sync.js:56 | sorting by a nullable key gives an ascending permutation of the input |
| `Sorting.SortByOfSorted` | src/sync/sync.js:56 | an already ordered sequence is left as it is |
| `Tables.Insert` | src/db/schema.js:10-47 | an INSERT fails exactly on a taken primary key; on success the new id reads back the inserted row and every other id reads back as before |
| `Tables.UpsertFind` | src/sync/sync.js:116-120 | after INSERT OR REPLACE the id reads back the new row, other ids are unchanged, and keys stay unique |
| `Tables.UpsertAllFind` | src/sync/sync.js:114-122 | after a run of overwrites each id reads back its last incoming row, and every other id its old row |
| `Tables.InsertAllIfAbsentPrefix` | src/sync/sync.js:124-148 | insert-if-absent never alters or reorders an existing row, and adds only incoming rows |
| `Tables.InsertAllIfAbsentKeys` | src/sync/sync.js:124-148 | after insert-if-absent the ids are the union of both sides, and keys stay unique |
| `Tables.InsertAllIfAbsentFind` | src/sync/sync.js:124-148 | a local row wins over an incoming row with the same id |
| `Tables.InsertAllIfAbsentIdempotent` | src/sync/sync.js:124-148 | merging the same sales or movements twice equals merging them once |
| `Broadcast.Deliveries` | src/sync/sync.js:20-22 | one broadcast calls each listener once, in registration order, with the status |
| `Broadcast.IndexOf` | src/sync/sync.js:16 | the first position of the listener, or -1 exactly when it is not registered |
| `Broadcast.RemoveListenerCount` | src/sync/sync.js:15-18 | removal takes away exactly one registration of that listener and none of any other |
| `Broadcast.AddThenRemove` | src/sync/sync.js:10-18 | subscribing then unsubscribing a new listener restores the registrations, and the immediate call stays delivered |
| `Merge.Select` | src/sync/sync.js:95-111 | a remote row is pulled exactly when it is newer than the cursor and carries another device's id |
| `Merge.ItemOfPublished` | src/sync/sync.js:116-120 | a local item published by another device is admitted and merges back as the same row, with `deleted` normalised to 0/1 |
| `Merge.Accepted` | src/sync/sync.js:114-122 | the merged prefix is the longest run of rows the local constraints admit |
| `Merge.MergeItemsApplied` | src/sync/sync.js:114-122 | the item merge overwrites with each admitted row in order, succeeds exactly when every row is admitted, and otherwise reports the first rejected row's constraint error |
| `Merge.MergeItemsFind` | src/sync/sync.js:114-122 | when every row is admitted, each pulled id reads back its last pulled row and every other id is untouched |
| `Merge.SalesConverge` | src/sync/sync.js:124-135 | two devices that pull each other's sales hold the same sale ids, each keeping its own sales unchanged |
| `Sync.Complete` | src/sync/sync.js:150-153 | a normal end leaves the engine Idle and not syncing, tells the listeners, and keeps the error |
| `Sync.Abort` | src/sync/sync.js:155-162 | an error end leaves the engine Idle and not syncing with the error message, and keeps what was written |
| `Sync.Unsynced` | src/sync/sync.js:55-57 | the selected entries are exactly those with synced = 0 |
| `Sync.PendingOpsSpec` | src/sync/sync.js:55-57 | the pending entries are exactly the unsynced ones, each once, in ascending device_seq order |
| `Sync.UnsyncedSorted` | src/sync/sync.js:55-57 | dropping synced entries keeps an ordered outbox ordered |
| `Sync.PendingOpsOfGapless` | src/sync/sync.js:55-57 | in a gapless outbox the pending entries are the unsynced ones in rowid order |
| `Sync.MarkSyncedSpec` | src/sync/sync.js:85-90 | the marking loop marks exactly the entries whose id is in the batch, each with one of its clock readings |
| `Sync.MarksExactlyPushed` | src/sync/sync.js:84-90 | after an accepted push exactly the previously unsynced entries become synced with a timestamp; no other entry changes |
| `Sync.PullAndMerge` | src/sync/sync.js:92-162 | every end of the pull phase returns the engine to Idle |
| `Sync.PerformSync` | src/sync/sync.js:42-162 | a trigger while a cycle runs changes nothing; otherwise every exit, by the empty queue, by success or by a throw, ends Idle, not syncing, with `online` untouched and the final status delivered |
| `Sync.TriggerWhileRunning` | src/sync/sync.js:43 | single flight: a trigger during a cycle, including one right after the prologue, is dropped rather than queued |
| `Sync.CycleReturnsToIdle` | src/sync/sync.js:42-162 | every exit of a started cycle clears the flag and `syncing`, and listeners are told exactly twice: at the start and at the end |
| `Sync.PushedBatch` | src/sync/sync.js:55-80 | a batch is pushed exactly when some entry is unsynced, and it is the pending entries in order |
| `Sync.PushedMessagesRoundTrip` | src/sync/sync.js:69-80 | each pushed message reads back as the pending entry it was made from, in the same position: the batch carries every column but `synced_at` |
| `Sync.EmptyQueueCycle` | src/sync/sync.js:59-66 | with nothing pending, `lastSync` is set and persisted, `syncing` is off, and nothing is pushed or pulled |
| `Sync.PushFailureCycle` | src/sync/sync.js:82 | a rejected push changes no table, leaves the cursor, and reports the message |
| `Sync.PullMergeCycle` | src/sync/sync.js:84-153 | after an accepted push: pushed entries are marked; items are overwritten; sales and movements are inserted if absent; a failed pull skips its table; the cursor advances |
| `Sync.MergeRejectedCycle` | src/sync/sync.js:114-162 | a rejected pulled item aborts the cycle with earlier items merged, no sales or movements merged, and the cursor not moved |
| `Sync.CursorAdvancesOnlyOnSuccess` | src/sync/sync.js:59-162 | `lastSync` and `meta.last_sync` move only when the cycle ends without an error |
| `Sync.FailedPullsStillAdvance` | src/sync/sync.js:95-153 | as written, failed pulls are no error: nothing is merged and the cursor still advances |
| `Sync.SkippedWindowLost` | src/sync/sync.js:93-153 | another device's sale stamped after the old cursor but not after the new one would have been returned by the failed pull, and no pull from the persisted cursor returns it |
| `Sync.CycleKeepsInvariants` | src/sync/sync.js:42-162 | a cycle keeps every PRIMARY KEY constraint and the gapless outbox |
| `Sync.MarkedKeepsInvariants` | src/sync/sync.js:85-90 | marking changes no id and no sequence number |
| `Sync.MergedKeepsInvariants` | src/sync/sync.js:113-148 | the merges keep every PRIMARY KEY constraint and leave the outbox and `meta` unchanged |
| `Sync.FirstPullCursor` | src/sync/sync.js:93 | on a fresh install the first pull uses the default cursor |

## Left out

- Trigger wiring (`startSyncLoop`, src/sync/sync.js:24-40): the connectivity callback and the 30-second timer are platform plumbing. A trigger is a call of `Sync.PerformSync`, and `online` is an input field of the status.
- Concurrency: a cycle is modelled as running to its end in one step. Concurrency is modelled only as the single-flight flag. Writers that run between a cycle's awaits are not modelled.
- Supabase client and RPC internals (src/config/supabase.js): the push reply is an input and does not depend on the batch. What the server does with the batch is not modelled.
- SQL text: tables are sequences keyed by id. `computeStock`'s `LIKE` prefilter is modelled as an exact match on the parsed lines' item id. JSON text is modelled by the structured value it encodes.
- Floating-point money: prices and totals are integer cents, so float rounding in `calculateTotal` is not modelled.
- Integer precision: quantities and sequence numbers are unbounded integers, so JavaScript's 2^53 limit is not modelled.
- Timestamps are caller-supplied texts: `datetime('now')` defaults, `new Date().toISOString()` and the marking loop's clock readings are parameters. `.gt` is compared as text order. The different formats of SQLite and ISO timestamps are not reconciled.
- Uuids are parameters. A clash with an existing id gives the PRIMARY KEY error.
- Local write faults: only the sequencer's UPDATE (`persistOk`) and primary key clashes fail. Failures of the cycle's own local statements (the mark UPDATEs, the `last_sync` UPDATE, `getDeviceId`, the SELECTs) are not modelled.
- Remote rows that break local constraints: only remote items can be rejected (a NULL name, a NULL price, or a mode outside the CHECK set). A remote item's `mode` and `initial_stock` are assumed non-NULL: SQLite would accept NULL there, but the local item row has no NULL for them. Remote sales and movements are assumed to satisfy the local NOT NULL and CHECK constraints.
- NULL `initial_stock` and `mode` columns of locally written items: callers always supply them in the model.
- Sync.Publish: each delivery records the status value at the time of the call. The code hands every listener the one shared, mutable status object, so a listener that keeps it sees later changes; that aliasing is not modelled.
- Listener exceptions: listeners are assumed not to throw, so one failing listener cannot stop the others.
- `Sync.CursorAdvancesOnlyOnSuccess`: states only that `lastSync` is set to the cycle's clock reading. It does not state that the cursor is monotone, because that depends on the wall clock passed in.
- `Sorting.SortBySorted`: states order and permutation but not stability. Rows of equal stock or equal `device_seq` may appear in any order the sort produces.
- UI rendering, alerts, the receipt modal, barcode scanning, and the other screens (item list, daily totals, history, settings, mode select): display and platform code with no state of the core.
- `console.error` logging in the sync cycle's error handler.
