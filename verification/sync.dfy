/** The sync cycle of src/sync/sync.js (`performSync`): a single-flight
    Idle/Running machine that pushes the pending outbox entries as one batch,
    marks them synced, pulls other devices' rows newer than the cursor,
    merges them and advances the cursor, reporting every step through the
    status broadcaster.  The remote service is an oracle (`Transport`); the
    wall clock is the sequence of readings `clock(0)`, `clock(1)`, … one cycle
    makes.
 */
module Sync {
  import opened Common
  import opened JsText
  import opened Tables
  import opened Schema
  import opened Device
  import opened Database
  import opened Sorting
  import opened Broadcast
  import opened Merge

  /** The status every listener receives. */
  datatype SyncStatus = SyncStatus(online: bool, syncing: bool, lastSync: Option<Timestamp>, error: Option<string>)

  /** The status at start-up. */
  const InitialStatus := SyncStatus(false, false, None, None)

  /** Listeners are compared by identity; a number stands for one. */
  type Listener = nat

  /** The process-wide sync state: the `syncInProgress` flag, the status,
      the listeners and the local database. */
  datatype Engine = Engine(running: bool, status: SyncStatus, registry: Registry<Listener, SyncStatus>, db: Db)

  /** Replaces the status and notifies every listener of it. */
  function Publish(e: Engine, status: SyncStatus): (r: Engine)
    ensures r.status == status && r.running == e.running && r.db == e.db
    ensures r.registry == Notify(e.registry, status)
  {
    e.(status := status, registry := Notify(e.registry, status))
  }

  /** The outbox entries with `synced = 0`, in rowid order. */
  function Unsynced(queue: seq<QueueEntry>): (r: seq<QueueEntry>)
    ensures forall e :: e in r <==> e in queue && !e.synced
    ensures |r| <= |queue|
  {
    if |queue| == 0 then []
    else
      var rest := Unsynced(queue[1..]);
      assert forall e :: e in queue <==> e == queue[0] || e in queue[1..];
      if !queue[0].synced then [queue[0]] + rest else rest
  }

  /** `ORDER BY device_seq ASC`: a NULL sequence number sorts first. */
  function SeqRank(e: QueueEntry): Rank {
    match e.deviceSeq
    case None => Null
    case Some(n) => Val(n)
  }

  /** The entries one cycle pushes. */
  function PendingOps(queue: seq<QueueEntry>): seq<QueueEntry> {
    SortBy(Unsynced(queue), SeqRank)
  }

  /** The pending entries are exactly the unsynced ones, each once, in
      ascending order of sequence number. */
  lemma PendingOpsSpec(queue: seq<QueueEntry>)
    ensures SortedBy(PendingOps(queue), SeqRank)
    ensures multiset(PendingOps(queue)) == multiset(Unsynced(queue))
    ensures forall e :: e in PendingOps(queue) <==> e in queue && !e.synced
  {
    SortBySorted(Unsynced(queue), SeqRank);
    assert forall e :: e in PendingOps(queue) <==> e in multiset(PendingOps(queue));
    assert forall e :: e in Unsynced(queue) <==> e in multiset(Unsynced(queue));
  }

  /** Dropping synced entries keeps an ordered outbox ordered. */
  lemma {:induction false} UnsyncedSorted(queue: seq<QueueEntry>)
    requires SortedBy(queue, SeqRank)
    ensures SortedBy(Unsynced(queue), SeqRank)
  {
    if |queue| > 0 {
      var tail := queue[1..];
      assert SortedBy(tail, SeqRank) by {
        forall i, j | 0 <= i < j < |tail| ensures RankLe(SeqRank(tail[i]), SeqRank(tail[j])) {
          assert tail[i] == queue[i + 1] && tail[j] == queue[j + 1];
        }
      }
      UnsyncedSorted(tail);
      var rest := Unsynced(tail);
      if !queue[0].synced {
        forall j | 0 <= j < |rest| ensures RankLe(SeqRank(queue[0]), SeqRank(rest[j])) {
          assert rest[j] in tail;
          var k :| 0 <= k < |tail| && tail[k] == rest[j];
          assert tail[k] == queue[k + 1];
        }
        var r := [queue[0]] + rest;
        forall i, j | 0 <= i < j < |r| ensures RankLe(SeqRank(r[i]), SeqRank(r[j])) {
          assert r[j] == rest[j - 1];
          if i > 0 {
            assert r[i] == rest[i - 1];
          }
        }
      }
    }
  }

  /** In a gapless outbox the rowid order is already the sequence order, so
      the pending entries are the unsynced ones in rowid order. */
  lemma PendingOpsOfGapless(db: Db)
    requires Gapless(db)
    ensures PendingOps(db.queue) == Unsynced(db.queue)
  {
    assert SortedBy(db.queue, SeqRank) by {
      forall i, j | 0 <= i < j < |db.queue| ensures RankLe(SeqRank(db.queue[i]), SeqRank(db.queue[j])) {
        assert db.queue[i].deviceSeq == Some(i + 1) && db.queue[j].deviceSeq == Some(j + 1);
      }
    }
    UnsyncedSorted(db.queue);
    SortByOfSorted(Unsynced(db.queue), SeqRank);
  }

  /** One element of the `apply_sync_ops` batch. */
  datatype OpMessage = OpMessage(
    id: Id,
    op: OpType,
    table: string,
    recordId: Id,
    payload: Payload,
    deviceId: string,
    deviceSeq: Option<int>,
    createdAt: Timestamp)

  /** The message for an outbox entry: every column but `synced` and
      `synced_at`, the payload parsed back from its JSON text. */
  function ToMessage(e: QueueEntry): OpMessage {
    OpMessage(e.id, e.op, e.table, e.recordId, e.payload, e.deviceId, e.deviceSeq, e.createdAt)
  }

  /** The batch, one message per entry, in the same order. */
  function Messages(ops: seq<QueueEntry>): (ms: seq<OpMessage>)
    ensures |ms| == |ops|
    ensures forall i :: 0 <= i < |ops| ==> ms[i] == ToMessage(ops[i])
  {
    seq(|ops|, i requires 0 <= i < |ops| => ToMessage(ops[i]))
  }

  /** The outbox row a message describes, read as not yet synced. */
  function EntryOf(m: OpMessage): QueueEntry {
    QueueEntry(m.id, m.op, m.table, m.recordId, m.payload, m.deviceId, m.deviceSeq, m.createdAt, false, None)
  }

  /** The batch loses nothing but `synced_at`: reading each message back
      gives the pending entry it was made from, in the same position. */
  lemma PushedMessagesRoundTrip(queue: seq<QueueEntry>)
    ensures var ops := PendingOps(queue);
            && |Messages(ops)| == |ops|
            && forall i :: 0 <= i < |ops| ==> EntryOf(Messages(ops)[i]) == ops[i].(syncedAt := None)
  {
    var ops := PendingOps(queue);
    PendingOpsSpec(queue);
    forall i | 0 <= i < |ops| ensures EntryOf(Messages(ops)[i]) == ops[i].(syncedAt := None) {
      assert ops[i] in ops;
      assert !ops[i].synced;
    }
  }

  /** `UPDATE sync_queue SET synced = 1, synced_at = at WHERE id = id`. */
  function MarkOne(queue: seq<QueueEntry>, id: Id, at: Timestamp): (r: seq<QueueEntry>)
    ensures |r| == |queue|
    ensures forall j :: 0 <= j < |queue| ==>
              r[j] == if queue[j].id == id then queue[j].(synced := true, syncedAt := Some(at)) else queue[j]
  {
    seq(|queue|, j requires 0 <= j < |queue| =>
      if queue[j].id == id then queue[j].(synced := true, syncedAt := Some(at)) else queue[j])
  }

  /** The marking loop: op `i` of the batch is stamped with the clock
      reading `clock(i)`. */
  function MarkSynced(queue: seq<QueueEntry>, ops: seq<QueueEntry>, clock: nat -> Timestamp): seq<QueueEntry>
    decreases |ops|
  {
    if |ops| == 0 then queue
    else MarkOne(MarkSynced(queue, ops[..|ops| - 1], clock), ops[|ops| - 1].id, clock(|ops| - 1))
  }

  /** `after` is `before` marked synced at one of the first `n` clock
      readings, every other column unchanged. */
  predicate Marked(after: QueueEntry, before: QueueEntry, clock: nat -> Timestamp, n: nat) {
    && after == before.(synced := true, syncedAt := after.syncedAt)
    && after.syncedAt.Some?
    && exists k :: 0 <= k < n && clock(k) == after.syncedAt.value
  }

  /** The marking loop marks exactly the entries whose id is in the batch. */
  lemma {:induction false} MarkSyncedSpec(queue: seq<QueueEntry>, ops: seq<QueueEntry>, clock: nat -> Timestamp)
    ensures |MarkSynced(queue, ops, clock)| == |queue|
    ensures forall j :: 0 <= j < |queue| ==>
              && (queue[j].id in Keys(ops, EntryKey) ==> Marked(MarkSynced(queue, ops, clock)[j], queue[j], clock, |ops|))
              && (queue[j].id !in Keys(ops, EntryKey) ==> MarkSynced(queue, ops, clock)[j] == queue[j])
    decreases |ops|
  {
    if |ops| > 0 {
      var n := |ops| - 1;
      var init := ops[..n];
      MarkSyncedSpec(queue, init, clock);
      assert ops == init + [ops[n]];
      KeysAppend(init, ops[n], EntryKey);
      var prev := MarkSynced(queue, init, clock);
      var r := MarkSynced(queue, ops, clock);
      forall j | 0 <= j < |queue|
        ensures queue[j].id in Keys(ops, EntryKey) ==> Marked(r[j], queue[j], clock, |ops|)
        ensures queue[j].id !in Keys(ops, EntryKey) ==> r[j] == queue[j]
      {
        if queue[j].id == ops[n].id {
          assert prev[j].id == queue[j].id;
          assert r[j] == queue[j].(synced := true, syncedAt := Some(clock(n)));
        } else if queue[j].id in Keys(init, EntryKey) {
          var k :| 0 <= k < n && clock(k) == prev[j].syncedAt.value;
          assert r[j] == prev[j];
        }
      }
    }
  }

  /** What the server answers to the batch. */
  datatype PushReply = PushOk | PushErr(message: string)

  /** What a pull query yields: `data` is null when the query failed. */
  datatype Pull<T> = PullFailed | Pulled(table: seq<T>)

  /** The remote service for one cycle: the reply to the push and, for each
      of the three tables, the remote table the query runs on. */
  datatype Transport = Transport(push: PushReply, items: Pull<RemoteItem>, sales: Pull<Sale>, movements: Pull<StockMovement>)

  /** The rows one pull query returns, `None` for null data. */
  function Query<T(!new)>(p: Pull<T>, stamp: T -> Timestamp, device: T -> Option<string>,
                          cursor: Timestamp, me: string): (r: Option<seq<T>>)
    ensures p.PullFailed? <==> r.None?
    ensures p.Pulled? ==> r.value == Select(p.table, stamp, device, cursor, me)
  {
    match p
    case PullFailed => None
    case Pulled(table) => Some(Select(table, stamp, device, cursor, me))
  }

  /** One cycle's outcome: the new state, the batch pushed (if any) and the
      cursor the pulls used (if they ran). */
  datatype Cycle = Cycle(engine: Engine, pushed: Option<seq<OpMessage>>, cursor: Option<Timestamp>)

  /** The synchronous prologue of `performSync`: nothing when a cycle is
      running; otherwise the flag is set, `syncing` turns on, the error is
      cleared and the listeners are told. */
  function Start(e: Engine): (r: Engine)
    ensures e.running ==> r == e
    ensures !e.running ==> r.running && r.db == e.db
    ensures !e.running ==> r.status == e.status.(syncing := true, error := None)
    ensures !e.running ==> r.registry == Notify(e.registry, r.status)
  {
    if e.running then e
    else Publish(e.(running := true), e.status.(syncing := true, error := None))
  }

  /** `r` is a cycle's end state reached from `s`: Idle, not syncing,
      `online` untouched, and the listeners told the final status once. */
  predicate Ended(r: Engine, s: Engine) {
    && !r.running && !r.status.syncing && r.status.online == s.status.online
    && r.registry == Notify(s.registry, r.status)
  }

  /** A normal end: `lastSync` becomes `now`, is written to `meta.last_sync`
      (an UPDATE, so nothing is written when that row is missing), the
      listeners are told and the flag is cleared. */
  function Complete(e: Engine, db: Db, now: Timestamp): (r: Engine)
    ensures Ended(r, e) && r.status.error == e.status.error
  {
    Publish(e.(running := false, db := db.(meta := MetaUpdate(db.meta, LastSyncKey, now))),
            e.status.(syncing := false, lastSync := Some(now)))
  }

  /** The `catch`/`finally` end: the error message is reported, the
      listeners are told and the flag is cleared; what was written before
      the throw stays written. */
  function Abort(e: Engine, db: Db, message: string): (r: Engine)
    ensures Ended(r, e) && r.status.error == Some(message) && r.db == db
  {
    Publish(e.(running := false, db := db), e.status.(syncing := false, error := Some(message)))
  }

  /** Steps 4 and 5, after the batch is marked: three pulls with the
      cursor, then the item, sale and movement merges.  A table whose pull
      failed is skipped; an item the local constraints reject throws before
      the sales and movements are merged. */
  function Merged(db: Db, t: Transport, cursor: Timestamp): After<Db, ()> {
    var me := GetDeviceId(db.meta);
    var items := Query(t.items, ItemStamp, ItemDevice, cursor, me);
    var sales := Query(t.sales, SaleStamp, SaleDevice, cursor, me);
    var movements := Query(t.movements, MovementStamp, MovementDevice, cursor, me);
    var merged := if items.None? then After(db.items, Ok(())) else MergeItems(db.items, items.value);
    match merged.result
    case Err(message) => After(db.(items := merged.state), Err(message))
    case Ok(_) =>
      After(db.(items := merged.state,
                sales := if sales.None? then db.sales else MergeSales(db.sales, sales.value),
                movements := if movements.None? then db.movements else MergeMovements(db.movements, movements.value)),
            Ok(()))
  }

  /** The end of a cycle whose push was accepted. */
  function PullAndMerge(e: Engine, db: Db, t: Transport, cursor: Timestamp, now: Timestamp): (r: Engine)
    ensures Ended(r, e)
  {
    var m := Merged(db, t, cursor);
    match m.result
    case Err(message) => Abort(e, m.state, message)
    case Ok(_) => Complete(e, m.state, now)
  }

  /** The body of `performSync` once the flag is set. */
  function Run(e: Engine, t: Transport, clock: nat -> Timestamp): (c: Cycle)
    ensures Ended(c.engine, e)
  {
    var ops := PendingOps(e.db.queue);
    if |ops| == 0 then Cycle(Complete(e, e.db, clock(0)), None, None)
    else
      var batch := Messages(ops);
      match t.push
      case PushErr(message) => Cycle(Abort(e, e.db, message), Some(batch), None)
      case PushOk =>
        var marked := e.db.(queue := MarkSynced(e.db.queue, ops, clock));
        var cursor := ReadCursor(marked.meta);
        Cycle(PullAndMerge(e, marked, t, cursor, clock(|ops|)), Some(batch), Some(cursor))
  }

  /** `performSync`: a trigger while a cycle runs is dropped; otherwise
      every exit, by the empty queue, by success or by a throw, ends Idle
      with the final status delivered. */
  function PerformSync(e: Engine, t: Transport, clock: nat -> Timestamp): (c: Cycle)
    ensures e.running ==> c == Cycle(e, None, None)
    ensures !e.running ==> Ended(c.engine, Start(e))
  {
    if e.running then Cycle(e, None, None) else Run(Start(e), t, clock)
  }

  /** Single flight: a trigger while a cycle is running changes nothing, so
      a trigger that arrives during a cycle is dropped rather than queued. */
  lemma TriggerWhileRunning(e: Engine, t: Transport, clock: nat -> Timestamp)
    ensures e.running ==> PerformSync(e, t, clock) == Cycle(e, None, None)
    ensures PerformSync(Start(e), t, clock) == Cycle(Start(e), None, None)
  {
  }

  /** Every exit of a started cycle returns to Idle with `syncing` off and
      `online` untouched; listeners are told twice, at the start and at the
      end, and the registrations do not change. */
  lemma CycleReturnsToIdle(e: Engine, t: Transport, clock: nat -> Timestamp)
    ensures var r := PerformSync(e, t, clock).engine;
            !e.running ==>
              && !r.running && !r.status.syncing && r.status.online == e.status.online
              && r.registry.listeners == e.registry.listeners
              && r.registry.delivered == e.registry.delivered
                                         + Deliveries(e.registry.listeners, e.status.(syncing := true, error := None))
                                         + Deliveries(e.registry.listeners, r.status)
  {
    if !e.running {
      var s := Start(e);
      if Unsynced(e.db.queue) != [] && t.push.PushOk? {
        PushedCycleUsesMarked(e, t, clock);
      }
      assert Ended(PerformSync(e, t, clock).engine, s);
    }
  }

  /** A started cycle pushes a batch exactly when some entry is unsynced,
      and the batch is the pending entries in order, one message each. */
  lemma PushedBatch(e: Engine, t: Transport, clock: nat -> Timestamp)
    ensures var c := PerformSync(e, t, clock);
            && (c.pushed.Some? <==> !e.running && Unsynced(e.db.queue) != [])
            && (c.pushed.Some? ==> c.pushed.value == Messages(PendingOps(e.db.queue)))
  {
  }

  /** With nothing to push the cycle stamps `lastSync` with the first clock
      reading, persists it, and neither pushes nor pulls. */
  lemma EmptyQueueCycle(e: Engine, t: Transport, clock: nat -> Timestamp)
    requires !e.running && Unsynced(e.db.queue) == []
    ensures var c := PerformSync(e, t, clock);
            && c.pushed.None? && c.cursor.None?
            && c.engine.db == e.db.(meta := MetaUpdate(e.db.meta, LastSyncKey, clock(0)))
            && c.engine.status == e.status.(syncing := false, lastSync := Some(clock(0)), error := None)
  {
  }

  /** A rejected push changes no table: nothing is marked, the cursor is not
      moved, and the status carries the error. */
  lemma PushFailureCycle(e: Engine, t: Transport, clock: nat -> Timestamp)
    requires !e.running && Unsynced(e.db.queue) != [] && t.push.PushErr?
    ensures var c := PerformSync(e, t, clock);
            && c.engine.db == e.db && c.cursor.None?
            && c.engine.status == e.status.(syncing := false, error := Some(t.push.message))
  {
  }

  /** The database a successful push leads to, before the pulls. */
  function MarkedDb(db: Db, clock: nat -> Timestamp): Db {
    db.(queue := MarkSynced(db.queue, PendingOps(db.queue), clock))
  }

  lemma PushedCycleUsesMarked(e: Engine, t: Transport, clock: nat -> Timestamp)
    requires !e.running && Unsynced(e.db.queue) != [] && t.push.PushOk?
    ensures var c := PerformSync(e, t, clock);
            && c.cursor == Some(ReadCursor(e.db.meta))
            && c.engine == PullAndMerge(Start(e), MarkedDb(e.db, clock), t, ReadCursor(e.db.meta), clock(|Unsynced(e.db.queue)|))
  {
  }

  /** After an accepted push exactly the pushed entries are marked synced,
      each with one of the marking loop's clock readings; every other entry,
      and the order and number of entries, are unchanged. */
  lemma MarksExactlyPushed(db: Db, clock: nat -> Timestamp)
    requires UniqueKeys(db.queue, EntryKey)
    ensures var q := MarkedDb(db, clock).queue;
            && |q| == |db.queue|
            && forall j :: 0 <= j < |db.queue| ==>
                 && (db.queue[j].synced ==> q[j] == db.queue[j])
                 && (!db.queue[j].synced ==> Marked(q[j], db.queue[j], clock, |Unsynced(db.queue)|))
  {
    var ops := PendingOps(db.queue);
    PendingOpsSpec(db.queue);
    MarkSyncedSpec(db.queue, ops, clock);
    forall j | 0 <= j < |db.queue|
      ensures db.queue[j].synced <==> db.queue[j].id !in Keys(ops, EntryKey)
    {
      if !db.queue[j].synced {
        assert db.queue[j] in ops;
        var k :| 0 <= k < |ops| && ops[k] == db.queue[j];
        assert EntryKey(ops[k]) in Keys(ops, EntryKey);
      }
    }
  }

  /** The pulls and merges of a cycle whose push was accepted, when no
      pulled item is rejected: the pulled rows are merged by their tables'
      policies, a failed pull leaves its table as it was, and `lastSync`
      advances to the clock reading after the marking loop and is
      persisted. */
  lemma PullMergeCycle(e: Engine, t: Transport, clock: nat -> Timestamp)
    requires !e.running && Unsynced(e.db.queue) != [] && t.push.PushOk?
    requires var me := GetDeviceId(e.db.meta);
             var rows := Query(t.items, ItemStamp, ItemDevice, ReadCursor(e.db.meta), me);
             rows.Some? ==> Accepted(rows.value) == |rows.value|
    ensures var c := PerformSync(e, t, clock);
            var db := c.engine.db;
            var me := GetDeviceId(e.db.meta);
            var cursor := ReadCursor(e.db.meta);
            var now := clock(|Unsynced(e.db.queue)|);
            && c.cursor == Some(cursor)
            && c.engine.status == e.status.(syncing := false, lastSync := Some(now), error := None)
            && db.meta == MetaUpdate(e.db.meta, LastSyncKey, now)
            && db.queue == MarkedDb(e.db, clock).queue
            && db.items == (match t.items
                            case PullFailed => e.db.items
                            case Pulled(table) => MergeItems(e.db.items, Select(table, ItemStamp, ItemDevice, cursor, me)).state)
            && db.sales == (match t.sales
                            case PullFailed => e.db.sales
                            case Pulled(table) => MergeSales(e.db.sales, Select(table, SaleStamp, SaleDevice, cursor, me)))
            && db.movements == (match t.movements
                                case PullFailed => e.db.movements
                                case Pulled(table) => MergeMovements(e.db.movements, Select(table, MovementStamp, MovementDevice, cursor, me)))
  {
    PushedCycleUsesMarked(e, t, clock);
    var me := GetDeviceId(e.db.meta);
    var rows := Query(t.items, ItemStamp, ItemDevice, ReadCursor(e.db.meta), me);
    if rows.Some? {
      MergeItemsApplied(e.db.items, rows.value);
    }
  }

  /** A pulled item the local constraints reject aborts the cycle: the items
      before it stay merged, sales and movements are not merged, the
      pushed entries stay marked, and the cursor does not move. */
  lemma MergeRejectedCycle(e: Engine, t: Transport, clock: nat -> Timestamp)
    requires !e.running && Unsynced(e.db.queue) != [] && t.push.PushOk? && t.items.Pulled?
    requires var rows := Select(t.items.table, ItemStamp, ItemDevice, ReadCursor(e.db.meta), GetDeviceId(e.db.meta));
             Accepted(rows) < |rows|
    ensures var c := PerformSync(e, t, clock);
            var rows := Select(t.items.table, ItemStamp, ItemDevice, ReadCursor(e.db.meta), GetDeviceId(e.db.meta));
            var n := Accepted(rows);
            && c.engine.status == e.status.(syncing := false, error := Some(Rejection(rows[n])))
            && c.engine.db == MarkedDb(e.db, clock).(items := UpsertAll(e.db.items, ItemKey, ItemsOf(rows[..n])))
  {
    PushedCycleUsesMarked(e, t, clock);
    var rows := Select(t.items.table, ItemStamp, ItemDevice, ReadCursor(e.db.meta), GetDeviceId(e.db.meta));
    MergeItemsApplied(e.db.items, rows);
  }

  /** The cursor moves only when a cycle ends without an error: then
      `lastSync` is a clock reading of the cycle and is persisted; after an
      error `meta` and `lastSync` are as before. */
  lemma CursorAdvancesOnlyOnSuccess(e: Engine, t: Transport, clock: nat -> Timestamp)
    requires !e.running
    ensures var r := PerformSync(e, t, clock).engine;
            var now := clock(|Unsynced(e.db.queue)|);
            && (r.status.error.None? ==>
                  r.status.lastSync == Some(now) && r.db.meta == MetaUpdate(e.db.meta, LastSyncKey, now))
            && (r.status.error.Some? ==>
                  r.status.lastSync == e.status.lastSync && r.db.meta == e.db.meta)
  {
    if Unsynced(e.db.queue) != [] && t.push.PushOk? {
      PushedCycleUsesMarked(e, t, clock);
    }
  }

  /** As written, a failed pull is not an error: with every pull failing
      the cycle still ends without error, merges nothing, and moves the
      cursor to the end of the cycle. */
  lemma FailedPullsStillAdvance(e: Engine, t: Transport, clock: nat -> Timestamp)
    requires !e.running && Unsynced(e.db.queue) != [] && t.push.PushOk?
    requires t.items.PullFailed? && t.sales.PullFailed? && t.movements.PullFailed?
    ensures var r := PerformSync(e, t, clock).engine;
            var now := clock(|Unsynced(e.db.queue)|);
            && r.status.error.None? && r.status.lastSync == Some(now)
            && r.db == MarkedDb(e.db, clock).(meta := MetaUpdate(e.db.meta, LastSyncKey, now))
  {
    PushedCycleUsesMarked(e, t, clock);
  }

  /** What the advance after a failed pull costs: another device's sale in
      the remote table, stamped after the old cursor but not after the new
      one, is one the failed pull would have returned, and no pull from the
      persisted cursor returns it. */
  lemma SkippedWindowLost(e: Engine, t: Transport, clock: nat -> Timestamp, table: seq<Sale>, x: Sale)
    requires !e.running && Unsynced(e.db.queue) != [] && t.push.PushOk?
    requires t.items.PullFailed? && t.sales.PullFailed? && t.movements.PullFailed?
    requires LastSyncKey in e.db.meta && clock(|Unsynced(e.db.queue)|) != ""
    requires x in table && x.deviceId.Some? && x.deviceId.value != GetDeviceId(e.db.meta)
    requires Before(ReadCursor(e.db.meta), x.createdAt)
    requires !Before(clock(|Unsynced(e.db.queue)|), x.createdAt)
    ensures x in Select(table, SaleStamp, SaleDevice, ReadCursor(e.db.meta), GetDeviceId(e.db.meta))
    ensures var meta := PerformSync(e, t, clock).engine.db.meta;
            && ReadCursor(meta) == clock(|Unsynced(e.db.queue)|)
            && GetDeviceId(meta) == GetDeviceId(e.db.meta)
            && x !in Select(table, SaleStamp, SaleDevice, ReadCursor(meta), GetDeviceId(meta))
  {
    var now := clock(|Unsynced(e.db.queue)|);
    FailedPullsStillAdvance(e, t, clock);
    var meta := PerformSync(e, t, clock).engine.db.meta;
    assert meta == MetaUpdate(e.db.meta, LastSyncKey, now);
    CursorAfterAdvance(e.db.meta, now);
  }

  /** Writing a non-empty `last_sync` moves the cursor there and leaves
      the device id alone. */
  lemma CursorAfterAdvance(m: Meta, now: Timestamp)
    requires LastSyncKey in m && now != ""
    ensures ReadCursor(MetaUpdate(m, LastSyncKey, now)) == now
    ensures GetDeviceId(MetaUpdate(m, LastSyncKey, now)) == GetDeviceId(m)
  {
  }

  /** A cycle keeps every PRIMARY KEY constraint and the gapless numbering
      of the outbox. */
  lemma CycleKeepsInvariants(e: Engine, t: Transport, clock: nat -> Timestamp)
    ensures var db := PerformSync(e, t, clock).engine.db;
            && (KeysUnique(e.db) ==> KeysUnique(db))
            && (Gapless(e.db) ==> Gapless(db))
  {
    if !e.running && Unsynced(e.db.queue) != [] && t.push.PushOk? {
      PushedCycleUsesMarked(e, t, clock);
      MarkedKeepsInvariants(e.db, clock);
      PullAndMergeKeepsInvariants(Start(e), MarkedDb(e.db, clock), t, ReadCursor(e.db.meta), clock(|Unsynced(e.db.queue)|));
    }
  }

  /** Writing `last_sync` leaves the sequence counter alone. */
  lemma LastSyncKeepsGapless(db: Db, now: Timestamp)
    ensures KeysUnique(db) ==> KeysUnique(db.(meta := MetaUpdate(db.meta, LastSyncKey, now)))
    ensures Gapless(db) ==> Gapless(db.(meta := MetaUpdate(db.meta, LastSyncKey, now)))
  {
  }

  /** Marking changes no id and no sequence number. */
  lemma MarkedKeepsInvariants(db: Db, clock: nat -> Timestamp)
    ensures KeysUnique(db) ==> KeysUnique(MarkedDb(db, clock))
    ensures Gapless(db) ==> Gapless(MarkedDb(db, clock))
  {
    MarkSyncedSpec(db.queue, PendingOps(db.queue), clock);
    var q := MarkedDb(db, clock).queue;
    assert forall j :: 0 <= j < |q| ==> q[j].id == db.queue[j].id && q[j].deviceSeq == db.queue[j].deviceSeq;
  }

  /** The merges keep every PRIMARY KEY constraint; none touches the
      outbox. */
  lemma PullAndMergeKeepsInvariants(e: Engine, db: Db, t: Transport, cursor: Timestamp, now: Timestamp)
    ensures var r := PullAndMerge(e, db, t, cursor, now).db;
            && (KeysUnique(db) ==> KeysUnique(r))
            && (Gapless(db) ==> Gapless(r))
  {
    MergedKeepsInvariants(db, t, cursor);
    LastSyncKeepsGapless(Merged(db, t, cursor).state, now);
  }

  lemma MergedKeepsInvariants(db: Db, t: Transport, cursor: Timestamp)
    ensures var r := Merged(db, t, cursor).state;
            && (KeysUnique(db) ==> KeysUnique(r))
            && (Gapless(db) ==> Gapless(r))
            && r.queue == db.queue && r.meta == db.meta
  {
    var me := GetDeviceId(db.meta);
    var rows := Query(t.items, ItemStamp, ItemDevice, cursor, me);
    var sales := Query(t.sales, SaleStamp, SaleDevice, cursor, me);
    var movements := Query(t.movements, MovementStamp, MovementDevice, cursor, me);
    if rows.Some? {
      var n := Accepted(rows.value);
      MergeItemsApplied(db.items, rows.value);
      UpsertAllFind(db.items, ItemKey, ItemsOf(rows.value[..n]), "");
    }
    if sales.Some? {
      InsertAllIfAbsentKeys(db.sales, SaleKey, sales.value);
    }
    if movements.Some? {
      InsertAllIfAbsentKeys(db.movements, MovementKey, movements.value);
    }
  }

  /** A fresh install's first pull asks for everything after the default
      cursor, `last_sync` being bootstrapped empty. */
  lemma FirstPullCursor(deviceId: string)
    ensures ReadCursor(Installed(deviceId).meta) == DefaultCursor
  {
  }
}
