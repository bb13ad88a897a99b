/** The local database and the writers of src/db/database.js: every domain
    write inserts its row first, then draws the next device sequence number
    and appends one `sync_queue` entry stamped with it.
 */
module Database {
  import opened Common
  import opened JsText
  import opened Tables
  import opened Schema
  import opened Device

  /** The five tables the core touches. */
  datatype Db = Db(
    meta: Meta,
    items: seq<Item>,
    sales: seq<Sale>,
    movements: seq<StockMovement>,
    queue: seq<QueueEntry>)

  /** Every table keeps its PRIMARY KEY constraint. */
  predicate KeysUnique(db: Db) {
    && UniqueKeys(db.items, ItemKey)
    && UniqueKeys(db.sales, SaleKey)
    && UniqueKeys(db.movements, MovementKey)
    && UniqueKeys(db.queue, EntryKey)
  }

  /** The outbox is numbered without gaps: the entry at rowid position `i`
      carries sequence number `i + 1` and the counter stands at the number of
      entries, so the next entry gets the next number. */
  predicate Gapless(db: Db) {
    && CounterAt(db.meta, |db.queue|)
    && forall i :: 0 <= i < |db.queue| ==> db.queue[i].deviceSeq == Some(i + 1)
  }

  /** A fresh install: `initDatabase` on empty tables. */
  function Installed(deviceId: string): (db: Db)
    ensures GetDeviceId(db.meta) == (if deviceId == "" then UnknownDevice else deviceId)
    ensures KeysUnique(db) && Gapless(db)
  {
    assert IntToString(0) == "0";
    Db(InitMeta(map[], deviceId).state, [], [], [], [])
  }

  /** The `device_seq` column value: SQLite stores a NaN parameter as NULL. */
  function SeqColumn(x: JsNum): (r: Option<int>)
    ensures r.Some? <==> x.Num?
    ensures x.Num? ==> r.value == x.n
  {
    match x
    case Num(n) => Some(n)
    case NaN => None
  }

  /** A `sync_queue` row as the writers insert it: `created_at` is the insert
      time and `synced`/`synced_at` take their defaults 0 and NULL. */
  function NewEntry(id: Id, op: OpType, table: string, recordId: Id, payload: Payload,
                    deviceId: string, number: Option<int>, now: Timestamp): QueueEntry
  {
    QueueEntry(id, op, table, recordId, payload, deviceId, number, now, false, None)
  }

  /** `e` is the entry a writer appends for these arguments, whatever its
      sequence number: everything else as given, not yet synced. */
  predicate Stamped(e: QueueEntry, id: Id, op: OpType, table: string, recordId: Id,
                    payload: Payload, deviceId: string, now: Timestamp)
  {
    && e.id == id && e.op == op && e.table == table && e.recordId == recordId
    && e.payload == payload && e.deviceId == deviceId && e.createdAt == now
    && !e.synced && e.syncedAt.None?
  }

  /** The shared tail of every writer: `getNextDeviceSeq`, then the
      `INSERT INTO sync_queue`.  `persistOk` is false when the sequencer's
      UPDATE throws. */
  function AppendEntry(db: Db, entryId: Id, op: OpType, table: string, recordId: Id,
                       payload: Payload, deviceId: string, now: Timestamp, persistOk: bool): (r: After<Db, ()>)
    ensures r.result.Ok? <==> persistOk && entryId !in Keys(db.queue, EntryKey)
    ensures r.state.items == db.items && r.state.sales == db.sales && r.state.movements == db.movements
    ensures !persistOk ==> r.state == db
    ensures r.result.Err? ==> r.state.queue == db.queue
    ensures r.result.Ok? ==>
              && |r.state.queue| == |db.queue| + 1 && r.state.queue[..|db.queue|] == db.queue
              && Stamped(r.state.queue[|db.queue|], entryId, op, table, recordId, payload, deviceId, now)
  {
    match NextDeviceSeq(db.meta, persistOk)
    case After(meta, Err(e)) => After(db.(meta := meta), Err(e))
    case After(meta, Ok(drawn)) =>
      var entry := NewEntry(entryId, op, table, recordId, payload, deviceId, SeqColumn(drawn), now);
      match Insert(db.queue, EntryKey, entry, QueueTable)
      case Err(e) => After(db.(meta := meta), Err(e))
      case Ok(queue) =>
        assert queue[..|db.queue|] == db.queue;
        After(db.(meta := meta, queue := queue), Ok(()))
  }

  /** From a counter at `c`, an append that gets past the sequencer leaves
      the counter at `c + 1` and stamps its entry with `c + 1`. */
  lemma AppendEntryFromCounter(db: Db, entryId: Id, op: OpType, table: string, recordId: Id,
                               payload: Payload, deviceId: string, now: Timestamp, persistOk: bool, c: int)
    requires CounterAt(db.meta, c)
    ensures var r := AppendEntry(db, entryId, op, table, recordId, payload, deviceId, now, persistOk);
            && (persistOk ==> r.state.meta == db.meta[DeviceSeqKey := IntToString(c + 1)])
            && (r.result.Ok? ==> r.state.queue[|db.queue|].deviceSeq == Some(c + 1))
  {
    NextDeviceSeqFromCounter(db.meta, c);
  }

  /** An append whose entry id is fresh keeps the outbox gapless, whether or
      not the sequencer's UPDATE succeeds. */
  lemma AppendEntryKeepsGapless(db: Db, entryId: Id, op: OpType, table: string, recordId: Id,
                                payload: Payload, deviceId: string, now: Timestamp, persistOk: bool)
    requires Gapless(db) && entryId !in Keys(db.queue, EntryKey)
    ensures Gapless(AppendEntry(db, entryId, op, table, recordId, payload, deviceId, now, persistOk).state)
  {
    var r := AppendEntry(db, entryId, op, table, recordId, payload, deviceId, now, persistOk);
    AppendEntryFromCounter(db, entryId, op, table, recordId, payload, deviceId, now, persistOk, |db.queue|);
    if persistOk {
      assert r.state.queue == db.queue + [r.state.queue[|db.queue|]];
      forall i | 0 <= i < |r.state.queue| ensures r.state.queue[i].deviceSeq == Some(i + 1) {
        if i < |db.queue| {
          assert r.state.queue[i] == db.queue[i];
        }
      }
    }
  }

  lemma AppendEntryKeepsKeys(db: Db, entryId: Id, op: OpType, table: string, recordId: Id,
                             payload: Payload, deviceId: string, now: Timestamp, persistOk: bool)
    requires KeysUnique(db)
    ensures KeysUnique(AppendEntry(db, entryId, op, table, recordId, payload, deviceId, now, persistOk).state)
  {
    var r := AppendEntry(db, entryId, op, table, recordId, payload, deviceId, now, persistOk);
    if r.result.Ok? {
      assert r.state.queue == db.queue + [r.state.queue[|db.queue|]];
      UniqueKeysAppend(db.queue, r.state.queue[|db.queue|], EntryKey);
    }
  }

  /** `INSERT INTO items` of a new row, then the outbox append: the part
      `addItem` and each iteration of `seedData` share. */
  function WriteItem(db: Db, id: Id, entryId: Id, fields: ItemFields, payload: Payload,
                     deviceId: string, now: Timestamp, persistOk: bool): (r: After<Db, Id>)
    ensures r.result.Ok? <==> id !in Keys(db.items, ItemKey) && persistOk && entryId !in Keys(db.queue, EntryKey)
    ensures r.result.Ok? ==> r.result.value == id
    ensures id in Keys(db.items, ItemKey) ==> r.state == db
    ensures id !in Keys(db.items, ItemKey) ==>
              && r.state.items == db.items + [NewItemRow(id, fields, now)]
              && r.state.sales == db.sales && r.state.movements == db.movements
    ensures id !in Keys(db.items, ItemKey) && !persistOk ==> r.state.queue == db.queue && r.state.meta == db.meta
    ensures r.result.Ok? ==>
              && |r.state.queue| == |db.queue| + 1 && r.state.queue[..|db.queue|] == db.queue
              && Stamped(r.state.queue[|db.queue|], entryId, ItemInsert, ItemsTable, id, payload, deviceId, now)
  {
    match Insert(db.items, ItemKey, NewItemRow(id, fields, now), ItemsTable)
    case Err(e) => After(db, Err(e))
    case Ok(items) =>
      var r := AppendEntry(db.(items := items), entryId, ItemInsert, ItemsTable, id, payload, deviceId, now, persistOk);
      After(r.state, if r.result.Ok? then Ok(id) else Err(r.result.msg))
  }

  /** `addItem`: a fresh uuid `id` for the row, a fresh uuid `entryId` for
      its outbox entry, whose payload snapshots the row's columns. */
  function AddItem(db: Db, id: Id, entryId: Id, fields: ItemFields, now: Timestamp, persistOk: bool): (r: After<Db, Id>)
    ensures r.result.Ok? <==> id !in Keys(db.items, ItemKey) && persistOk && entryId !in Keys(db.queue, EntryKey)
    ensures r.result.Ok? ==>
              && r.result.value == id
              && r.state.items == db.items + [NewItemRow(id, fields, now)]
              && r.state.sales == db.sales && r.state.movements == db.movements
              && |r.state.queue| == |db.queue| + 1 && r.state.queue[..|db.queue|] == db.queue
              && Stamped(r.state.queue[|db.queue|], entryId, ItemInsert, ItemsTable, id,
                         ItemPayload(id, fields), GetDeviceId(db.meta), now)
    ensures id !in Keys(db.items, ItemKey) && !persistOk ==>
              r.state == db.(items := db.items + [NewItemRow(id, fields, now)]) && r.result.Err?
  {
    WriteItem(db, id, entryId, fields, ItemPayload(id, fields), GetDeviceId(db.meta), now, persistOk)
  }

  /** `recordSale`: the sale row (dated with the day part of the ISO clock
      reading `iso`), then its outbox entry. */
  function RecordSale(db: Db, id: Id, entryId: Id, lines: seq<SaleLine>, total: Cents,
                      iso: Timestamp, now: Timestamp, persistOk: bool): (r: After<Db, Id>)
    ensures r.result.Ok? <==> id !in Keys(db.sales, SaleKey) && persistOk && entryId !in Keys(db.queue, EntryKey)
    ensures id in Keys(db.sales, SaleKey) ==> r.state == db
    ensures id !in Keys(db.sales, SaleKey) ==>
              && r.state.sales == db.sales + [Sale(id, lines, total, DatePart(iso), Some(GetDeviceId(db.meta)), now)]
              && r.state.items == db.items && r.state.movements == db.movements
    ensures id !in Keys(db.sales, SaleKey) && !persistOk ==> r.state.queue == db.queue && r.state.meta == db.meta
    ensures r.result.Ok? ==>
              && r.result.value == id
              && |r.state.queue| == |db.queue| + 1 && r.state.queue[..|db.queue|] == db.queue
              && Stamped(r.state.queue[|db.queue|], entryId, SaleInsert, SalesTable, id,
                         SalePayload(id, lines, total, DatePart(iso), GetDeviceId(db.meta)), GetDeviceId(db.meta), now)
  {
    var deviceId := GetDeviceId(db.meta);
    var date := DatePart(iso);
    match Insert(db.sales, SaleKey, Sale(id, lines, total, date, Some(deviceId), now), SalesTable)
    case Err(e) => After(db, Err(e))
    case Ok(sales) =>
      var r := AppendEntry(db.(sales := sales), entryId, SaleInsert, SalesTable, id,
                           SalePayload(id, lines, total, date, deviceId), deviceId, now, persistOk);
      After(r.state, if r.result.Ok? then Ok(id) else Err(r.result.msg))
  }

  /** A domain insert only touches its own table, so it keeps the outbox
      numbering; the append that follows keeps it too. */
  lemma WriteItemKeepsInvariants(db: Db, id: Id, entryId: Id, fields: ItemFields, payload: Payload,
                                 deviceId: string, now: Timestamp, persistOk: bool)
    ensures var r := WriteItem(db, id, entryId, fields, payload, deviceId, now, persistOk);
            && (KeysUnique(db) ==> KeysUnique(r.state))
            && (Gapless(db) && entryId !in Keys(db.queue, EntryKey) ==> Gapless(r.state))
  {
    var row := NewItemRow(id, fields, now);
    if id !in Keys(db.items, ItemKey) {
      var db1 := db.(items := db.items + [row]);
      if KeysUnique(db) {
        UniqueKeysAppend(db.items, row, ItemKey);
        AppendEntryKeepsKeys(db1, entryId, ItemInsert, ItemsTable, id, payload, deviceId, now, persistOk);
      }
      if Gapless(db) && entryId !in Keys(db.queue, EntryKey) {
        AppendEntryKeepsGapless(db1, entryId, ItemInsert, ItemsTable, id, payload, deviceId, now, persistOk);
      }
    }
  }

  lemma RecordSaleKeepsInvariants(db: Db, id: Id, entryId: Id, lines: seq<SaleLine>, total: Cents,
                                  iso: Timestamp, now: Timestamp, persistOk: bool)
    ensures var r := RecordSale(db, id, entryId, lines, total, iso, now, persistOk);
            && (KeysUnique(db) ==> KeysUnique(r.state))
            && (Gapless(db) && entryId !in Keys(db.queue, EntryKey) ==> Gapless(r.state))
  {
    var deviceId := GetDeviceId(db.meta);
    var date := DatePart(iso);
    var row := Sale(id, lines, total, date, Some(deviceId), now);
    if id !in Keys(db.sales, SaleKey) {
      var db1 := db.(sales := db.sales + [row]);
      var payload := SalePayload(id, lines, total, date, deviceId);
      if KeysUnique(db) {
        UniqueKeysAppend(db.sales, row, SaleKey);
        AppendEntryKeepsKeys(db1, entryId, SaleInsert, SalesTable, id, payload, deviceId, now, persistOk);
      }
      if Gapless(db) && entryId !in Keys(db.queue, EntryKey) {
        AppendEntryKeepsGapless(db1, entryId, SaleInsert, SalesTable, id, payload, deviceId, now, persistOk);
      }
    }
  }

  /** From a counter at `c`, a successful write is logged under number `c + 1`. */
  lemma RecordSaleFromCounter(db: Db, id: Id, entryId: Id, lines: seq<SaleLine>, total: Cents,
                              iso: Timestamp, now: Timestamp, persistOk: bool, c: int)
    requires CounterAt(db.meta, c)
    ensures var r := RecordSale(db, id, entryId, lines, total, iso, now, persistOk);
            r.result.Ok? ==> r.state.queue[|db.queue|].deviceSeq == Some(c + 1) && CounterAt(r.state.meta, c + 1)
  {
    var deviceId := GetDeviceId(db.meta);
    var date := DatePart(iso);
    if id !in Keys(db.sales, SaleKey) {
      var db1 := db.(sales := db.sales + [Sale(id, lines, total, date, Some(deviceId), now)]);
      AppendEntryFromCounter(db1, entryId, SaleInsert, SalesTable, id,
                             SalePayload(id, lines, total, date, deviceId), deviceId, now, persistOk, c);
    }
  }

  lemma AddItemFromCounter(db: Db, id: Id, entryId: Id, fields: ItemFields, now: Timestamp, persistOk: bool, c: int)
    requires CounterAt(db.meta, c)
    ensures var r := AddItem(db, id, entryId, fields, now, persistOk);
            r.result.Ok? ==> r.state.queue[|db.queue|].deviceSeq == Some(c + 1) && CounterAt(r.state.meta, c + 1)
  {
    if id !in Keys(db.items, ItemKey) {
      var db1 := db.(items := db.items + [NewItemRow(id, fields, now)]);
      AppendEntryFromCounter(db1, entryId, ItemInsert, ItemsTable, id,
                             ItemPayload(id, fields), GetDeviceId(db.meta), now, persistOk, c);
    }
  }

  /** The rows `seedData` writes for the first `n` seed records. */
  predicate SeededItems(items: seq<Item>, seeds: seq<ItemFields>, uuid: nat -> Id, now: Timestamp, n: nat)
    requires n <= |seeds|
  {
    |items| == n && forall i :: 0 <= i < n ==> items[i] == NewItemRow(uuid(2 * i), seeds[i], now)
  }

  /** The outbox entries `seedData` appends after `before` for the first `n` seed records. */
  predicate SeededEntries(queue: seq<QueueEntry>, before: seq<QueueEntry>, seeds: seq<ItemFields>,
                          uuid: nat -> Id, deviceId: string, now: Timestamp, n: nat)
    requires n <= |seeds|
  {
    && |queue| == |before| + n && queue[..|before|] == before
    && forall i :: 0 <= i < n ==>
         Stamped(queue[|before| + i], uuid(2 * i + 1), ItemInsert, ItemsTable, uuid(2 * i), SeedPayload(seeds[i]), deviceId, now)
  }

  lemma SeededGrow(items: seq<Item>, queue: seq<QueueEntry>, before: seq<QueueEntry>, seeds: seq<ItemFields>,
                   uuid: nat -> Id, deviceId: string, now: Timestamp, n: nat,
                   items': seq<Item>, queue': seq<QueueEntry>)
    requires n < |seeds|
    requires SeededItems(items, seeds, uuid, now, n) && SeededEntries(queue, before, seeds, uuid, deviceId, now, n)
    requires items' == items + [NewItemRow(uuid(2 * n), seeds[n], now)]
    requires |queue'| == |queue| + 1 && queue'[..|queue|] == queue
    requires Stamped(queue'[|queue|], uuid(2 * n + 1), ItemInsert, ItemsTable, uuid(2 * n), SeedPayload(seeds[n]), deviceId, now)
    ensures SeededItems(items', seeds, uuid, now, n + 1) && SeededEntries(queue', before, seeds, uuid, deviceId, now, n + 1)
  {
    assert queue'[..|before|] == queue[..|before|];
    forall i | 0 <= i < n + 1
      ensures Stamped(queue'[|before| + i], uuid(2 * i + 1), ItemInsert, ItemsTable, uuid(2 * i), SeedPayload(seeds[i]), deviceId, now)
    {
      if i < n {
        assert queue'[|before| + i] == queue[|before| + i];
      }
    }
  }

  /** One iteration of `seedData`: the seed record written as an item whose
      outbox payload is the record itself. */
  method SeedItem(db: Db, id: Id, entryId: Id, seed: ItemFields, deviceId: string, now: Timestamp, persistOk: bool)
    returns (r: After<Db, Id>)
    ensures r.state.sales == db.sales && r.state.movements == db.movements
    ensures r.result.Ok? ==>
              && r.state.items == db.items + [NewItemRow(id, seed, now)]
              && |r.state.queue| == |db.queue| + 1 && r.state.queue[..|db.queue|] == db.queue
              && Stamped(r.state.queue[|db.queue|], entryId, ItemInsert, ItemsTable, id, SeedPayload(seed), deviceId, now)
    ensures KeysUnique(db) ==> KeysUnique(r.state)
    ensures Gapless(db) && r.result.Ok? ==> Gapless(r.state)
    ensures Gapless(db) && entryId !in Keys(db.queue, EntryKey) ==> Gapless(r.state)
  {
    r := WriteItem(db, id, entryId, seed, SeedPayload(seed), deviceId, now, persistOk);
    WriteItemKeepsInvariants(db, id, entryId, seed, SeedPayload(seed), deviceId, now, persistOk);
  }

  /** The outbox entry id `seedData` draws for seed `k`. */
  function SeedEntryId(uuid: nat -> Id, k: nat): Id {
    uuid(2 * k + 1)
  }

  /** The entry ids drawn for the first `n` seeds are pairwise distinct and
      not yet in the outbox. */
  predicate EntryIdsFresh(queue: seq<QueueEntry>, uuid: nat -> Id, n: nat) {
    && (forall k, l :: 0 <= k < l < n ==> SeedEntryId(uuid, k) != SeedEntryId(uuid, l))
    && (forall k :: 0 <= k < n ==> SeedEntryId(uuid, k) !in Keys(queue, EntryKey))
  }

  /** `seedData`: with an empty `items` table, each seed record is written as
      an item with its own outbox entry, in order, the device id being read
      once up front; the first failure ends the loop.  Seed `i` uses the
      uuids `uuid(2 * i)` (row) and `uuid(2 * i + 1)` (entry); `persistOk(i)`
      tells whether its sequencer UPDATE succeeds.  A table that holds any
      row, deleted or not, is left alone. */
  method SeedData(db: Db, seeds: seq<ItemFields>, uuid: nat -> Id, now: Timestamp, persistOk: nat -> bool)
    returns (r: After<Db, ()>)
    ensures |db.items| > 0 ==> r == After(db, Ok(()))
    ensures r.state.sales == db.sales && r.state.movements == db.movements
    ensures |db.items| == 0 && r.result.Ok? ==>
              && SeededItems(r.state.items, seeds, uuid, now, |seeds|)
              && SeededEntries(r.state.queue, db.queue, seeds, uuid, GetDeviceId(db.meta), now, |seeds|)
    ensures KeysUnique(db) ==> KeysUnique(r.state)
    ensures Gapless(db) && r.result.Ok? ==> Gapless(r.state)
    ensures Gapless(db) && EntryIdsFresh(db.queue, uuid, |seeds|) ==> Gapless(r.state)
  {
    if |db.items| > 0 {
      return After(db, Ok(()));
    }
    var deviceId := GetDeviceId(db.meta);
    var cur := db;
    var i := 0;
    while i < |seeds|
      invariant 0 <= i <= |seeds|
      invariant cur.sales == db.sales && cur.movements == db.movements
      invariant SeededItems(cur.items, seeds, uuid, now, i)
      invariant SeededEntries(cur.queue, db.queue, seeds, uuid, deviceId, now, i)
      invariant KeysUnique(db) ==> KeysUnique(cur)
      invariant Gapless(db) ==> Gapless(cur)
      invariant EntryIdsFresh(db.queue, uuid, |seeds|) ==>
                  forall k :: i <= k < |seeds| ==> SeedEntryId(uuid, k) !in Keys(cur.queue, EntryKey)
    {
      var step := SeedItem(cur, uuid(2 * i), SeedEntryId(uuid, i), seeds[i], deviceId, now, persistOk(i));
      if step.result.Err? {
        return After(step.state, Err(step.result.msg));
      }
      SeededGrow(cur.items, cur.queue, db.queue, seeds, uuid, deviceId, now, i, step.state.items, step.state.queue);
      assert step.state.queue == cur.queue + [step.state.queue[|cur.queue|]];
      KeysAppend(cur.queue, step.state.queue[|cur.queue|], EntryKey);
      cur := step.state;
      i := i + 1;
    }
    r := After(cur, Ok(()));
  }
}
