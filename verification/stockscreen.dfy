/** The stock management screen (src/screens/StockManagementScreen.js): a
    stock adjustment is a logged write like those of the database module,
    and the stock list is the spaza-visible items ordered by derived stock.
 */
module StockScreen {
  import opened Common
  import opened JsText
  import opened Tables
  import opened Schema
  import opened Device
  import opened Database
  import opened Stock
  import opened Sorting

  /** An item's stock below this is flagged as low. */
  const LowStockThreshold := 10

  /** `handleStockAdjustment`: nothing happens without a selected item or
      with an empty quantity field (`Ok(None)`); otherwise the field is read
      with `parseInt`, an `adjustment` movement is inserted with the notes and
      the device id, and a `stock_movement_insert` entry is appended.  A
      quantity that parses to NaN reaches SQLite as NULL and breaks the NOT
      NULL constraint before anything is written. */
  function HandleStockAdjustment(db: Db, selected: Option<Id>, quantityText: string, notes: string,
                                 id: Id, entryId: Id, now: Timestamp, persistOk: bool): (r: After<Db, Option<Id>>)
    ensures selected.None? || quantityText == "" ==> r == After(db, Ok(None))
    ensures selected.Some? && quantityText != "" && ParseInt(quantityText).None? ==> r.state == db && r.result.Err?
    ensures r.result.Ok? && r.result.value.Some? <==>
              && selected.Some? && quantityText != "" && ParseInt(quantityText).Some?
              && id !in Keys(db.movements, MovementKey) && persistOk && entryId !in Keys(db.queue, EntryKey)
    ensures r.state.items == db.items && r.state.sales == db.sales
  {
    if selected.None? || quantityText == "" then After(db, Ok(None))
    else
      var deviceId := GetDeviceId(db.meta);
      match ParseInt(quantityText)
      case None => After(db, Err("NOT NULL constraint failed: stock_movements.quantity"))
      case Some(quantity) =>
        var movement := StockMovement(id, selected.value, quantity, Adjustment, Some(notes), Some(deviceId), now);
        match Insert(db.movements, MovementKey, movement, MovementsTable)
        case Err(e) => After(db, Err(e))
        case Ok(movements) =>
          var r := AppendEntry(db.(movements := movements), entryId, StockMovementInsert, MovementsTable, id,
                               MovementPayload(id, selected.value, quantity, Adjustment, notes, deviceId), deviceId, now, persistOk);
          After(r.state, if r.result.Ok? then Ok(Some(id)) else Err(r.result.msg))
  }

  /** What an adjustment that gets past its guards writes: the movement row,
      and on success one outbox entry for it whose payload carries the
      movement's columns. */
  lemma AdjustmentWrites(db: Db, itemId: Id, quantityText: string, notes: string,
                         id: Id, entryId: Id, now: Timestamp, persistOk: bool)
    requires quantityText != "" && ParseInt(quantityText).Some?
    requires id !in Keys(db.movements, MovementKey)
    ensures var r := HandleStockAdjustment(db, Some(itemId), quantityText, notes, id, entryId, now, persistOk);
            var q := ParseInt(quantityText).value;
            var deviceId := GetDeviceId(db.meta);
            && r.state.movements == db.movements + [StockMovement(id, itemId, q, Adjustment, Some(notes), Some(deviceId), now)]
            && (!persistOk ==> r.state.queue == db.queue && r.state.meta == db.meta)
            && (r.result.Ok? ==>
                  && r.result.value == Some(id)
                  && |r.state.queue| == |db.queue| + 1 && r.state.queue[..|db.queue|] == db.queue
                  && Stamped(r.state.queue[|db.queue|], entryId, StockMovementInsert, MovementsTable, id,
                             MovementPayload(id, itemId, q, Adjustment, notes, deviceId), deviceId, now))
  {
  }

  /** An adjustment keeps the PRIMARY KEY constraints and, when its entry id
      is fresh, the gapless numbering of the outbox. */
  lemma AdjustmentKeepsInvariants(db: Db, selected: Option<Id>, quantityText: string, notes: string,
                                  id: Id, entryId: Id, now: Timestamp, persistOk: bool)
    ensures var r := HandleStockAdjustment(db, selected, quantityText, notes, id, entryId, now, persistOk);
            && (KeysUnique(db) ==> KeysUnique(r.state))
            && (Gapless(db) && entryId !in Keys(db.queue, EntryKey) ==> Gapless(r.state))
  {
    if selected.Some? && quantityText != "" && ParseInt(quantityText).Some? && id !in Keys(db.movements, MovementKey) {
      var deviceId := GetDeviceId(db.meta);
      var q := ParseInt(quantityText).value;
      var movement := StockMovement(id, selected.value, q, Adjustment, Some(notes), Some(deviceId), now);
      var db1 := db.(movements := db.movements + [movement]);
      var payload := MovementPayload(id, selected.value, q, Adjustment, notes, deviceId);
      if KeysUnique(db) {
        UniqueKeysAppend(db.movements, movement, MovementKey);
        AppendEntryKeepsKeys(db1, entryId, StockMovementInsert, MovementsTable, id, payload, deviceId, now, persistOk);
      }
      if Gapless(db) && entryId !in Keys(db.queue, EntryKey) {
        AppendEntryKeepsGapless(db1, entryId, StockMovementInsert, MovementsTable, id, payload, deviceId, now, persistOk);
      }
    }
  }

  /** An adjustment of `q` units moves the stock of the selected item by `q`
      and no other item's stock. */
  lemma AdjustmentShiftsStock(db: Db, itemId: Id, quantityText: string, notes: string,
                              id: Id, entryId: Id, now: Timestamp, persistOk: bool, other: Id)
    requires quantityText != "" && ParseInt(quantityText).Some?
    requires id !in Keys(db.movements, MovementKey)
    ensures var r := HandleStockAdjustment(db, Some(itemId), quantityText, notes, id, entryId, now, persistOk);
            ComputeStock(r.state, other)
            == ComputeStock(db, other) + (if other == itemId && itemId in Keys(db.items, ItemKey) then ParseInt(quantityText).value else 0)
  {
    var q := ParseInt(quantityText).value;
    var deviceId := GetDeviceId(db.meta);
    var movement := StockMovement(id, itemId, q, Adjustment, Some(notes), Some(deviceId), now);
    AdjustmentWrites(db, itemId, quantityText, notes, id, entryId, now, persistOk);
    StockAfterMovement(db, movement, other);
  }

  /** An item the stock screen lists: not deleted, sold in spaza mode. */
  predicate Listed(item: Item) {
    item.deleted == 0 && (item.fields.mode == Spaza || item.fields.mode == Both)
  }

  /** A row of the stock list: the item and its derived stock. */
  datatype StockRow = StockRow(item: Item, stock: int)

  /** The listed items in table order, each with its derived stock. */
  function StockRows(db: Db, items: seq<Item>): (rows: seq<StockRow>)
    ensures forall r :: r in rows <==> r.item in items && Listed(r.item) && r.stock == ComputeStock(db, r.item.id)
    ensures (forall i, j :: 0 <= i < j < |items| ==> items[i] != items[j]) ==>
              forall i, j :: 0 <= i < j < |rows| ==> rows[i] != rows[j]
  {
    if |items| == 0 then []
    else
      var rest := StockRows(db, items[1..]);
      assert forall x :: x in items <==> x == items[0] || x in items[1..];
      if Listed(items[0]) then [StockRow(items[0], ComputeStock(db, items[0].id))] + rest else rest
  }

  function StockKey(r: StockRow): Rank {
    Val(r.stock)
  }

  /** `loadStockLevels`: the listed items, sorted ascending by stock. */
  function StockList(db: Db): seq<StockRow> {
    SortBy(StockRows(db, db.items), StockKey)
  }

  /** The list holds exactly the listed items with their derived stock,
      in ascending order of stock. */
  lemma StockListSpec(db: Db)
    ensures forall r :: r in StockList(db) <==> r.item in db.items && Listed(r.item) && r.stock == ComputeStock(db, r.item.id)
    ensures forall i, j :: 0 <= i < j < |StockList(db)| ==> StockList(db)[i].stock <= StockList(db)[j].stock
    ensures KeysUnique(db) ==> forall r :: multiset(StockList(db))[r] <= 1
  {
    var rows := StockRows(db, db.items);
    var sorted := SortBy(rows, StockKey);
    assert sorted == StockList(db);
    SortBySorted(rows, StockKey);
    forall r ensures r in sorted <==> r in rows {
      assert r in sorted <==> r in multiset(sorted);
      assert r in rows <==> r in multiset(rows);
    }
    forall i, j | 0 <= i < j < |sorted| ensures sorted[i].stock <= sorted[j].stock {
      assert RankLe(StockKey(sorted[i]), StockKey(sorted[j]));
    }
    if KeysUnique(db) {
      StockListOnce(db);
    }
  }

  /** With unique item ids, each item is listed at most once. */
  lemma StockListOnce(db: Db)
    requires KeysUnique(db)
    ensures forall r :: multiset(StockList(db))[r] <= 1
  {
    var rows := StockRows(db, db.items);
    forall i, j | 0 <= i < j < |db.items| ensures db.items[i] != db.items[j] {
      assert ItemKey(db.items[i]) != ItemKey(db.items[j]);
    }
    DistinctCount(rows);
    assert multiset(StockList(db)) == multiset(rows);
  }

  /** The low-stock flag of the rendered list. */
  predicate LowStock(r: StockRow) {
    r.stock < LowStockThreshold
  }

  /** In the sorted list the flagged rows come first: a row is flagged
      exactly when its stock is below the threshold. */
  lemma LowStockPrefix(db: Db, i: int, j: int)
    requires 0 <= i < j < |StockList(db)|
    ensures LowStock(StockList(db)[j]) ==> LowStock(StockList(db)[i])
  {
    StockListSpec(db);
  }
}
