/** Derived stock (`computeStock` in src/db/database.js): stock is never
    stored; it is the item's initial stock plus the quantities of its stock
    movements minus the quantities sold in sale lines naming the item.
 */
module Stock {
  import opened Common
  import opened Tables
  import opened Schema
  import opened Database
  import opened Device
  import JsText

  /** Sum of the quantities of the movements of `itemId`. */
  function MovementSum(movements: seq<StockMovement>, itemId: Id): int {
    if |movements| == 0 then 0
    else
      var last := movements[|movements| - 1];
      MovementSum(movements[..|movements| - 1], itemId) + (if last.itemId == itemId then last.quantity else 0)
  }

  /** Sum of the quantities of the sale lines for `itemId` in one sale. */
  function LineSum(lines: seq<SaleLine>, itemId: Id): int {
    if |lines| == 0 then 0
    else
      var last := lines[|lines| - 1];
      LineSum(lines[..|lines| - 1], itemId) + (if last.itemId == itemId then last.quantity else 0)
  }

  /** Quantity of `itemId` sold over all recorded sales. */
  function SoldSum(sales: seq<Sale>, itemId: Id): int {
    if |sales| == 0 then 0
    else SoldSum(sales[..|sales| - 1], itemId) + LineSum(sales[|sales| - 1].lines, itemId)
  }

  /** `computeStock(itemId)`: 0 for an id with no `items` row. */
  function ComputeStock(db: Db, itemId: Id): (s: int)
    ensures itemId !in Keys(db.items, ItemKey) ==> s == 0
    ensures forall item :: Find(db.items, ItemKey, itemId) == Some(item) ==>
              s == item.fields.initialStock + MovementSum(db.movements, itemId) - SoldSum(db.sales, itemId)
  {
    match Find(db.items, ItemKey, itemId)
    case None => 0
    case Some(item) => item.fields.initialStock + MovementSum(db.movements, itemId) - SoldSum(db.sales, itemId)
  }

  lemma {:induction false} MovementSumConcat(a: seq<StockMovement>, b: seq<StockMovement>, itemId: Id)
    ensures MovementSum(a + b, itemId) == MovementSum(a, itemId) + MovementSum(b, itemId)
    decreases |b|
  {
    if |b| > 0 {
      var b' := b[..|b| - 1];
      assert (a + b)[..|a + b| - 1] == a + b';
      MovementSumConcat(a, b', itemId);
    } else {
      assert a + b == a;
    }
  }

  lemma {:induction false} LineSumConcat(a: seq<SaleLine>, b: seq<SaleLine>, itemId: Id)
    ensures LineSum(a + b, itemId) == LineSum(a, itemId) + LineSum(b, itemId)
    decreases |b|
  {
    if |b| > 0 {
      var b' := b[..|b| - 1];
      assert (a + b)[..|a + b| - 1] == a + b';
      LineSumConcat(a, b', itemId);
    } else {
      assert a + b == a;
    }
  }

  lemma {:induction false} SoldSumConcat(a: seq<Sale>, b: seq<Sale>, itemId: Id)
    ensures SoldSum(a + b, itemId) == SoldSum(a, itemId) + SoldSum(b, itemId)
    decreases |b|
  {
    if |b| > 0 {
      var b' := b[..|b| - 1];
      assert (a + b)[..|a + b| - 1] == a + b';
      SoldSumConcat(a, b', itemId);
    } else {
      assert a + b == a;
    }
  }

  /** Movements and lines of other items do not count. */
  lemma {:induction false} MovementSumOther(movements: seq<StockMovement>, itemId: Id)
    requires forall i :: 0 <= i < |movements| ==> movements[i].itemId != itemId
    ensures MovementSum(movements, itemId) == 0
  {
    if |movements| > 0 {
      MovementSumOther(movements[..|movements| - 1], itemId);
    }
  }

  lemma {:induction false} LineSumOther(lines: seq<SaleLine>, itemId: Id)
    requires forall i :: 0 <= i < |lines| ==> lines[i].itemId != itemId
    ensures LineSum(lines, itemId) == 0
  {
    if |lines| > 0 {
      LineSumOther(lines[..|lines| - 1], itemId);
    }
  }

  /** Appending a movement shifts the stock of its item by its quantity and
      leaves every other item's stock unchanged. */
  lemma StockAfterMovement(db: Db, m: StockMovement, itemId: Id)
    ensures ComputeStock(db.(movements := db.movements + [m]), itemId)
            == ComputeStock(db, itemId) + (if m.itemId == itemId && itemId in Keys(db.items, ItemKey) then m.quantity else 0)
  {
    MovementSumConcat(db.movements, [m], itemId);
    assert [m][..0] == [];
  }

  /** Appending a sale lowers each item's stock by the quantity its lines
      sell of that item; an item none of its lines names is unchanged. */
  lemma StockAfterSale(db: Db, s: Sale, itemId: Id)
    ensures ComputeStock(db.(sales := db.sales + [s]), itemId)
            == ComputeStock(db, itemId) - (if itemId in Keys(db.items, ItemKey) then LineSum(s.lines, itemId) else 0)
    ensures (forall i :: 0 <= i < |s.lines| ==> s.lines[i].itemId != itemId) ==>
              ComputeStock(db.(sales := db.sales + [s]), itemId) == ComputeStock(db, itemId)
  {
    SoldSumConcat(db.sales, [s], itemId);
    assert [s][..0] == [];
    if forall i :: 0 <= i < |s.lines| ==> s.lines[i].itemId != itemId {
      LineSumOther(s.lines, itemId);
    }
  }

  /** An id with no `items` row has stock 0, whatever history names it.
      Appending an item row with a fresh key changes no existing item's
      stock; the new item starts at its initial stock when no history names
      it. */
  lemma StockAfterNewItem(db: Db, item: Item, itemId: Id)
    requires item.id !in Keys(db.items, ItemKey)
    ensures ComputeStock(db, item.id) == 0
    ensures itemId != item.id ==> ComputeStock(db.(items := db.items + [item]), itemId) == ComputeStock(db, itemId)
    ensures (forall i :: 0 <= i < |db.movements| ==> db.movements[i].itemId != item.id)
            && (forall i, j :: 0 <= i < |db.sales| && 0 <= j < |db.sales[i].lines| ==> db.sales[i].lines[j].itemId != item.id)
            ==> ComputeStock(db.(items := db.items + [item]), item.id) == item.fields.initialStock
  {
    FindAppendAbsent(db.items, item, ItemKey);
    if itemId != item.id {
      FindAppendOther(db.items, item, ItemKey, itemId);
    }
    if (forall i :: 0 <= i < |db.movements| ==> db.movements[i].itemId != item.id)
       && (forall i, j :: 0 <= i < |db.sales| && 0 <= j < |db.sales[i].lines| ==> db.sales[i].lines[j].itemId != item.id) {
      MovementSumOther(db.movements, item.id);
      NoSalesOf(db.sales, item.id);
    }
  }

  lemma {:induction false} NoSalesOf(sales: seq<Sale>, itemId: Id)
    requires forall i, j :: 0 <= i < |sales| && 0 <= j < |sales[i].lines| ==> sales[i].lines[j].itemId != itemId
    ensures SoldSum(sales, itemId) == 0
  {
    if |sales| > 0 {
      NoSalesOf(sales[..|sales| - 1], itemId);
      LineSumOther(sales[|sales| - 1].lines, itemId);
    }
  }

  /** The worked example: initial stock 10, a delivery of 5, a sale of 3 gives 12. */
  lemma StockExample(item: Item, delivery: StockMovement, sale: Sale)
    requires item.fields.initialStock == 10
    requires delivery.itemId == item.id && delivery.quantity == 5
    requires sale.lines == [SaleLine(item.id, item.fields.name, item.fields.price, 3)]
    ensures ComputeStock(Db(map[], [item], [sale], [delivery], []), item.id) == 12
  {
    var db := Db(map[], [item], [sale], [delivery], []);
    assert Find(db.items, ItemKey, item.id) == Some(item);
    assert [delivery][..0] == [] && [sale][..0] == [] && sale.lines[..0] == [];
    assert MovementSum(db.movements, item.id) == 5;
    assert LineSum(sale.lines, item.id) == 3;
    assert SoldSum(db.sales, item.id) == 3;
  }

  /** A recorded sale lowers each existing item's stock by what its lines
      sell of it, whether or not its outbox entry is written afterwards. */
  lemma RecordSaleLowersStock(db: Db, id: Id, entryId: Id, lines: seq<SaleLine>, total: Cents,
                              iso: Timestamp, now: Timestamp, persistOk: bool, itemId: Id)
    requires id !in Keys(db.sales, SaleKey)
    ensures ComputeStock(RecordSale(db, id, entryId, lines, total, iso, now, persistOk).state, itemId)
            == ComputeStock(db, itemId) - (if itemId in Keys(db.items, ItemKey) then LineSum(lines, itemId) else 0)
  {
    var s := Sale(id, lines, total, JsText.DatePart(iso), Some(GetDeviceId(db.meta)), now);
    StockAfterSale(db, s, itemId);
  }
}
