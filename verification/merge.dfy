/** The pull side of the sync cycle (src/sync/sync.js, steps 4 and 5): the
    query each pull makes against a remote table, and the policies that
    apply pulled rows to the local tables — overwrite for items,
    insert-if-absent for the append-only sales and stock movements.
 */
module Merge {
  import opened Common
  import opened JsText
  import opened Tables
  import opened Schema
  import opened Device

  /** The cursor used when `meta.last_sync` is missing or empty. */
  const DefaultCursor := "2000-01-01"

  /** `(SELECT value FROM meta WHERE key = 'last_sync')?.value || '2000-01-01'`:
      a missing row and the empty text both fall back to the default. */
  function ReadCursor(m: Meta): (c: Timestamp)
    ensures c != ""
    ensures LastSyncKey in m && m[LastSyncKey] != "" ==> c == m[LastSyncKey]
    ensures LastSyncKey !in m || m[LastSyncKey] == "" ==> c == DefaultCursor
  {
    if LastSyncKey in m && m[LastSyncKey] != "" then m[LastSyncKey] else DefaultCursor
  }

  /** The filter of every pull query: `.gt(<timestamp column>, cursor)` and
      `.neq('device_id', me)`.  A NULL `device_id` satisfies no comparison,
      so rows without a device are never pulled. */
  predicate Fresh(stamp: Timestamp, deviceId: Option<string>, cursor: Timestamp, me: string) {
    Before(cursor, stamp) && deviceId.Some? && deviceId.value != me
  }

  /** The rows a pull query returns from a remote table, in table order.
      `stamp` is the compared column, `device` the `device_id` column. */
  function Select<T(!new)>(rows: seq<T>, stamp: T -> Timestamp, device: T -> Option<string>,
                     cursor: Timestamp, me: string): (r: seq<T>)
    ensures forall x :: x in r <==> x in rows && Fresh(stamp(x), device(x), cursor, me)
    ensures |r| <= |rows|
  {
    if |rows| == 0 then []
    else
      var rest := Select(rows[1..], stamp, device, cursor, me);
      assert forall x :: x in rows <==> x == rows[0] || x in rows[1..];
      if Fresh(stamp(rows[0]), device(rows[0]), cursor, me) then [rows[0]] + rest else rest
  }

  /** A row of the remote `items` table.  `name` and `price` may be NULL
      there, `mode` is free text and `deleted` a nullable boolean. */
  datatype RemoteItem = RemoteItem(
    id: Id,
    name: Option<string>,
    price: Option<Cents>,
    sku: Option<string>,
    barcode: Option<string>,
    initialStock: int,
    category: Option<string>,
    mode: string,
    createdAt: Timestamp,
    updatedAt: Timestamp,
    deleted: Option<bool>,
    deviceId: Option<string>)

  function RemoteItemKey(x: RemoteItem): Id { x.id }

  /** A remote item the local `items` constraints accept: a name and a
      price (NOT NULL) and one of the three modes (CHECK). */
  predicate Admissible(x: RemoteItem) {
    x.name.Some? && x.price.Some? && ParseMode(x.mode).Some?
  }

  /** The local row `INSERT OR REPLACE INTO items` writes for an admissible
      remote item: `deleted` becomes 1 exactly when the remote flag is true. */
  function ItemOf(x: RemoteItem): (item: Item)
    requires Admissible(x)
  {
    Item(x.id, ItemFields(x.name.value, x.price.value, x.sku, x.barcode, x.initialStock, x.category, ParseMode(x.mode).value),
         x.createdAt, x.updatedAt, if x.deleted == Some(true) then 1 else 0)
  }

  /** The constraint error an inadmissible remote item raises: SQLite
      checks the NOT NULL columns in column order before the CHECK. */
  function Rejection(x: RemoteItem): string {
    if x.name.None? then "NOT NULL constraint failed: items.name"
    else if x.price.None? then "NOT NULL constraint failed: items.price"
    else "CHECK constraint failed: mode IN ('fastfood', 'spaza', 'both')"
  }

  /** The remote copy of a local item row, as another device's upload leaves
      it on the server. */
  function Published(item: Item, deviceId: string): RemoteItem {
    RemoteItem(item.id, Some(item.fields.name), Some(item.fields.price), item.fields.sku, item.fields.barcode,
               item.fields.initialStock, item.fields.category, ModeText(item.fields.mode),
               item.createdAt, item.updatedAt, Some(item.deleted == 1), Some(deviceId))
  }

  /** A published item is admissible and the column mapping brings back
      exactly the row that was published. */
  lemma ItemOfPublished(item: Item, deviceId: string)
    ensures Admissible(Published(item, deviceId))
    ensures ItemOf(Published(item, deviceId)) == item
  {
    EnumTextsRoundTrip(item.fields.mode, Adjustment, ItemInsert);
  }

  /** The length of the longest admissible prefix of `incoming`. */
  function Accepted(incoming: seq<RemoteItem>): (n: nat)
    ensures n <= |incoming|
    ensures forall i :: 0 <= i < n ==> Admissible(incoming[i])
    ensures n < |incoming| ==> !Admissible(incoming[n])
  {
    if |incoming| == 0 || !Admissible(incoming[0]) then 0
    else 1 + Accepted(incoming[1..])
  }

  /** The local rows of a run of admissible remote items. */
  function ItemsOf(incoming: seq<RemoteItem>): (rows: seq<Item>)
    requires forall i :: 0 <= i < |incoming| ==> Admissible(incoming[i])
    ensures |rows| == |incoming|
    ensures forall i :: 0 <= i < |incoming| ==> rows[i] == ItemOf(incoming[i])
  {
    seq(|incoming|, i requires 0 <= i < |incoming| => ItemOf(incoming[i]))
  }

  /** The item merge: one `INSERT OR REPLACE` per pulled row, in order.  The
      first row the local constraints reject throws; the rows before it stay
      written. */
  function MergeItems(items: seq<Item>, incoming: seq<RemoteItem>): (r: After<seq<Item>, ()>)
    decreases |incoming|
  {
    if |incoming| == 0 then After(items, Ok(()))
    else
      var p := MergeItems(items, incoming[..|incoming| - 1]);
      var x := incoming[|incoming| - 1];
      if p.result.Err? then p
      else if !Admissible(x) then After(p.state, Err(Rejection(x)))
      else After(Upsert(p.state, ItemKey, ItemOf(x)), Ok(()))
  }

  lemma AcceptedInit(incoming: seq<RemoteItem>)
    requires |incoming| > 0
    ensures var m := |incoming| - 1;
            Accepted(incoming) == if Accepted(incoming[..m]) < m then Accepted(incoming[..m])
                                  else if Admissible(incoming[m]) then m + 1 else m
  {
    var m := |incoming| - 1;
    assert forall i :: 0 <= i < m ==> incoming[..m][i] == incoming[i];
  }

  /** The item merge writes the converted rows of the longest admissible
      prefix, one overwrite after the other, and succeeds exactly when the
      whole batch is admissible; otherwise it reports the first rejection. */
  lemma {:induction false} MergeItemsApplied(items: seq<Item>, incoming: seq<RemoteItem>)
    ensures var n := Accepted(incoming);
            var r := MergeItems(items, incoming);
            && r.state == UpsertAll(items, ItemKey, ItemsOf(incoming[..n]))
            && (r.result.Ok? <==> n == |incoming|)
            && (n < |incoming| ==> r.result == Err(Rejection(incoming[n])))
    decreases |incoming|
  {
    var n := Accepted(incoming);
    if |incoming| == 0 {
      assert ItemsOf(incoming[..n]) == [];
    } else {
      var m := |incoming| - 1;
      var init := incoming[..m];
      var x := incoming[m];
      MergeItemsApplied(items, init);
      AcceptedInit(incoming);
      var nI := Accepted(init);
      var p := MergeItems(items, init);
      assert init[..nI] == incoming[..nI];
      if nI < m {
        assert n == nI && init[nI] == incoming[nI];
        assert MergeItems(items, incoming) == p;
      } else if !Admissible(x) {
        assert n == m && init[..nI] == incoming[..n];
        assert MergeItems(items, incoming) == After(p.state, Err(Rejection(x)));
      } else {
        assert n == m + 1 && incoming[..n] == incoming && init[..nI] == init;
        UpsertAllItemsOf(items, incoming);
      }
    }
  }

  lemma UpsertAllItemsOf(items: seq<Item>, incoming: seq<RemoteItem>)
    requires |incoming| > 0 && forall i :: 0 <= i < |incoming| ==> Admissible(incoming[i])
    ensures var m := |incoming| - 1;
            UpsertAll(items, ItemKey, ItemsOf(incoming))
            == Upsert(UpsertAll(items, ItemKey, ItemsOf(incoming[..m])), ItemKey, ItemOf(incoming[m]))
  {
    var m := |incoming| - 1;
    var all := ItemsOf(incoming);
    assert all[..m] == ItemsOf(incoming[..m]);
  }

  /** When every pulled item is admissible, each pulled id reads back the
      last pulled row with that id, whatever the local row held, and every
      other id is untouched. */
  lemma MergeItemsFind(items: seq<Item>, incoming: seq<RemoteItem>, k: Id)
    requires forall i :: 0 <= i < |incoming| ==> Admissible(incoming[i])
    ensures MergeItems(items, incoming).result.Ok?
    ensures Find(MergeItems(items, incoming).state, ItemKey, k)
            == if k in Keys(ItemsOf(incoming), ItemKey) then FindLast(ItemsOf(incoming), ItemKey, k) else Find(items, ItemKey, k)
  {
    MergeItemsApplied(items, incoming);
    assert incoming[..|incoming|] == incoming;
    UpsertAllFind(items, ItemKey, ItemsOf(incoming), k);
  }

  function SaleStamp(s: Sale): Timestamp { s.createdAt }
  function SaleDevice(s: Sale): Option<string> { s.deviceId }
  function MovementStamp(m: StockMovement): Timestamp { m.createdAt }
  function MovementDevice(m: StockMovement): Option<string> { m.deviceId }
  function ItemStamp(x: RemoteItem): Timestamp { x.updatedAt }
  function ItemDevice(x: RemoteItem): Option<string> { x.deviceId }

  /** The sale merge: a pulled sale is inserted only when no local sale has
      its id. */
  function MergeSales(sales: seq<Sale>, incoming: seq<Sale>): seq<Sale> {
    InsertAllIfAbsent(sales, SaleKey, incoming)
  }

  /** The stock movement merge, with the same policy as sales. */
  function MergeMovements(movements: seq<StockMovement>, incoming: seq<StockMovement>): seq<StockMovement> {
    InsertAllIfAbsent(movements, MovementKey, incoming)
  }

  /** Two devices that each recorded sales offline and pulled each other's
      end up holding the same set of sale ids, every local sale kept as it was. */
  lemma SalesConverge(a: seq<Sale>, b: seq<Sale>)
    ensures |a| <= |MergeSales(a, b)| && |b| <= |MergeSales(b, a)|
    ensures Keys(MergeSales(a, b), SaleKey) == Keys(MergeSales(b, a), SaleKey) == Keys(a, SaleKey) + Keys(b, SaleKey)
    ensures MergeSales(a, b)[..|a|] == a && MergeSales(b, a)[..|b|] == b
  {
    InsertAllIfAbsentKeys(a, SaleKey, b);
    InsertAllIfAbsentKeys(b, SaleKey, a);
    InsertAllIfAbsentPrefix(a, SaleKey, b);
    InsertAllIfAbsentPrefix(b, SaleKey, a);
  }
}
