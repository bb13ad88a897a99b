/** The local SQLite schema: one datatype per table row, the enumerations
    that the CHECK constraints admit, and the text each enumeration value is
    stored as.  Money (`REAL` in SQLite) is kept in integer cents.
 */
module Schema {
  import opened Common
  import opened Tables

  /** Timestamps are the texts the application stores. */
  type Timestamp = string

  /** Prices and totals, in cents. */
  type Cents = int

  /** A 0/1 integer column. */
  type Flag = b: int | 0 <= b <= 1

  const ItemsTable := "items"
  const SalesTable := "sales"
  const MovementsTable := "stock_movements"
  const QueueTable := "sync_queue"

  /** `items.mode`, CHECK(mode IN ('fastfood', 'spaza', 'both')). */
  datatype Mode = Fastfood | Spaza | Both

  function ModeText(m: Mode): string {
    match m
    case Fastfood => "fastfood"
    case Spaza => "spaza"
    case Both => "both"
  }

  /** The CHECK constraint on `items.mode`: the texts it admits, read back. */
  function ParseMode(s: string): (r: Option<Mode>)
    ensures r.Some? <==> s == "fastfood" || s == "spaza" || s == "both"
    ensures r.Some? ==> ModeText(r.value) == s
  {
    if s == "fastfood" then Some(Fastfood)
    else if s == "spaza" then Some(Spaza)
    else if s == "both" then Some(Both)
    else None
  }

  /** `stock_movements.type`, CHECK(type IN ('adjustment', 'delivery', 'return')). */
  datatype MovementType = Adjustment | Delivery | Return

  function MovementTypeText(t: MovementType): string {
    match t
    case Adjustment => "adjustment"
    case Delivery => "delivery"
    case Return => "return"
  }

  function ParseMovementType(s: string): (r: Option<MovementType>)
    ensures r.Some? <==> s == "adjustment" || s == "delivery" || s == "return"
    ensures r.Some? ==> MovementTypeText(r.value) == s
  {
    if s == "adjustment" then Some(Adjustment)
    else if s == "delivery" then Some(Delivery)
    else if s == "return" then Some(Return)
    else None
  }

  /** `sync_queue.op_type`, CHECK(op_type IN (...)) with five values. */
  datatype OpType = ItemInsert | ItemUpdate | ItemDelete | SaleInsert | StockMovementInsert

  function OpTypeText(op: OpType): string {
    match op
    case ItemInsert => "item_insert"
    case ItemUpdate => "item_update"
    case ItemDelete => "item_delete"
    case SaleInsert => "sale_insert"
    case StockMovementInsert => "stock_movement_insert"
  }

  function ParseOpType(s: string): (r: Option<OpType>)
    ensures r.Some? <==> s in {"item_insert", "item_update", "item_delete", "sale_insert", "stock_movement_insert"}
    ensures r.Some? ==> OpTypeText(r.value) == s
  {
    if s == "item_insert" then Some(ItemInsert)
    else if s == "item_update" then Some(ItemUpdate)
    else if s == "item_delete" then Some(ItemDelete)
    else if s == "sale_insert" then Some(SaleInsert)
    else if s == "stock_movement_insert" then Some(StockMovementInsert)
    else None
  }

  /** Every enumeration value is stored as a text its CHECK constraint admits
      and reads back as itself. */
  lemma EnumTextsRoundTrip(m: Mode, t: MovementType, op: OpType)
    ensures ParseMode(ModeText(m)) == Some(m)
    ensures ParseMovementType(MovementTypeText(t)) == Some(t)
    ensures ParseOpType(OpTypeText(op)) == Some(op)
  {
  }

  /** The caller-supplied columns of an item: name, price, sku, barcode,
      initial_stock, category and mode. */
  datatype ItemFields = ItemFields(
    name: string,
    price: Cents,
    sku: Option<string>,
    barcode: Option<string>,
    initialStock: int,
    category: Option<string>,
    mode: Mode)

  /** A row of `items`. */
  datatype Item = Item(id: Id, fields: ItemFields, createdAt: Timestamp, updatedAt: Timestamp, deleted: Flag)

  /** One line of a sale's `items_json`: the cart line it was recorded from. */
  datatype SaleLine = SaleLine(itemId: Id, name: string, price: Cents, quantity: int)

  /** A row of `sales`. */
  datatype Sale = Sale(id: Id, lines: seq<SaleLine>, total: Cents, date: string, deviceId: Option<string>, createdAt: Timestamp)

  /** A row of `stock_movements`. */
  datatype StockMovement = StockMovement(
    id: Id,
    itemId: Id,
    quantity: int,
    kind: MovementType,
    notes: Option<string>,
    deviceId: Option<string>,
    createdAt: Timestamp)

  /** The JSON snapshot a queue entry carries (JSON text is modelled by the
      structured value it encodes). */
  datatype Payload =
    | ItemPayload(itemId: Id, fields: ItemFields)
    | SeedPayload(seed: ItemFields)
    | SalePayload(saleId: Id, lines: seq<SaleLine>, total: Cents, date: string, saleDevice: string)
    | MovementPayload(movementId: Id, movedItem: Id, quantity: int, kind: MovementType, notes: string, movementDevice: string)

  /** A row of `sync_queue`, the outbox.  `deviceSeq` is `None` where SQLite
      holds NULL. */
  datatype QueueEntry = QueueEntry(
    id: Id,
    op: OpType,
    table: string,
    recordId: Id,
    payload: Payload,
    deviceId: string,
    deviceSeq: Option<int>,
    createdAt: Timestamp,
    synced: bool,
    syncedAt: Option<Timestamp>)

  function ItemKey(i: Item): Id { i.id }
  function SaleKey(s: Sale): Id { s.id }
  function MovementKey(m: StockMovement): Id { m.id }
  function EntryKey(e: QueueEntry): Id { e.id }

  /** An `items` row as the core's INSERT statements create it: the given
      columns, both timestamps defaulted to now and `deleted` defaulted to 0. */
  function NewItemRow(id: Id, fields: ItemFields, now: Timestamp): (r: Item)
    ensures r.id == id && r.fields == fields && r.deleted == 0
  {
    Item(id, fields, now, now, 0)
  }
}
