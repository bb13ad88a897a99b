/** The cart of the quick-sale screen (src/screens/QuickSaleScreen.js) and
    the checkout that turns it into a recorded sale.  A cart line is the
    sale line it will be recorded as.
 */
module QuickSale {
  import opened Common
  import opened Tables
  import opened Schema
  import opened Device
  import opened Database
  import opened Stock

  function LineKey(l: SaleLine): Id { l.itemId }

  /** The cart's invariant: one line per item, every quantity at least 1. */
  predicate WellFormed(cart: seq<SaleLine>) {
    UniqueKeys(cart, LineKey) && forall i :: 0 <= i < |cart| ==> cart[i].quantity >= 1
  }

  /** Every line of `itemId` gets quantity `f(quantity)`; other lines are kept. */
  function WithQuantity(cart: seq<SaleLine>, itemId: Id, f: int -> int): (r: seq<SaleLine>)
    ensures |r| == |cart|
    ensures forall i :: 0 <= i < |cart| ==>
              r[i] == if cart[i].itemId == itemId then cart[i].(quantity := f(cart[i].quantity)) else cart[i]
  {
    if |cart| == 0 then []
    else
      var head := if cart[0].itemId == itemId then cart[0].(quantity := f(cart[0].quantity)) else cart[0];
      [head] + WithQuantity(cart[1..], itemId, f)
  }

  /** `addToCart`: one more of an item already in the cart, else a new line
      of quantity 1 copying the item's name and price. */
  function AddToCart(cart: seq<SaleLine>, item: Item): seq<SaleLine> {
    if item.id in Keys(cart, LineKey) then WithQuantity(cart, item.id, Inc)
    else cart + [SaleLine(item.id, item.fields.name, item.fields.price, 1)]
  }

  function Inc(q: int): int {
    q + 1
  }

  function Max(a: int, b: int): int {
    if a < b then b else a
  }

  /** `updateQuantity`: the item's line moves by `delta` but never below 1. */
  function UpdateQuantity(cart: seq<SaleLine>, itemId: Id, delta: int): seq<SaleLine> {
    WithQuantity(cart, itemId, q => Max(1, q + delta))
  }

  /** `removeFromCart`: the lines of every other item, in their order. */
  function RemoveFromCart(cart: seq<SaleLine>, itemId: Id): (r: seq<SaleLine>)
    ensures forall l :: l in r <==> l in cart && l.itemId != itemId
    ensures Keys(r, LineKey) == Keys(cart, LineKey) - {itemId}
  {
    if |cart| == 0 then []
    else
      var rest := RemoveFromCart(cart[1..], itemId);
      assert forall l :: l in cart <==> l == cart[0] || l in cart[1..];
      KeysCons(cart[0], cart[1..], LineKey);
      KeysCons(cart[0], rest, LineKey);
      assert cart == [cart[0]] + cart[1..];
      if cart[0].itemId == itemId then rest else [cart[0]] + rest
  }

  /** `calculateTotal`: the sum of price times quantity over the lines. */
  function CalculateTotal(cart: seq<SaleLine>): Cents {
    if |cart| == 0 then 0 else cart[0].price * cart[0].quantity + CalculateTotal(cart[1..])
  }

  lemma {:induction false} TotalConcat(a: seq<SaleLine>, b: seq<SaleLine>)
    ensures CalculateTotal(a + b) == CalculateTotal(a) + CalculateTotal(b)
  {
    if |a| > 0 {
      assert (a + b)[1..] == a[1..] + b;
      TotalConcat(a[1..], b);
    } else {
      assert a + b == b;
    }
  }

  /** Removal keeps the relative order of the remaining lines: it is a
      filter, distributing over concatenation and acting line by line. */
  lemma {:induction false} RemoveFromCartConcat(a: seq<SaleLine>, b: seq<SaleLine>, itemId: Id)
    ensures RemoveFromCart(a + b, itemId) == RemoveFromCart(a, itemId) + RemoveFromCart(b, itemId)
    ensures |a| == 1 ==> RemoveFromCart(a, itemId) == if a[0].itemId == itemId then [] else a
  {
    if |a| > 0 {
      assert (a + b)[1..] == a[1..] + b;
      assert (a + b)[0] == a[0];
      RemoveFromCartConcat(a[1..], b, itemId);
      if |a| == 1 {
        assert a[1..] == [];
      }
    } else {
      assert a + b == b;
    }
  }

  /** In a well-formed cart, changing the quantity of one item's line
      changes the total by that line's price times the change. */
  lemma {:induction false} TotalWithQuantity(cart: seq<SaleLine>, itemId: Id, f: int -> int)
    requires UniqueKeys(cart, LineKey)
    ensures var l := Find(cart, LineKey, itemId);
            CalculateTotal(WithQuantity(cart, itemId, f))
            == CalculateTotal(cart) + (if l.Some? then l.value.price * f(l.value.quantity) - l.value.price * l.value.quantity else 0)
  {
    if |cart| > 0 {
      UniqueKeysTail(cart, LineKey);
      var tail := cart[1..];
      TotalWithQuantity(tail, itemId, f);
      var r := WithQuantity(cart, itemId, f);
      var t := WithQuantity(tail, itemId, f);
      assert r == [r[0]] + t;
      assert r[1..] == t;
      assert CalculateTotal(r) == r[0].price * r[0].quantity + CalculateTotal(t);
      if cart[0].itemId == itemId {
        assert Find(tail, LineKey, itemId).None?;
        assert t == tail by {
          WithQuantityUnlisted(tail, itemId, f);
        }
      }
    }
  }

  lemma WithQuantityUnlisted(cart: seq<SaleLine>, itemId: Id, f: int -> int)
    requires itemId !in Keys(cart, LineKey)
    ensures WithQuantity(cart, itemId, f) == cart
  {
    forall i | 0 <= i < |cart| ensures cart[i].itemId != itemId {
      assert LineKey(cart[i]) in Keys(cart, LineKey);
    }
  }

  lemma {:induction false} TotalWithout(cart: seq<SaleLine>, itemId: Id)
    requires UniqueKeys(cart, LineKey)
    ensures var l := Find(cart, LineKey, itemId);
            CalculateTotal(RemoveFromCart(cart, itemId))
            == CalculateTotal(cart) - (if l.Some? then l.value.price * l.value.quantity else 0)
  {
    if |cart| > 0 {
      UniqueKeysTail(cart, LineKey);
      TotalWithout(cart[1..], itemId);
      if cart[0].itemId == itemId {
        assert Find(cart[1..], LineKey, itemId).None?;
        assert RemoveFromCart(cart[1..], itemId) == cart[1..] by {
          RemoveUnlisted(cart[1..], itemId);
        }
      }
    }
  }

  lemma {:induction false} RemoveUnlisted(cart: seq<SaleLine>, itemId: Id)
    requires itemId !in Keys(cart, LineKey)
    ensures RemoveFromCart(cart, itemId) == cart
  {
    if |cart| > 0 {
      KeysCons(cart[0], cart[1..], LineKey);
      assert cart == [cart[0]] + cart[1..];
      RemoveUnlisted(cart[1..], itemId);
    }
  }

  /** Adding an item already in the cart raises only its line's quantity, by
      one; adding a new item appends a line of quantity 1 with the item's name
      and price.  Either way the cart stays well formed and the total grows
      by one unit of the line's price. */
  lemma AddToCartSpec(cart: seq<SaleLine>, item: Item)
    requires WellFormed(cart)
    ensures var r := AddToCart(cart, item);
            && WellFormed(r)
            && (item.id in Keys(cart, LineKey) ==>
                  && |r| == |cart|
                  && forall i :: 0 <= i < |cart| ==>
                       r[i] == if cart[i].itemId == item.id then cart[i].(quantity := cart[i].quantity + 1) else cart[i])
            && (item.id !in Keys(cart, LineKey) ==>
                  r == cart + [SaleLine(item.id, item.fields.name, item.fields.price, 1)])
            && CalculateTotal(r) == CalculateTotal(cart) +
                 (if item.id in Keys(cart, LineKey) then Find(cart, LineKey, item.id).value.price else item.fields.price)
  {
    if item.id in Keys(cart, LineKey) {
      AddExisting(cart, item.id);
    } else {
      AddNew(cart, SaleLine(item.id, item.fields.name, item.fields.price, 1));
    }
  }

  lemma AddExisting(cart: seq<SaleLine>, itemId: Id)
    requires WellFormed(cart) && itemId in Keys(cart, LineKey)
    ensures var r := WithQuantity(cart, itemId, Inc);
            && WellFormed(r)
            && CalculateTotal(r) == CalculateTotal(cart) + Find(cart, LineKey, itemId).value.price
  {
    TotalWithQuantity(cart, itemId, Inc);
    OneMoreUnit(Find(cart, LineKey, itemId).value);
    RaisedWellFormed(cart, itemId);
  }

  /** One more unit on a line adds the line's price to its subtotal. */
  lemma OneMoreUnit(l: SaleLine)
    ensures l.price * Inc(l.quantity) == l.price * l.quantity + l.price
  {
  }

  lemma RaisedWellFormed(cart: seq<SaleLine>, itemId: Id)
    requires WellFormed(cart)
    ensures WellFormed(WithQuantity(cart, itemId, Inc))
  {
    var r := WithQuantity(cart, itemId, Inc);
    SameKeys(cart, r);
    forall i | 0 <= i < |r| ensures r[i].quantity >= 1 {
      assert r[i].quantity == cart[i].quantity || r[i].quantity == Inc(cart[i].quantity);
    }
  }

  lemma AddNew(cart: seq<SaleLine>, line: SaleLine)
    requires WellFormed(cart) && line.itemId !in Keys(cart, LineKey) && line.quantity == 1
    ensures WellFormed(cart + [line])
    ensures CalculateTotal(cart + [line]) == CalculateTotal(cart) + line.price
  {
    UniqueKeysAppend(cart, line, LineKey);
    TotalConcat(cart, [line]);
    assert CalculateTotal([line]) == line.price * 1 + CalculateTotal([]);
    var r := cart + [line];
    forall i | 0 <= i < |r| ensures r[i].quantity >= 1 {
      if i < |cart| {
        assert r[i] == cart[i];
      }
    }
  }

  /** Lines that differ at most in quantity have the same item ids. */
  lemma SameKeys(a: seq<SaleLine>, b: seq<SaleLine>)
    requires |a| == |b| && forall i :: 0 <= i < |a| ==> a[i].itemId == b[i].itemId
    ensures UniqueKeys(a, LineKey) ==> UniqueKeys(b, LineKey)
    ensures Keys(a, LineKey) == Keys(b, LineKey)
  {
    assert forall i :: 0 <= i < |a| ==> LineKey(a[i]) == LineKey(b[i]);
  }

  /** `updateQuantity` sets the item's line to max(1, q + delta), leaves every
      other line alone, and keeps the cart well formed, even for a cart line
      that reached 1 and a negative `delta`. */
  lemma UpdateQuantitySpec(cart: seq<SaleLine>, itemId: Id, delta: int)
    requires WellFormed(cart)
    ensures var r := UpdateQuantity(cart, itemId, delta);
            && WellFormed(r)
            && |r| == |cart|
            && (forall i :: 0 <= i < |cart| ==>
                  r[i] == if cart[i].itemId == itemId then cart[i].(quantity := Max(1, cart[i].quantity + delta)) else cart[i])
            && (forall i :: 0 <= i < |cart| && cart[i].itemId == itemId ==> r[i].quantity >= 1 && r[i].quantity >= cart[i].quantity + delta)
  {
    var r := UpdateQuantity(cart, itemId, delta);
    SameKeys(cart, r);
    forall i | 0 <= i < |r| ensures r[i].quantity >= 1 {
      if cart[i].itemId == itemId {
        assert r[i].quantity == Max(1, cart[i].quantity + delta);
      }
    }
  }

  /** Removal keeps the cart well formed, drops the item, and lowers the
      total by that line's subtotal. */
  lemma RemoveFromCartSpec(cart: seq<SaleLine>, itemId: Id)
    requires WellFormed(cart)
    ensures var r := RemoveFromCart(cart, itemId);
            && WellFormed(r)
            && itemId !in Keys(r, LineKey)
            && CalculateTotal(r) == CalculateTotal(cart) -
                 (if itemId in Keys(cart, LineKey) then Find(cart, LineKey, itemId).value.price * Find(cart, LineKey, itemId).value.quantity else 0)
  {
    RemoveKeepsWellFormed(cart, itemId);
    TotalWithout(cart, itemId);
  }

  lemma {:induction false} RemoveKeepsWellFormed(cart: seq<SaleLine>, itemId: Id)
    requires WellFormed(cart)
    ensures WellFormed(RemoveFromCart(cart, itemId))
  {
    if |cart| > 0 {
      UniqueKeysTail(cart, LineKey);
      RemoveKeepsWellFormed(cart[1..], itemId);
      var rest := RemoveFromCart(cart[1..], itemId);
      if cart[0].itemId != itemId {
        UniqueKeysCons(cart[0], rest, LineKey);
        var r := [cart[0]] + rest;
        assert forall i :: 0 <= i < |r| ==> r[i].quantity >= 1 by {
          forall i | 0 <= i < |r| ensures r[i].quantity >= 1 {
            if i > 0 {
              assert r[i] == rest[i - 1];
            }
          }
        }
      }
    }
  }

  /** The position of the first element satisfying `p`, if any. */
  function FirstIndex<T>(s: seq<T>, p: T -> bool): (r: Option<nat>)
    ensures r.None? <==> forall i :: 0 <= i < |s| ==> !p(s[i])
    ensures r.Some? ==> r.value < |s| && p(s[r.value]) && forall j :: 0 <= j < r.value ==> !p(s[j])
  {
    if |s| == 0 then None
    else if p(s[0]) then Some(0)
    else
      match FirstIndex(s[1..], p)
      case None => None
      case Some(i) => Some(i + 1)
  }

  /** The first cart line, in cart order, whose quantity exceeds its item's
      derived stock, with that stock. */
  function FirstShort(db: Db, cart: seq<SaleLine>): (r: Option<(SaleLine, int)>)
    ensures r.None? <==> forall i :: 0 <= i < |cart| ==> ComputeStock(db, cart[i].itemId) >= cart[i].quantity
    ensures r.Some? ==> r.value.0 in cart && r.value.1 == ComputeStock(db, r.value.0.itemId) < r.value.0.quantity
    ensures r.Some? ==> exists i :: 0 <= i < |cart| && cart[i] == r.value.0 &&
                          forall j :: 0 <= j < i ==> ComputeStock(db, cart[j].itemId) >= cart[j].quantity
  {
    var short := (l: SaleLine) => ComputeStock(db, l.itemId) < l.quantity;
    match FirstIndex(cart, short)
    case None => None
    case Some(i) => Some((cart[i], ComputeStock(db, cart[i].itemId)))
  }

  /** How a checkout ended. */
  datatype Outcome =
    | EmptyCart                          // alert, nothing written
    | LowStockWarning(line: SaleLine, stock: int)  // confirmation asked, nothing written yet
    | Recorded(saleId: Id)               // sale and its outbox entry written, cart emptied
    | Failed(msg: string)                // a write threw; the cart is kept

  /** The screen state a checkout changes: database, cart and outcome. */
  datatype Checkout = Checkout(db: Db, cart: seq<SaleLine>, outcome: Outcome)

  /** `finalizeSale`: records the cart with its total, then empties the
      cart; a throw from `recordSale` leaves the cart as it was. */
  function FinalizeSale(db: Db, cart: seq<SaleLine>, saleId: Id, entryId: Id,
                        iso: Timestamp, now: Timestamp, persistOk: bool): (r: Checkout)
    ensures r.outcome.Recorded? ==> r.cart == [] && r.outcome.saleId == saleId
    ensures !r.outcome.Recorded? ==> r.cart == cart && r.outcome.Failed?
    ensures r.db == RecordSale(db, saleId, entryId, cart, CalculateTotal(cart), iso, now, persistOk).state
    ensures r.outcome.Recorded? <==>
              saleId !in Keys(db.sales, SaleKey) && persistOk && entryId !in Keys(db.queue, EntryKey)
  {
    var total := CalculateTotal(cart);
    var w := RecordSale(db, saleId, entryId, cart, total, iso, now, persistOk);
    match w.result
    case Ok(id) => Checkout(w.state, [], Recorded(id))
    case Err(e) => Checkout(w.state, cart, Failed(e))
  }

  /** `completeSale` on the screen opened in `mode`: an empty cart is refused;
      in spaza mode the first line short of stock asks for confirmation
      instead of finalising; otherwise the sale is finalised. */
  function CompleteSale(db: Db, mode: Mode, cart: seq<SaleLine>, saleId: Id, entryId: Id,
                        iso: Timestamp, now: Timestamp, persistOk: bool): (r: Checkout)
    ensures |cart| == 0 <==> r == Checkout(db, cart, EmptyCart)
    ensures r.outcome.LowStockWarning? <==> |cart| > 0 && mode == Spaza && FirstShort(db, cart).Some?
    ensures r.outcome.LowStockWarning? ==> r.db == db && r.cart == cart
    ensures r.outcome.LowStockWarning? ==> (r.outcome.line, r.outcome.stock) == FirstShort(db, cart).value
    ensures |cart| > 0 && !(mode == Spaza && FirstShort(db, cart).Some?) ==>
              r == FinalizeSale(db, cart, saleId, entryId, iso, now, persistOk)
  {
    if |cart| == 0 then Checkout(db, cart, EmptyCart)
    else if mode == Spaza && FirstShort(db, cart).Some? then
      var (line, stock) := FirstShort(db, cart).value;
      Checkout(db, cart, LowStockWarning(line, stock))
    else FinalizeSale(db, cart, saleId, entryId, iso, now, persistOk)
  }

  /** A finalised sale is recorded with exactly the cart's lines and total. */
  lemma FinalizeRecordsCart(db: Db, cart: seq<SaleLine>, saleId: Id, entryId: Id,
                            iso: Timestamp, now: Timestamp, persistOk: bool)
    requires saleId !in Keys(db.sales, SaleKey)
    ensures var r := FinalizeSale(db, cart, saleId, entryId, iso, now, persistOk);
            |r.db.sales| == |db.sales| + 1 && r.db.sales[|db.sales|].id == saleId
            && r.db.sales[|db.sales|].lines == cart && r.db.sales[|db.sales|].total == CalculateTotal(cart)
  {
  }
}
