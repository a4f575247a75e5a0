/**
 * The effect of each product-storage call (internal/adapters/postgresql/product.go)
 * on the tables, as a function of the tables before the call, the request and
 * the driver's behaviour; and the laws these effects obey.
 */
module ProductLedger {
  import opened Wrappers
  import opened Domain
  import opened Database
  import opened StockTotals

  /** INSERT INTO products: one statement. */
  function Create(t: Tables, p: Product, f: Fault): Step<()> {
    if Fails(f, 0) then Step(t, Err(DriverFailure))
    else if p.code in t.products then Step(t, Err(UniqueViolation))
    else Step(t.(products := t.products[p.code := ProductRow(p.name, p.size, p.quantity)]), Ok(()))
  }

  /** UPDATE warehouse_products SET available -= q, reserved += q on one row. */
  function Reserve(t: Tables, wp: WarehouseProduct, f: Fault): Step<()> {
    var key := StockKey(wp.warehouseId, wp.code);
    if Fails(f, 0) then Step(t, Err(DriverFailure))
    else if key !in t.stock then Step(t, Err(ZeroRowsAffected))
    else
      var row := t.stock[key];
      Step(t.(stock := t.stock[key := StockRow(row.available - wp.quantity, row.reserved + wp.quantity)]), Ok(()))
  }

  /** UPDATE warehouse_products SET available += q, reserved -= q on one row. */
  function CancelReservation(t: Tables, wp: WarehouseProduct, f: Fault): Step<()> {
    var key := StockKey(wp.warehouseId, wp.code);
    if Fails(f, 0) then Step(t, Err(DriverFailure))
    else if key !in t.stock then Step(t, Err(ZeroRowsAffected))
    else
      var row := t.stock[key];
      Step(t.(stock := t.stock[key := StockRow(row.available + wp.quantity, row.reserved - wp.quantity)]), Ok(()))
  }

  /** The debit of a transfer: the source row's available count goes down by `q`. */
  function Debit(stock: map<StockKey, StockRow>, key: StockKey, q: nat): map<StockKey, StockRow>
    requires key in stock
  {
    stock[key := stock[key].(available := stock[key].available - q)]
  }

  /**
   * The upsert of a transfer: a missing row is inserted with (q, 0), an existing
   * one has its available count raised by `q`.
   */
  function Credit(stock: map<StockKey, StockRow>, key: StockKey, q: nat): map<StockKey, StockRow> {
    if key in stock then stock[key := stock[key].(available := stock[key].available + q)]
    else stock[key := StockRow(q, 0)]
  }

  /**
   * A transaction of four interactions: Begin (0), SELECT of the source row (1),
   * the debit (2) and the upsert (3). A failure of the debit or the upsert
   * rolls the whole transaction back.
   */
  function Transfer(t: Tables, td: TransferProduct, f: Fault): Step<()> {
    var from := StockKey(td.warehouseFromId, td.code);
    var to := StockKey(td.warehouseToId, td.code);
    if Fails(f, 0) || Fails(f, 1) then Step(t, Err(DriverFailure))
    else if from !in t.stock then Step(t, Err(NoRows))
    else if t.stock[from].available < 0 then Step(t, Err(ScanFailure))
    else if t.stock[from].available < td.quantity then
      Step(t, Err(NotEnoughQuantity(td.quantity, td.warehouseFromId, t.stock[from].available)))
    else if Fails(f, 2) || Fails(f, 3) then Step(t, Err(DriverFailure))
    else Step(t.(stock := Credit(Debit(t.stock, from, td.quantity), to, td.quantity)), Ok(()))
  }

  /**
   * A transaction of three interactions: Begin (0), the product update (1) and
   * the stock update (2). The deferred handler rolls back only when the Go
   * variable `err` holds an error, which is the case after a failed Exec but
   * not after "affected 0 rows": a missing stock row therefore returns an error
   * and still commits the product increment.
   */
  function Add(t: Tables, ad: AddProduct, f: Fault): Step<()> {
    var key := StockKey(ad.warehouseId, ad.code);
    if Fails(f, 0) || Fails(f, 1) then Step(t, Err(DriverFailure))
    else if ad.code !in t.products then Step(t, Err(ZeroRowsAffected))
    else
      var incremented := t.(products := t.products[ad.code := t.products[ad.code].(quantity := t.products[ad.code].quantity + ad.quantity)]);
      if Fails(f, 2) then Step(t, Err(DriverFailure))
      else if key !in t.stock then Step(incremented, Err(ZeroRowsAffected))
      else Step(incremented.(stock := t.stock[key := t.stock[key].(available := t.stock[key].available + ad.quantity)]), Ok(()))
  }

  /** DELETE FROM products ... RETURNING: one statement that also yields the deleted row. */
  function Delete(t: Tables, dp: DeleteProduct, f: Fault): Step<Product> {
    if Fails(f, 0) then Step(t, Err(DriverFailure))
    else if dp.code !in t.products then Step(t, Err(NoRows))
    else
      var row := t.products[dp.code];
      Step(t.(products := t.products - {dp.code}), Ok(Product(row.name, row.size, dp.code, row.quantity)))
  }

  // ---------------------------------------------------------------------------
  // Create

  /** Create inserts exactly the given product when its code is new, and touches nothing else. */
  lemma CreateInsertsOneProduct(t: Tables, p: Product, f: Fault)
    ensures var s := Create(t, p, f);
      && (s.result.Ok? <==> !Fails(f, 0) && p.code !in t.products)
      && (s.result.Ok? ==> s.after.products == t.products[p.code := ProductRow(p.name, p.size, p.quantity)]
                           && |s.after.products| == |t.products| + 1)
      && (s.result.Err? ==> s.after == t)
      && s.after.stock == t.stock && s.after.warehouses == t.warehouses
      && s.after.nextWarehouseId == t.nextWarehouseId && (Valid(t) ==> Valid(s.after))
  {
  }

  /** Deleting a product just created hands back the product and the tables as they were. */
  lemma CreateThenDeleteRoundTrip(t: Tables, p: Product, f1: Fault, f2: Fault)
    requires Create(t, p, f1).result.Ok? && !Fails(f2, 0)
    ensures Delete(Create(t, p, f1).after, DeleteProduct(p.code), f2) == Step(t, Ok(p))
  {

  }

  // ---------------------------------------------------------------------------
  // Reserve and CancelReservation

  /** Reserve moves `q` from available to reserved on the one matching row, or fails and changes nothing. */
  lemma ReserveMovesToReserved(t: Tables, wp: WarehouseProduct, f: Fault)
    ensures var s := Reserve(t, wp, f); var key := StockKey(wp.warehouseId, wp.code);
      && (s.result.Ok? <==> !Fails(f, 0) && key in t.stock)
      && (key !in t.stock ==> s.after == t && s.result.Err?)
      && (!Fails(f, 0) && key !in t.stock ==> s.result == Err(ZeroRowsAffected))
      && (s.result.Ok? ==>
            && s.after.stock.Keys == t.stock.Keys
            && s.after.stock[key].available == t.stock[key].available - wp.quantity
            && s.after.stock[key].reserved == t.stock[key].reserved + wp.quantity
            && (forall k :: k in t.stock && k != key ==> s.after.stock[k] == t.stock[k]))
      && (s.result.Err? ==> s.after == t)
      && s.after.products == t.products && s.after.warehouses == t.warehouses
      && s.after.nextWarehouseId == t.nextWarehouseId && (Valid(t) ==> Valid(s.after))
  {
  }

  /** CancelReservation moves `q` from reserved back to available, or fails and changes nothing. */
  lemma CancelMovesToAvailable(t: Tables, wp: WarehouseProduct, f: Fault)
    ensures var s := CancelReservation(t, wp, f); var key := StockKey(wp.warehouseId, wp.code);
      && (s.result.Ok? <==> !Fails(f, 0) && key in t.stock)
      && (key !in t.stock ==> s.after == t && s.result.Err?)
      && (!Fails(f, 0) && key !in t.stock ==> s.result == Err(ZeroRowsAffected))
      && (s.result.Ok? ==>
            && s.after.stock.Keys == t.stock.Keys
            && s.after.stock[key].available == t.stock[key].available + wp.quantity
            && s.after.stock[key].reserved == t.stock[key].reserved - wp.quantity
            && (forall k :: k in t.stock && k != key ==> s.after.stock[k] == t.stock[k]))
      && (s.result.Err? ==> s.after == t)
      && s.after.products == t.products && s.after.warehouses == t.warehouses
      && s.after.nextWarehouseId == t.nextWarehouseId && (Valid(t) ==> Valid(s.after))
  {
  }

  /**
   * Across all warehouses, Reserve keeps every product's holding (available
   * plus reserved) and shifts `q` of the reserved product from available to
   * reserved when it succeeds.
   */
  lemma ReserveConservesHolding(t: Tables, wp: WarehouseProduct, f: Fault, code: string)
    ensures var s := Reserve(t, wp, f); var moved := if s.result.Ok? && code == wp.code then wp.quantity else 0;
      && Total(s.after.stock, code, Holding) == Total(t.stock, code, Holding)
      && Total(s.after.stock, code, Available) == Total(t.stock, code, Available) - moved
      && Total(s.after.stock, code, Reserved) == Total(t.stock, code, Reserved) + moved
  {
    var s := Reserve(t, wp, f);
    var key := StockKey(wp.warehouseId, wp.code);
    if s.result.Ok? {
      var row := StockRow(t.stock[key].available - wp.quantity, t.stock[key].reserved + wp.quantity);
      assert s.after.stock == t.stock[key := row];
      TotalUpdate(t.stock, key, row, code, Holding);
      TotalUpdate(t.stock, key, row, code, Available);
      TotalUpdate(t.stock, key, row, code, Reserved);
    }
  }

  /** The mirror image for CancelReservation. */
  lemma CancelConservesHolding(t: Tables, wp: WarehouseProduct, f: Fault, code: string)
    ensures var s := CancelReservation(t, wp, f); var moved := if s.result.Ok? && code == wp.code then wp.quantity else 0;
      && Total(s.after.stock, code, Holding) == Total(t.stock, code, Holding)
      && Total(s.after.stock, code, Available) == Total(t.stock, code, Available) + moved
      && Total(s.after.stock, code, Reserved) == Total(t.stock, code, Reserved) - moved
  {
    var s := CancelReservation(t, wp, f);
    var key := StockKey(wp.warehouseId, wp.code);
    if s.result.Ok? {
      var row := StockRow(t.stock[key].available + wp.quantity, t.stock[key].reserved - wp.quantity);
      assert s.after.stock == t.stock[key := row];
      TotalUpdate(t.stock, key, row, code, Holding);
      TotalUpdate(t.stock, key, row, code, Available);
      TotalUpdate(t.stock, key, row, code, Reserved);
    }
  }

  /** A successful Reserve undone by CancelReservation of the same item leaves the tables as they were. */
  lemma ReserveThenCancelRestores(t: Tables, wp: WarehouseProduct, f1: Fault, f2: Fault)
    requires Reserve(t, wp, f1).result.Ok? && !Fails(f2, 0)
    ensures CancelReservation(Reserve(t, wp, f1).after, wp, f2) == Step(t, Ok(()))
  {

  }

  /** And the other way round: a cancellation undone by a reservation. */
  lemma CancelThenReserveRestores(t: Tables, wp: WarehouseProduct, f1: Fault, f2: Fault)
    requires CancelReservation(t, wp, f1).result.Ok? && !Fails(f2, 0)
    ensures Reserve(CancelReservation(t, wp, f1).after, wp, f2) == Step(t, Ok(()))
  {

  }

  // ---------------------------------------------------------------------------
  // Transfer

  /**
   * Without a driver failure, Transfer succeeds exactly when the source row
   * exists and holds at least `q` available (equality is enough); otherwise it
   * reports why and changes nothing.
   */
  lemma TransferSucceedsIffEnough(t: Tables, td: TransferProduct, f: Fault)
    requires f == NoFault
    ensures var s := Transfer(t, td, f); var from := StockKey(td.warehouseFromId, td.code);
      && (s.result.Ok? <==> from in t.stock && t.stock[from].available >= td.quantity)
      && (from !in t.stock ==> s == Step(t, Err(NoRows)))
      && (from in t.stock && t.stock[from].available < 0 ==> s == Step(t, Err(ScanFailure)))
      && (from in t.stock && 0 <= t.stock[from].available < td.quantity ==>
            s == Step(t, Err(NotEnoughQuantity(td.quantity, td.warehouseFromId, t.stock[from].available))))
  {
  }

  /** Every failed Transfer, whatever the cause, leaves all tables unchanged. */
  lemma TransferFailsWithoutChange(t: Tables, td: TransferProduct, f: Fault)
    ensures Transfer(t, td, f).result.Err? ==> Transfer(t, td, f).after == t
  {
  }

  /**
   * A successful Transfer between two warehouses debits the source's available
   * count by `q` and credits the destination's by `q`, inserting (q, 0) when it
   * had no row; no other row, no reserved count and no product changes.
   * A transfer to the same warehouse changes nothing.
   */
  lemma TransferMovesAvailable(t: Tables, td: TransferProduct, f: Fault)
    requires Transfer(t, td, f).result.Ok?
    ensures var a := Transfer(t, td, f).after;
            var from, to := StockKey(td.warehouseFromId, td.code), StockKey(td.warehouseToId, td.code);
      && from in t.stock && t.stock[from].available >= td.quantity
      && a.stock.Keys == t.stock.Keys + {to}
      && (from != to ==>
            && a.stock[from] == t.stock[from].(available := t.stock[from].available - td.quantity)
            && a.stock[to] == (if to in t.stock then t.stock[to].(available := t.stock[to].available + td.quantity)
                               else StockRow(td.quantity, 0)))
      && (from == to ==> a.stock == t.stock)
      && (forall k :: k in t.stock && k != from && k != to ==> a.stock[k] == t.stock[k])
      && a.products == t.products && a.warehouses == t.warehouses
      && a.nextWarehouseId == t.nextWarehouseId && (Valid(t) ==> Valid(a))
  {

  }

  /**
   * Transfer conserves stock: for every product, the total available and the
   * total reserved over all warehouses are the same after the call as before.
   */
  lemma TransferConservesStock(t: Tables, td: TransferProduct, f: Fault, code: string)
    ensures var a := Transfer(t, td, f).after;
      && Total(a.stock, code, Available) == Total(t.stock, code, Available)
      && Total(a.stock, code, Reserved) == Total(t.stock, code, Reserved)
  {
    if Transfer(t, td, f).result.Ok? {
      var from, to := StockKey(td.warehouseFromId, td.code), StockKey(td.warehouseToId, td.code);
      var debited := Debit(t.stock, from, td.quantity);
      var credited := if to in debited then debited[to].(available := debited[to].available + td.quantity)
                      else StockRow(td.quantity, 0);
      assert Credit(debited, to, td.quantity) == debited[to := credited];
      TotalUpdate(t.stock, from, debited[from], code, Available);
      TotalUpdate(t.stock, from, debited[from], code, Reserved);
      TotalUpdate(debited, to, credited, code, Available);
      TotalUpdate(debited, to, credited, code, Reserved);
    }
  }

  // ---------------------------------------------------------------------------
  // Add

  /** Add succeeds exactly when no driver step fails and both the product and its stock row exist. */
  lemma AddSucceedsIff(t: Tables, ad: AddProduct, f: Fault)
    ensures Add(t, ad, f).result.Ok? <==>
      && !Fails(f, 0) && !Fails(f, 1) && !Fails(f, 2)
      && ad.code in t.products && StockKey(ad.warehouseId, ad.code) in t.stock
  {
  }

  /**
   * A successful Add raises the product's quantity and the warehouse row's
   * available count by the same `q`, and so the product's total available
   * over all warehouses by `q`; nothing else changes.
   */
  lemma AddIncrementsBoth(t: Tables, ad: AddProduct, f: Fault, code: string)
    requires Add(t, ad, f).result.Ok?
    ensures var a := Add(t, ad, f).after; var key := StockKey(ad.warehouseId, ad.code);
      && ad.code in t.products && key in t.stock
      && a.products.Keys == t.products.Keys && a.stock.Keys == t.stock.Keys
      && a.products[ad.code] == t.products[ad.code].(quantity := t.products[ad.code].quantity + ad.quantity)
      && a.stock[key] == t.stock[key].(available := t.stock[key].available + ad.quantity)
      && (forall c :: c in t.products && c != ad.code ==> a.products[c] == t.products[c])
      && (forall k :: k in t.stock && k != key ==> a.stock[k] == t.stock[k])
      && a.warehouses == t.warehouses
      && Total(a.stock, code, Available) == Total(t.stock, code, Available) + (if code == ad.code then ad.quantity else 0)
      && Total(a.stock, code, Reserved) == Total(t.stock, code, Reserved)
      && a.nextWarehouseId == t.nextWarehouseId && (Valid(t) ==> Valid(a))
  {
    var key := StockKey(ad.warehouseId, ad.code);
    var row := t.stock[key].(available := t.stock[key].available + ad.quantity);
    TotalUpdate(t.stock, key, row, code, Available);
    TotalUpdate(t.stock, key, row, code, Reserved);
  }

  /**
   * A failed Begin, or a failed Exec in either step of Add, rolls the
   * transaction back: the call fails and nothing changes, even when the
   * product increment had already been applied.
   */
  lemma AddRollsBackOnDriverFailure(t: Tables, ad: AddProduct, f: Fault)
    requires Fails(f, 0) || Fails(f, 1) || Fails(f, 2)
    ensures Add(t, ad, f).result.Err? && Add(t, ad, f).after == t
    ensures Fails(f, 0) || Fails(f, 1) || ad.code in t.products ==> Add(t, ad, f).result == Err(DriverFailure)
  {
  }

  /** An unknown product code affects 0 rows in the first step and changes nothing. */
  lemma AddUnknownProduct(t: Tables, ad: AddProduct, f: Fault)
    requires !Fails(f, 0) && !Fails(f, 1) && ad.code !in t.products
    ensures Add(t, ad, f) == Step(t, Err(ZeroRowsAffected))
  {
  }

  /**
   * A missing stock row makes Add report "affected 0 rows", yet the product's
   * quantity has gone up by `q` and stays so: the call is not all-or-nothing.
   */
  lemma AddCommitsProductOnMissingRow(t: Tables, ad: AddProduct, f: Fault)
    requires !Fails(f, 0) && !Fails(f, 1) && !Fails(f, 2)
    requires ad.code in t.products && StockKey(ad.warehouseId, ad.code) !in t.stock
    ensures var s := Add(t, ad, f);
      && s.result == Err(ZeroRowsAffected)
      && s.after.products == t.products[ad.code := t.products[ad.code].(quantity := t.products[ad.code].quantity + ad.quantity)]
      && s.after.stock == t.stock
      && (ad.quantity > 0 ==> s.after != t)
  {
  }

  // ---------------------------------------------------------------------------
  // Delete

  /**
   * Delete removes the product row and returns its contents as they were
   * before; an unknown code returns an error and no product. Stock rows are
   * never touched, even those of the deleted code.
   */
  lemma DeleteReturnsSnapshot(t: Tables, dp: DeleteProduct, f: Fault)
    ensures var s := Delete(t, dp, f);
      && (s.result.Ok? <==> !Fails(f, 0) && dp.code in t.products)
      && (s.result.Ok? ==>
            var p := s.result.value;
            && p.code == dp.code
            && t.products[dp.code] == ProductRow(p.name, p.size, p.quantity)
            && s.after.products == t.products - {dp.code}
            && |s.after.products| == |t.products| - 1)
      && (!Fails(f, 0) && dp.code !in t.products ==> s == Step(t, Err(NoRows)))
      && (s.result.Err? ==> s.after == t)
      && s.after.stock == t.stock && s.after.warehouses == t.warehouses
      && s.after.nextWarehouseId == t.nextWarehouseId && (Valid(t) ==> Valid(s.after))
  {
  }
}
