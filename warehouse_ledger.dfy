/**
 * The warehouse storage calls of internal/adapters/postgresql/warehouse.go as
 * functions of the tables: the insert of a warehouse, and the leftovers query
 * that joins `warehouse_products` with `products` and `warehouses`.
 */
module WarehouseLedger {
  import opened Wrappers
  import opened Domain
  import opened Database

  /** INSERT INTO warehouses: the row receives the next id of the sequence. */
  function Create(t: Tables, w: Warehouse, f: Fault): Step<()> {
    if Fails(f, 0) then Step(t, Err(DriverFailure))
    else
      Step(t.(warehouses := t.warehouses[t.nextWarehouseId := WarehouseRow(w.name, w.availability)],
              nextWarehouseId := t.nextWarehouseId + 1),
           Ok(()))
  }

  /**
   * The WHERE clause and both inner joins of the leftovers query: the stock row
   * belongs to warehouse `wid`, has something available, its product exists,
   * and its warehouse exists and is available.
   */
  predicate Listed(t: Tables, wid: int, k: StockKey) {
    && k in t.stock
    && k.warehouseId == wid
    && t.stock[k].available > 0
    && k.code in t.products
    && wid in t.warehouses
    && t.warehouses[wid].availability
  }

  /** The record a listed row yields: the product's name, size and code, with the row's available count. */
  function Listing(t: Tables, k: StockKey): Product
    requires k in t.stock && k.code in t.products && t.stock[k].available > 0
  {
    var p := t.products[k.code];
    Product(p.name, p.size, k.code, t.stock[k].available)
  }

  /** The stock rows among `keys` that the query returns. */
  ghost function ListedIn(t: Tables, wid: int, keys: set<StockKey>): set<StockKey> {
    set k | k in keys && Listed(t, wid, k)
  }

  /** The stock rows the query returns. */
  ghost function ListedKeys(t: Tables, wid: int): set<StockKey> {
    ListedIn(t, wid, t.stock.Keys)
  }

  /** The records the query returns; without ORDER BY, only the set of them is determined. */
  ghost function LeftOvers(t: Tables, wid: int): set<Product> {
    set k | k in t.stock && Listed(t, wid, k) :: Listing(t, k)
  }

  /** Every new warehouse gets an id no warehouse had, and nothing but `warehouses` and the sequence changes. */
  lemma CreateInsertsFreshWarehouse(t: Tables, w: Warehouse, f: Fault)
    requires Valid(t)
    ensures var s := Create(t, w, f);
      && Valid(s.after)
      && (s.result.Ok? <==> !Fails(f, 0))
      && (s.result.Ok? ==>
            && t.nextWarehouseId !in t.warehouses
            && s.after.warehouses == t.warehouses[t.nextWarehouseId := WarehouseRow(w.name, w.availability)]
            && |s.after.warehouses| == |t.warehouses| + 1)
      && (s.result.Err? ==> s.after == t)
      && s.after.products == t.products && s.after.stock == t.stock
  {
  }

  /**
   * What the leftovers of warehouse `wid` are: one record per stock row of that
   * warehouse with available > 0 whose product and warehouse exist and whose
   * warehouse is available; its quantity is the row's available count, not the
   * product's total.
   */
  lemma LeftOversMembership(t: Tables, wid: int, p: Product)
    ensures p in LeftOvers(t, wid) <==>
      var key := StockKey(wid, p.code);
      && key in t.stock && t.stock[key].available > 0 && p.quantity == t.stock[key].available
      && p.code in t.products && p.name == t.products[p.code].name && p.size == t.products[p.code].size
      && wid in t.warehouses && t.warehouses[wid].availability
  {

  }

  /** Distinct listed rows yield distinct records, so there are as many records as rows. */
  lemma LeftOversCount(t: Tables, wid: int)
    ensures |LeftOvers(t, wid)| == |ListedKeys(t, wid)|
  {
    var keys := ListedKeys(t, wid);
    LeftOversImage(t, wid, keys);
  }

  predicate Distinct<T(==)>(s: seq<T>) {
    forall i, j :: 0 <= i < j < |s| ==> s[i] != s[j]
  }

  /** The records that the listed rows among `keys` yield. */
  ghost function ImageOf(t: Tables, wid: int, keys: set<StockKey>): set<Product> {
    set k | k in keys && Listed(t, wid, k) :: Listing(t, k)
  }

  lemma {:induction false} LeftOversImage(t: Tables, wid: int, keys: set<StockKey>)
    requires keys <= ListedKeys(t, wid)
    ensures |ImageOf(t, wid, keys)| == |keys|
    ensures keys == ListedKeys(t, wid) ==> ImageOf(t, wid, keys) == LeftOvers(t, wid)
    decreases keys
  {
    if keys != {} {
      var k :| k in keys;
      LeftOversImage(t, wid, keys - {k});
      assert ImageOf(t, wid, keys) == ImageOf(t, wid, keys - {k}) + {Listing(t, k)};
      assert Listing(t, k) !in ImageOf(t, wid, keys - {k});
    } else {
      assert ImageOf(t, wid, keys) == {};
    }
  }

  /** Looking at one more stock row adds it, and its record, exactly when the query lists it. */
  lemma ListedStep(t: Tables, wid: int, done: set<StockKey>, k: StockKey)
    requires k in t.stock
    ensures ListedIn(t, wid, done + {k}) == ListedIn(t, wid, done) + (if Listed(t, wid, k) then {k} else {})
    ensures ImageOf(t, wid, done + {k}) == ImageOf(t, wid, done) + (if Listed(t, wid, k) then {Listing(t, k)} else {})
  {
  }

  /** The rows listed among a subset of the keys are no more than all listed rows. */
  lemma ListedInBound(t: Tables, wid: int, keys: set<StockKey>)
    requires keys <= t.stock.Keys
    ensures |ListedIn(t, wid, keys)| <= |ListedKeys(t, wid)|
  {
    var part, all := ListedIn(t, wid, keys), ListedKeys(t, wid);
    assert all == part + (all - part);
  }
}
