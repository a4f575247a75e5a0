/**
 * The warehouse storage of internal/adapters/postgresql/warehouse.go: Create
 * inserts into `warehouses`; GetLeftOvers only reads, walking the rows of the
 * leftovers query one by one and appending each to the result.
 */
module WarehouseStore {
  import opened Wrappers
  import opened Domain
  import opened Database
  import opened WarehouseLedger

  /**
   * The loop of GetLeftOvers has looked at the stock rows `done` and collected
   * `products`: one record per listed row among them, each once.
   */
  ghost predicate Collected(t: Tables, wid: int, done: set<StockKey>, products: seq<Product>) {
    && (set p | p in products) == ImageOf(t, wid, done)
    && |products| == |ListedIn(t, wid, done)|
    && Distinct(products)
    && (forall p :: p in products ==> StockKey(wid, p.code) in done)
  }

  /**
   * The state of the row loop of GetLeftOvers: the rows `done` have been looked
   * at, `products` collected from them, and no Scan so far has failed.
   */
  ghost predicate Scanning(t: Tables, wid: int, f: Fault, done: set<StockKey>, products: seq<Product>) {
    && done <= t.stock.Keys
    && Collected(t, wid, done, products)
    && !(f.FailAt? && 1 <= f.step <= |products|)
  }

  /** Scanning a listed row without failure appends its record. */
  lemma ScanListed(t: Tables, wid: int, f: Fault, done: set<StockKey>, products: seq<Product>, k: StockKey)
    requires Scanning(t, wid, f, done, products) && k !in done && Listed(t, wid, k) && !Fails(f, |products| + 1)
    ensures Scanning(t, wid, f, done + {k}, products + [Listing(t, k)])
  {
    ListedStep(t, wid, done, k);
    var product := Listing(t, k);
    assert (set p | p in products + [product]) == (set p | p in products) + {product};
    assert product !in products;
  }

  /** A row the query does not list yields nothing. */
  lemma ScanUnlisted(t: Tables, wid: int, f: Fault, done: set<StockKey>, products: seq<Product>, k: StockKey)
    requires Scanning(t, wid, f, done, products) && k in t.stock && !Listed(t, wid, k)
    ensures Scanning(t, wid, f, done + {k}, products)
  {
    ListedStep(t, wid, done, k);
  }

  /** A row about to be scanned is one of the listed rows, so its position is within their number. */
  lemma ScanWithinListed(t: Tables, wid: int, f: Fault, done: set<StockKey>, products: seq<Product>, k: StockKey)
    requires Scanning(t, wid, f, done, products) && k !in done && Listed(t, wid, k)
    ensures |products| + 1 <= |ListedKeys(t, wid)|
  {
    ListedStep(t, wid, done, k);
    ListedInBound(t, wid, done + {k});
  }

  /** Once every row has been looked at, every listed row was collected and no Scan failed. */
  lemma ScanFinished(t: Tables, wid: int, f: Fault, products: seq<Product>)
    requires Scanning(t, wid, f, t.stock.Keys, products)
    ensures Collected(t, wid, t.stock.Keys, products)
    ensures !(f.FailAt? && 1 <= f.step <= |ListedKeys(t, wid)|)
  {
  }

  lemma CollectedAll(t: Tables, wid: int, products: seq<Product>)
    requires Collected(t, wid, t.stock.Keys, products)
    ensures Distinct(products) && |products| == |ListedKeys(t, wid)|
    ensures forall p :: p in products <==> p in LeftOvers(t, wid)
  {

  }

  class WarehouseStorage {
    const db: Db

    constructor (db: Db)
      ensures this.db == db
    {
      this.db := db;
    }

    method Create(w: Warehouse, f: Fault) returns (r: Result<(), Error>)
      modifies db
      ensures Step(db.State(), r) == WarehouseLedger.Create(old(db.State()), w, f)
    {
      // INSERT INTO warehouses (name, availability)
      if Fails(f, 0) {
        return Err(DriverFailure);
      }
      db.warehouses := db.warehouses[db.nextWarehouseId := WarehouseRow(w.name, w.availability)];
      db.nextWarehouseId := db.nextWarehouseId + 1;
      return Ok(());
    }

    /**
     * Interaction 0 is the query, interaction i >= 1 the Scan of the i-th row.
     * The rows come in no particular order; the result holds each listed row
     * once, a failed Scan discards what was collected, and an empty result is
     * reported as sql.ErrNoRows.
     */
    method GetLeftOvers(gw: GetFromWarehouse, f: Fault) returns (r: Result<seq<Product>, Error>)
      ensures var n := |ListedKeys(db.State(), gw.warehouseId)|;
        && (r.Ok? <==> n > 0 && !(f.FailAt? && f.step <= n))
        && (Fails(f, 0) ==> r == Err(DriverFailure))
        && (f.FailAt? && 1 <= f.step <= n ==> r == Err(ScanFailure))
        && (n == 0 && !Fails(f, 0) ==> r == Err(NoRows))
        && (r.Ok? ==>
              && Distinct(r.value)
              && |r.value| == n
              && (forall p :: p in r.value <==> p in LeftOvers(db.State(), gw.warehouseId)))
    {
      var t := db.State();
      if Fails(f, 0) {
        return Err(DriverFailure);
      }
      var products, scanFailed := ScanRows(t, gw.warehouseId, f);
      if scanFailed {
        return Err(ScanFailure);
      }
      CollectedAll(t, gw.warehouseId, products);
      if |products| == 0 {
        return Err(NoRows);
      }
      return Ok(products);
    }

    /**
     * The `for rows.Next()` loop: Scan each row of the query result and append
     * it, stopping at the first Scan the driver fails.
     */
    method ScanRows(t: Tables, wid: int, f: Fault) returns (products: seq<Product>, scanFailed: bool)
      ensures scanFailed <==> f.FailAt? && 1 <= f.step <= |ListedKeys(t, wid)|
      ensures !scanFailed ==> Collected(t, wid, t.stock.Keys, products)
    {
      products, scanFailed := [], false;
      var pending := t.stock.Keys;
      ghost var done: set<StockKey> := {};
      while pending != {}
        invariant pending <= t.stock.Keys && done == t.stock.Keys - pending
        invariant Scanning(t, wid, f, done, products)
        decreases |pending|
      {
        var k :| k in pending;
        if Listed(t, wid, k) {
          if Fails(f, |products| + 1) {
            ScanWithinListed(t, wid, f, done, products, k);
            return products, true;
          }
          ScanListed(t, wid, f, done, products, k);
          products := products + [Listing(t, k)];
        } else {
          ScanUnlisted(t, wid, f, done, products, k);
        }
        pending, done := pending - {k}, done + {k};
      }
      assert done == t.stock.Keys;
      ScanFinished(t, wid, f, products);
    }
  }
}
