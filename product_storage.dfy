/**
 * The product storage of internal/adapters/postgresql/product.go: each method
 * changes the tables of the shared `Db` step by step, statement by statement,
 * and is proved to have the net effect that `ProductLedger` gives it.
 */
module ProductStore {
  import opened Wrappers
  import opened Domain
  import opened Database
  import ProductLedger

  class ProductStorage {
    const db: Db

    constructor (db: Db)
      ensures this.db == db
    {
      this.db := db;
    }

    method Create(p: Product, f: Fault) returns (r: Result<(), Error>)
      modifies db
      ensures Step(db.State(), r) == ProductLedger.Create(old(db.State()), p, f)
    {
      // INSERT INTO products (name, size, code, quantity)
      if Fails(f, 0) {
        return Err(DriverFailure);
      }
      if p.code in db.products {
        return Err(UniqueViolation);
      }
      db.products := db.products[p.code := ProductRow(p.name, p.size, p.quantity)];
      return Ok(());
    }

    method Reserve(wp: WarehouseProduct, f: Fault) returns (r: Result<(), Error>)
      modifies db
      ensures Step(db.State(), r) == ProductLedger.Reserve(old(db.State()), wp, f)
    {
      var key := StockKey(wp.warehouseId, wp.code);
      if Fails(f, 0) {
        return Err(DriverFailure);
      }
      if key !in db.stock {
        return Err(ZeroRowsAffected);
      }
      var row := db.stock[key];
      db.stock := db.stock[key := StockRow(row.available - wp.quantity, row.reserved + wp.quantity)];
      return Ok(());
    }

    method CancelReservation(wp: WarehouseProduct, f: Fault) returns (r: Result<(), Error>)
      modifies db
      ensures Step(db.State(), r) == ProductLedger.CancelReservation(old(db.State()), wp, f)
    {
      var key := StockKey(wp.warehouseId, wp.code);
      if Fails(f, 0) {
        return Err(DriverFailure);
      }
      if key !in db.stock {
        return Err(ZeroRowsAffected);
      }
      var row := db.stock[key];
      db.stock := db.stock[key := StockRow(row.available + wp.quantity, row.reserved - wp.quantity)];
      return Ok(());
    }

    /**
     * One transaction: the tables as they were at Begin are kept, and the
     * deferred handler's rollback puts them back when a later statement fails.
     */
    method Transfer(td: TransferProduct, f: Fault) returns (r: Result<(), Error>)
      modifies db
      ensures Step(db.State(), r) == ProductLedger.Transfer(old(db.State()), td, f)
    {
      if Fails(f, 0) {
        return Err(DriverFailure);  // db.Begin()
      }
      var begin := db.State();
      var from := StockKey(td.warehouseFromId, td.code);
      var to := StockKey(td.warehouseToId, td.code);
      // SELECT available_quantity ... Scan(&quantity)
      if Fails(f, 1) {
        db.Rollback(begin);
        return Err(DriverFailure);
      }
      if from !in db.stock {
        db.Rollback(begin);
        return Err(NoRows);
      }
      if db.stock[from].available < 0 {
        db.Rollback(begin);
        return Err(ScanFailure);
      }
      var quantity: nat := db.stock[from].available;
      if quantity < td.quantity {
        // the returned error is not stored in `err`, so the transaction commits, having changed nothing
        return Err(NotEnoughQuantity(td.quantity, td.warehouseFromId, quantity));
      }
      // UPDATE warehouse_products SET available_quantity = available_quantity - q
      if Fails(f, 2) {
        db.Rollback(begin);
        return Err(DriverFailure);
      }
      db.stock := db.stock[from := db.stock[from].(available := db.stock[from].available - td.quantity)];
      // INSERT ... ON CONFLICT DO UPDATE SET available_quantity = available_quantity + q
      if Fails(f, 3) {
        db.Rollback(begin);
        return Err(DriverFailure);
      }
      if to in db.stock {
        db.stock := db.stock[to := db.stock[to].(available := db.stock[to].available + td.quantity)];
      } else {
        db.stock := db.stock[to := StockRow(td.quantity, 0)];
      }
      return Ok(());
    }

    /**
     * One transaction whose deferred handler rolls back only when `err` is
     * set; the "affected 0 rows" returns leave `err` nil and so commit.
     */
    method Add(ad: AddProduct, f: Fault) returns (r: Result<(), Error>)
      modifies db
      ensures Step(db.State(), r) == ProductLedger.Add(old(db.State()), ad, f)
    {
      if Fails(f, 0) {
        return Err(DriverFailure);  // db.Begin()
      }
      var begin := db.State();
      // UPDATE products SET quantity = quantity + q
      if Fails(f, 1) {
        db.Rollback(begin);
        return Err(DriverFailure);
      }
      if ad.code !in db.products {
        return Err(ZeroRowsAffected);  // commits: nothing was changed
      }
      db.products := db.products[ad.code := db.products[ad.code].(quantity := db.products[ad.code].quantity + ad.quantity)];
      // UPDATE warehouse_products SET available_quantity = available_quantity + q
      var key := StockKey(ad.warehouseId, ad.code);
      if Fails(f, 2) {
        db.Rollback(begin);
        return Err(DriverFailure);
      }
      if key !in db.stock {
        return Err(ZeroRowsAffected);  // commits: the product increment stays
      }
      db.stock := db.stock[key := db.stock[key].(available := db.stock[key].available + ad.quantity)];
      return Ok(());
    }

    method Delete(dp: DeleteProduct, f: Fault) returns (r: Result<Product, Error>)
      modifies db
      ensures Step(db.State(), r) == ProductLedger.Delete(old(db.State()), dp, f)
    {
      // DELETE FROM products WHERE code = $1 RETURNING name, size, code, quantity
      if Fails(f, 0) {
        return Err(DriverFailure);
      }
      if dp.code !in db.products {
        return Err(NoRows);
      }
      var row := db.products[dp.code];
      db.products := db.products - {dp.code};
      return Ok(Product(row.name, row.size, dp.code, row.quantity));
    }
  }
}
