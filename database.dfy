/**
 * The three tables the storage layer reads and writes, the errors it reports,
 * and the faults a database driver can inject into a call.
 */
module Database {
  import opened Wrappers

  /** A row of `products`, keyed by its code. */
  datatype ProductRow = ProductRow(name: string, size: string, quantity: nat)

  /** A row of `warehouses`, keyed by its id. */
  datatype WarehouseRow = WarehouseRow(name: string, availability: bool)

  /** The composite key (warehouse_id, product_code) of `warehouse_products`. */
  datatype StockKey = StockKey(warehouseId: int, code: string)

  /**
   * A row of `warehouse_products`. The code never checks these counters for
   * underflow, so they are unbounded integers here.
   */
  datatype StockRow = StockRow(available: int, reserved: int)

  /**
   * A snapshot of the database. `nextWarehouseId` is the sequence behind the
   * `warehouses.id` column: the id the next inserted warehouse receives.
   */
  datatype Tables = Tables(
    products: map<string, ProductRow>,
    warehouses: map<int, WarehouseRow>,
    stock: map<StockKey, StockRow>,
    nextWarehouseId: int)

  /** Every warehouse id was handed out by the sequence. */
  predicate Valid(t: Tables) {
    forall id :: id in t.warehouses ==> id < t.nextWarehouseId
  }

  /** The failures the storage layer reports, one per distinct error path. */
  datatype Error =
    | ZeroRowsAffected                       // errors.New("affected 0 rows")
    | NoRows                                 // sql.ErrNoRows, from Scan or from GetLeftOvers
    | NotEnoughQuantity(requested: nat, warehouseId: int, available: int)
    | ScanFailure                            // a value that does not fit the Go destination
    | UniqueViolation                        // INSERT of a code that is already a key
    | DriverFailure                          // Begin, Exec or Query returned an error

  /**
   * What the database driver does during one storage call: nothing unusual, or
   * it fails the interaction with the given index. Interactions are numbered
   * from 0 in the order the call makes them: `Begin`, each `Exec` or `Query`,
   * and, for a multi-row query, the `Scan` of each row.
   */
  datatype Fault = NoFault | FailAt(step: nat)

  predicate Fails(f: Fault, step: nat) {
    f == FailAt(step)
  }

  /** The state after a storage call and what the call returned. */
  datatype Step<+R> = Step(after: Tables, result: Result<R, Error>)

  /** The database connection shared by both storages; its fields are the tables. */
  class Db {
    var products: map<string, ProductRow>
    var warehouses: map<int, WarehouseRow>
    var stock: map<StockKey, StockRow>
    var nextWarehouseId: int

    /** The tables as a value. */
    function State(): Tables
      reads this
    {
      Tables(products, warehouses, stock, nextWarehouseId)
    }

    /** An empty database whose warehouse sequence starts at 1, as a serial column does. */
    constructor ()
      ensures State() == Tables(map[], map[], map[], 1)
      ensures Valid(State())
    {
      products, warehouses, stock, nextWarehouseId := map[], map[], map[], 1;
    }

    /** `tx.Rollback()`: puts back every table as it was when the transaction began. */
    method Rollback(saved: Tables)
      modifies this
      ensures State() == saved
    {
      products, warehouses, stock := saved.products, saved.warehouses, saved.stock;
      nextWarehouseId := saved.nextWarehouseId;
    }
  }
}
