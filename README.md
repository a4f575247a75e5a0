# Warehouse inventory: a Dafny model

This project models the inventory core of the warehouse service, a JSON-RPC
server backed by PostgreSQL. Clients create products and warehouses. They
reserve stock and cancel reservations, transfer stock between warehouses, add
stock, delete products, and list what a warehouse has left over.

The model has three layers, like the program:

- **Tables** (`database.dfy`): the three tables `products`,
  `warehouses` and `warehouse_products` live in the fields of a `Db`
  object. The warehouse id sequence is a field too.
- **Storage** (`product_storage.dfy`, `warehouse_storage.dfy`): classes
  whose methods change the `Db` statement by statement, as the SQL does.
  Each method is proved to have the net effect of a pure function of the
  tables (`product_ledger.dfy`, `warehouse_ledger.dfy`). The laws of the
  inventory are proved about those functions: conservation of stock, the
  success conditions, rollback and round trips.
- **Handlers** (`batch.dfy`, `product_handler.dfy`,
  `warehouse_handler.dfy`): every batch method runs the same loop. It makes
  one storage call per request, in input order, and keeps the successes. It
  counts the failures and fails only when every call failed. The loop is
  proved equal to a recursive fold, `Batch.RunBatch`, and the batch-level
  laws are proved about that fold.

The service layer (`internal/services/*.go`) passes every call through
unchanged, so each handler calls the storage directly.

The database driver is a parameter of every call: a `Fault` that is either
`NoFault` or `FailAt(i)`. `FailAt(i)` means the i-th interaction with the
driver fails. Interaction 0 is the statement or the `Begin`; later ones are the
following statements and row scans. Handlers take one `Fault` per request.

## Model

| member | source | states |
|---|---|---|
| ProductStore.ProductStorage.Create | internal/adapters/postgresql/product.go:21-39 | the new tables and the result are those of `ProductLedger.Create`: the product is inserted, or the call fails with the tables unchanged |
| ProductLedger.CreateInsertsOneProduct | internal/adapters/postgresql/product.go:21-39 | Create succeeds iff the driver does not fail and the code is new. On success the products table gains exactly this product and one row. On failure nothing changes, and stock and warehouses never change |
| ProductLedger.CreateThenDeleteRoundTrip | internal/adapters/postgresql/product.go:21-39 | deleting a product just created returns that product and gives back the tables as they were before the Create |
| ProductStore.ProductStorage.Reserve | internal/adapters/postgresql/product.go:41-63 | the new tables and the result are those of `ProductLedger.Reserve` |
| ProductLedger.ReserveMovesToReserved | internal/adapters/postgresql/product.go:41-63 | Reserve succeeds iff the driver works and the (warehouse, code) row exists. A missing row gives "affected 0 rows". On success `q` moves from available to reserved on that row only, with no underflow check. Products and warehouses never change |
| ProductStore.ProductStorage.CancelReservation | internal/adapters/postgresql/product.go:65-87 | the new tables and the result are those of `ProductLedger.CancelReservation` |
| ProductLedger.CancelMovesToAvailable | internal/adapters/postgresql/product.go:65-87 | the mirror image of Reserve: on success `q` moves from reserved back to available on that row only; on failure nothing changes |
| ProductLedger.ReserveConservesHolding | internal/adapters/postgresql/product.go:41-63 | across all warehouses, Reserve keeps each product's total of available plus reserved. It lowers total available and raises total reserved by `q` for the reserved product only |
| ProductLedger.CancelConservesHolding | internal/adapters/postgresql/product.go:65-87 | the same for CancelReservation, in the opposite direction |
| ProductLedger.ReserveThenCancelRestores | internal/adapters/postgresql/product.go:41-87 | a successful reservation followed by the cancellation of the same item restores the tables exactly |
| ProductLedger.CancelThenReserveRestores | internal/adapters/postgresql/product.go:41-87 | a successful cancellation followed by the reservation of the same item restores the tables exactly |
| ProductStore.ProductStorage.Transfer | internal/adapters/postgresql/product.go:89-152 | each statement changes the `Db` in turn. The deferred handler's rollback restores the snapshot taken at `Begin`. The net effect is that of `ProductLedger.Transfer` |
| ProductLedger.TransferSucceedsIffEnough | internal/adapters/postgresql/product.go:102-113 | without driver failures, Transfer succeeds iff the source row exists and holds at least `q` available (equality is enough). Otherwise it returns "no rows", a scan failure when the stored count is negative, or "not enough quantity" with the requested and available amounts, and changes nothing |
| ProductLedger.TransferFailsWithoutChange | internal/adapters/postgresql/product.go:89-152 | every failed Transfer leaves all tables unchanged, whatever the failing step |
| ProductLedger.TransferMovesAvailable | internal/adapters/postgresql/product.go:115-151 | a successful Transfer debits the source row by `q` and credits the destination by `q`; a destination without a row gets (q, 0). No other row, no reserved count and no product changes. A transfer into the same warehouse changes nothing |
| ProductLedger.TransferConservesStock | internal/adapters/postgresql/product.go:89-152 | for every product, the total available and the total reserved over all warehouses are the same after any Transfer |
| ProductStore.ProductStorage.Add | internal/adapters/postgresql/product.go:154-204 | each statement changes the `Db` in turn. The rollback runs only when Go's `err` is set. The net effect is that of `ProductLedger.Add` |
| ProductLedger.AddSucceedsIff | internal/adapters/postgresql/product.go:154-204 | Add succeeds iff no driver step fails and both the product and its stock row in that warehouse exist |
| ProductLedger.AddIncrementsBoth | internal/adapters/postgresql/product.go:168-203 | a successful Add raises the product's quantity and the row's available count by the same `q`, and so that product's total available by `q`. Nothing else changes |
| ProductLedger.AddRollsBackOnDriverFailure | internal/adapters/postgresql/product.go:155-204 | a failed Begin or a failed statement makes Add fail with the tables unchanged. This holds even when the product increment had already been applied |
| ProductLedger.AddUnknownProduct | internal/adapters/postgresql/product.go:168-182 | an unknown product code affects 0 rows and changes nothing |
| ProductLedger.AddCommitsProductOnMissingRow | internal/adapters/postgresql/product.go:160-201 | a missing stock row makes Add report "affected 0 rows", yet the product increment is committed |
| ProductStore.ProductStorage.Delete | internal/adapters/postgresql/product.go:206-219 | the new tables and the result are those of `ProductLedger.Delete` |
| ProductLedger.DeleteReturnsSnapshot | internal/adapters/postgresql/product.go:206-219 | Delete succeeds iff the driver works and the code exists. It removes exactly that product and returns its row as it was before. An unknown code gives "no rows" and changes nothing. Stock rows are never touched |
| WarehouseStore.WarehouseStorage.Create | internal/adapters/postgresql/warehouse.go:21-38 | the new tables and the result are those of `WarehouseLedger.Create` |
| WarehouseLedger.CreateInsertsFreshWarehouse | internal/adapters/postgresql/warehouse.go:21-38 | the new warehouse gets the next id of the sequence, which no warehouse had. The table grows by one row and the tables stay consistent. On failure nothing changes |
| WarehouseStore.WarehouseStorage.GetLeftOvers | internal/adapters/postgresql/warehouse.go:40-68 | a failed query gives a driver error and a failed row scan a scan error. No listed rows gives "no rows". Otherwise the result holds every leftover exactly once, one per listed row. Nothing is changed |
| WarehouseStore.WarehouseStorage.ScanRows | internal/adapters/postgresql/warehouse.go:54-61 | the row loop stops at the first scan that fails. Otherwise it collects one record per listed row, each once, and no other |
| WarehouseLedger.LeftOversMembership | internal/adapters/postgresql/warehouse.go:43-47 | a record is a leftover of a warehouse iff the warehouse exists and is available, and the product exists with that name and size. The row must have available > 0, and the record's quantity is that available count |
| WarehouseLedger.LeftOversCount | internal/adapters/postgresql/warehouse.go:43-47 | there are as many leftovers as listed stock rows: distinct rows never yield the same record |
| Batch.Accounting | internal/handlers/jsonrpc/product.go:27-34 | every request of a batch is either a success in the output or a failure counted in `total` |
| Batch.AllFailedIsError | internal/handlers/jsonrpc/product.go:36-41 | the batch fails iff no call succeeded, including on empty input. The error wraps the last call's error, or nothing on empty input. Otherwise the reply is the output |
| Batch.OutIsSuccessesInOrder | internal/handlers/jsonrpc/product.go:27-34 | the output lists exactly the requests whose call succeeded, in input order, each once, with what each success yields |
| Batch.EchoesSuccessesInOrder | internal/handlers/jsonrpc/product.go:22-42 | when the handler appends the request itself, the output is the subsequence of the requests whose call succeeded |
| Batch.RunsInOrder | internal/handlers/jsonrpc/product.go:27-34 | a batch over `a + b` is the batch over `a` followed by the batch over `b`, started on the tables `a` left and with the faults after `a`'s |
| ProductRpc.ProductHandler.Create | internal/handlers/jsonrpc/product.go:22-42 | the loop leaves the tables and the reply of `RunBatch` over `ProductLedger.Create`, echoing each created product |
| ProductRpc.ProductHandler.Reserve | internal/handlers/jsonrpc/product.go:44-66 | the same over `ProductLedger.Reserve`, echoing each reserved item with status "reserved" |
| ProductRpc.ProductHandler.CancelReservation | internal/handlers/jsonrpc/product.go:68-90 | the same over `ProductLedger.CancelReservation`, with status "canceled" |
| ProductRpc.ProductHandler.Transfer | internal/handlers/jsonrpc/product.go:92-112 | the same over `ProductLedger.Transfer`, echoing each transfer made |
| ProductRpc.ProductHandler.Add | internal/handlers/jsonrpc/product.go:114-135 | the same over `ProductLedger.Add`, echoing each successful addition |
| ProductRpc.ProductHandler.Delete | internal/handlers/jsonrpc/product.go:137-160 | the same over `ProductLedger.Delete`, replying with the deleted products' snapshots |
| ProductRpc.ReservedAreRequestsInOrder | internal/handlers/jsonrpc/product.go:49-58 | a Reserve batch replies with the successfully reserved requests, in input order, each with status "reserved" and otherwise unchanged |
| ProductRpc.CanceledAreRequestsInOrder | internal/handlers/jsonrpc/product.go:73-82 | the same for CancelReservation, with status "canceled" |
| ProductRpc.ReserveBatchConservesHolding | internal/handlers/jsonrpc/product.go:44-66 | whatever succeeds or fails, a Reserve batch keeps every product's total holding over all warehouses |
| ProductRpc.CancelBatchConservesHolding | internal/handlers/jsonrpc/product.go:68-90 | the same for a CancelReservation batch |
| ProductRpc.TransferBatchConservesStock | internal/handlers/jsonrpc/product.go:92-112 | a Transfer batch keeps every product's total available and total reserved over all warehouses |
| ProductRpc.DeleteBatchRemoves | internal/handlers/jsonrpc/product.go:137-160 | a Delete batch only removes products and never touches stock or warehouses. Every product in its reply existed before and is gone afterwards |
| WarehouseRpc.WarehouseHandler.Create | internal/handlers/jsonrpc/warehouse.go:22-42 | the loop leaves the tables and the reply of `RunBatch` over `WarehouseLedger.Create` |
| WarehouseRpc.CreateBatchAddsDistinctWarehouses | internal/handlers/jsonrpc/warehouse.go:22-42 | a Create batch keeps the tables consistent and gives each created warehouse an id of its own. The table grows by exactly the number of warehouses in the reply |
| WarehouseRpc.WarehouseHandler.GetLeftOvers | internal/handlers/jsonrpc/warehouse.go:44-53 | the reply is the storage's leftovers, or the storage's error wrapped, under the same conditions as the storage call |

## Left out

- Concurrency and transaction isolation are not modelled. Calls run one after another on a single `Db`, so races between concurrent transfers or reservations are not captured.
- Logging (`logger.Infof`) is left out. It has no effect on state or replies.
- Go's `uint64` quantities are unbounded `nat`s. Their upper bound is not modelled, nor is the driver's refusal of `uint64` values with the high bit set.
- The errors of `tx.Commit()` and `tx.Rollback()` are ignored by the source and are not modelled: a commit always succeeds.
- A failing `RowsAffected()` is not a separate case. It is one more kind of driver failure at the same step, modelled as an error with no change. For the single statements outside a transaction (product Create, Reserve and CancelReservation, warehouse Create) the statement would in fact already have taken effect; the PostgreSQL driver never fails `RowsAffected()` for these statements, so this case does not arise.
- Schema constraints other than the primary keys are not part of this model. Examples are check constraints on non-negative counters and foreign keys with their cascades. Reserve and CancelReservation may therefore drive a counter negative, exactly as the statements ask; the Transfer debit cannot, because it runs only after the source count was read as non-negative and at least `q`. A Delete leaves the product's stock rows in place.
- GetLeftOvers: errors raised by `rows.Next()` itself are left out, and so is the unchecked `rows.Err()`. Only the query and the row scans can fail.
- GetLeftOvers: the row order of the query is not modelled, since it has no ORDER BY. Results are stated as sets, plus length and distinctness.
- The service layer forwards each call unchanged and is not modelled separately. Out of scope: the JSON-RPC transport, server bootstrap, configuration, migrations and the mocks.
- Add updates the stock row with a plain UPDATE, not an upsert, so a missing row is never created.
- Add is not all-or-nothing when the stock row is missing: "affected 0 rows" leaves Go's `err` nil, so the deferred handler commits the product increment (`ProductLedger.AddCommitsProductOnMissingRow`).
- Reserve and CancelReservation check nothing for underflow.
