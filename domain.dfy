/**
 * The request and response records of the warehouse service
 * (internal/domain/product.go and internal/domain/warehouse.go).
 * Go's `int64` identifiers become `int` and its `uint64` quantities `nat`.
 */
module Domain {

  /** A product as the clients send it to Create and as Delete and GetLeftOvers return it. */
  datatype Product = Product(name: string, size: string, code: string, quantity: nat)

  /** The argument of Reserve and CancelReservation; `status` is filled in by the handler. */
  datatype WarehouseProduct = WarehouseProduct(warehouseId: int, code: string, quantity: nat, status: string)

  datatype TransferProduct = TransferProduct(warehouseFromId: int, warehouseToId: int, code: string, quantity: nat)

  datatype AddProduct = AddProduct(code: string, quantity: nat, warehouseId: int)

  datatype DeleteProduct = DeleteProduct(code: string)

  datatype Warehouse = Warehouse(name: string, availability: bool)

  datatype GetFromWarehouse = GetFromWarehouse(warehouseId: int)
}
