/**
 * The JSON-RPC warehouse handler of internal/handlers/jsonrpc/warehouse.go:
 * a batch Create, and GetLeftOvers, which forwards one request and wraps the
 * storage's error.
 */
module WarehouseRpc {
  import opened Wrappers
  import opened Domain
  import opened Database
  import opened Batch
  import WarehouseLedger
  import opened WarehouseStore

  class WarehouseHandler {
    const service: WarehouseStorage

    constructor (service: WarehouseStorage)
      ensures this.service == service
    {
      this.service := service;
    }

    method Create(items: seq<Warehouse>, faults: seq<Fault>) returns (r: Result<seq<Warehouse>, HandlerError>)
      modifies service.db
      ensures var run := RunBatch(WarehouseLedger.Create, Echo, old(service.db.State()), items, faults);
        service.db.State() == run.after && r == Reply(run, |items|)
    {
      ghost var t := service.db.State();
      var err: Option<Error> := None;
      var total := 0;
      var success: seq<Warehouse> := [];
      for i := 0 to |items|
        invariant RunBatch(WarehouseLedger.Create, Echo, t, items[..i], faults) == Run(service.db.State(), success, total, err)
      {
        assert items[..i + 1][..i] == items[..i];
        var e := service.Create(items[i], FaultAt(faults, i));
        if e.Err? {
          err, total := Some(e.error), total + 1;
        } else {
          err := None;
          success := success + [items[i]];
        }
      }
      assert items[..|items|] == items;
      if total == |items| {
        return Err(AllCallsFailed(err));
      }
      return Ok(success);
    }

    /**
     * The leftovers of one warehouse, each listed stock row once, or the
     * storage's error wrapped, including "no rows" when nothing is listed.
     */
    method GetLeftOvers(gw: GetFromWarehouse, f: Fault) returns (r: Result<seq<Product>, HandlerError>)
      ensures var n := |WarehouseLedger.ListedKeys(service.db.State(), gw.warehouseId)|;
        && (r.Ok? <==> n > 0 && !(f.FailAt? && f.step <= n))
        && (Fails(f, 0) ==> r == Err(GetLeftOversFailed(DriverFailure)))
        && (f.FailAt? && 1 <= f.step <= n ==> r == Err(GetLeftOversFailed(ScanFailure)))
        && (n == 0 && !Fails(f, 0) ==> r == Err(GetLeftOversFailed(NoRows)))
        && (r.Ok? ==>
              && WarehouseLedger.Distinct(r.value)
              && |r.value| == n
              && (forall p :: p in r.value <==> p in WarehouseLedger.LeftOvers(service.db.State(), gw.warehouseId)))
    {
      var products := service.GetLeftOvers(gw, f);
      if products.Err? {
        return Err(GetLeftOversFailed(products.error));
      }
      return Ok(products.value);
    }
  }

  /**
   * A Create batch on consistent tables keeps them consistent and gives each
   * created warehouse an id of its own: the table grows by exactly the number
   * of warehouses the reply lists, and nothing but `warehouses` changes.
   */
  lemma {:induction false} CreateBatchAddsDistinctWarehouses(t: Tables, items: seq<Warehouse>, faults: seq<Fault>)
    requires Valid(t)
    ensures var run := RunBatch(WarehouseLedger.Create, Echo, t, items, faults);
      && Valid(run.after)
      && t.warehouses.Keys <= run.after.warehouses.Keys
      && |run.after.warehouses| == |t.warehouses| + |run.out|
      && run.after.nextWarehouseId == t.nextWarehouseId + |run.out|
      && run.after.products == t.products && run.after.stock == t.stock
    decreases |items|
  {
    if items != [] {
      var i := |items| - 1;
      CreateBatchAddsDistinctWarehouses(t, items[..i], faults);
      var prev := RunBatch(WarehouseLedger.Create, Echo, t, items[..i], faults);
      WarehouseLedger.CreateInsertsFreshWarehouse(prev.after, items[i], FaultAt(faults, i));
    }
  }
}
