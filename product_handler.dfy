/**
 * The JSON-RPC product handler of internal/handlers/jsonrpc/product.go. Each
 * method takes a batch of requests, calls the storage once per request, in
 * order, with the service layer passing every call through unchanged, and
 * replies with what the successful calls yield, or with an error when none
 * succeeded.
 *
 * `faults[i]` is the driver behaviour the i-th call meets.
 */
module ProductRpc {
  import opened Wrappers
  import opened Domain
  import opened Database
  import opened StockTotals
  import opened Batch
  import ProductLedger
  import opened ProductStore

  /** A reserved item is echoed with its status set to "reserved". */
  function MarkReserved(wp: WarehouseProduct, u: ()): WarehouseProduct {
    wp.(status := "reserved")
  }

  /** A cancelled reservation is echoed with its status set to "canceled". */
  function MarkCanceled(wp: WarehouseProduct, u: ()): WarehouseProduct {
    wp.(status := "canceled")
  }

  /** A deletion yields the product the storage returned. */
  function Deleted(dp: DeleteProduct, p: Product): Product {
    p
  }

  class ProductHandler {
    const service: ProductStorage

    constructor (service: ProductStorage)
      ensures this.service == service
    {
      this.service := service;
    }

    method Create(items: seq<Product>, faults: seq<Fault>) returns (r: Result<seq<Product>, HandlerError>)
      modifies service.db
      ensures var run := RunBatch(ProductLedger.Create, Echo, old(service.db.State()), items, faults);
        service.db.State() == run.after && r == Reply(run, |items|)
    {
      ghost var t := service.db.State();
      var err: Option<Error> := None;
      var total := 0;
      var success: seq<Product> := [];
      for i := 0 to |items|
        invariant RunBatch(ProductLedger.Create, Echo, t, items[..i], faults) == Run(service.db.State(), success, total, err)
      {
        assert items[..i + 1][..i] == items[..i];
        var e := service.Create(items[i], FaultAt(faults, i));
        if e.Err? {
          err, total := Some(e.error), total + 1;
        } else {
          err := None;
          success := success + [items[i]];
        }
      }
      assert items[..|items|] == items;
      if total == |items| {
        return Err(AllCallsFailed(err));
      }
      return Ok(success);
    }

    method Reserve(items: seq<WarehouseProduct>, faults: seq<Fault>) returns (r: Result<seq<WarehouseProduct>, HandlerError>)
      modifies service.db
      ensures var run := RunBatch(ProductLedger.Reserve, MarkReserved, old(service.db.State()), items, faults);
        service.db.State() == run.after && r == Reply(run, |items|)
    {
      ghost var t := service.db.State();
      var err: Option<Error> := None;
      var total := 0;
      var reserved: seq<WarehouseProduct> := [];
      for i := 0 to |items|
        invariant RunBatch(ProductLedger.Reserve, MarkReserved, t, items[..i], faults) == Run(service.db.State(), reserved, total, err)
      {
        assert items[..i + 1][..i] == items[..i];
        var e := service.Reserve(items[i], FaultAt(faults, i));
        if e.Err? {
          err, total := Some(e.error), total + 1;
        } else {
          err := None;
          reserved := reserved + [items[i].(status := "reserved")];
        }
      }
      assert items[..|items|] == items;
      if total == |items| {
        return Err(AllCallsFailed(err));
      }
      return Ok(reserved);
    }

    method CancelReservation(items: seq<WarehouseProduct>, faults: seq<Fault>) returns (r: Result<seq<WarehouseProduct>, HandlerError>)
      modifies service.db
      ensures var run := RunBatch(ProductLedger.CancelReservation, MarkCanceled, old(service.db.State()), items, faults);
        service.db.State() == run.after && r == Reply(run, |items|)
    {
      ghost var t := service.db.State();
      var err: Option<Error> := None;
      var total := 0;
      var unreserved: seq<WarehouseProduct> := [];
      for i := 0 to |items|
        invariant RunBatch(ProductLedger.CancelReservation, MarkCanceled, t, items[..i], faults) == Run(service.db.State(), unreserved, total, err)
      {
        assert items[..i + 1][..i] == items[..i];
        var e := service.CancelReservation(items[i], FaultAt(faults, i));
        if e.Err? {
          err, total := Some(e.error), total + 1;
        } else {
          err := None;
          unreserved := unreserved + [items[i].(status := "canceled")];
        }
      }
      assert items[..|items|] == items;
      if total == |items| {
        return Err(AllCallsFailed(err));
      }
      return Ok(unreserved);
    }

    method Transfer(items: seq<TransferProduct>, faults: seq<Fault>) returns (r: Result<seq<TransferProduct>, HandlerError>)
      modifies service.db
      ensures var run := RunBatch(ProductLedger.Transfer, Echo, old(service.db.State()), items, faults);
        service.db.State() == run.after && r == Reply(run, |items|)
    {
      ghost var t := service.db.State();
      var err: Option<Error> := None;
      var total := 0;
      var transferred: seq<TransferProduct> := [];
      for i := 0 to |items|
        invariant RunBatch(ProductLedger.Transfer, Echo, t, items[..i], faults) == Run(service.db.State(), transferred, total, err)
      {
        assert items[..i + 1][..i] == items[..i];
        var e := service.Transfer(items[i], FaultAt(faults, i));
        if e.Err? {
          err, total := Some(e.error), total + 1;
        } else {
          err := None;
          transferred := transferred + [items[i]];
        }
      }
      assert items[..|items|] == items;
      if total == |items| {
        return Err(AllCallsFailed(err));
      }
      return Ok(transferred);
    }

    method Add(items: seq<AddProduct>, faults: seq<Fault>) returns (r: Result<seq<AddProduct>, HandlerError>)
      modifies service.db
      ensures var run := RunBatch(ProductLedger.Add, Echo, old(service.db.State()), items, faults);
        service.db.State() == run.after && r == Reply(run, |items|)
    {
      ghost var t := service.db.State();
      var err: Option<Error> := None;
      var total := 0;
      var added: seq<AddProduct> := [];
      for i := 0 to |items|
        invariant RunBatch(ProductLedger.Add, Echo, t, items[..i], faults) == Run(service.db.State(), added, total, err)
      {
        assert items[..i + 1][..i] == items[..i];
        var e := service.Add(items[i], FaultAt(faults, i));
        if e.Err? {
          err, total := Some(e.error), total + 1;
        } else {
          err := None;
          added := added + [items[i]];
        }
      }
      assert items[..|items|] == items;
      if total == |items| {
        return Err(AllCallsFailed(err));
      }
      return Ok(added);
    }

    method Delete(items: seq<DeleteProduct>, faults: seq<Fault>) returns (r: Result<seq<Product>, HandlerError>)
      modifies service.db
      ensures var run := RunBatch(ProductLedger.Delete, Deleted, old(service.db.State()), items, faults);
        service.db.State() == run.after && r == Reply(run, |items|)
    {
      ghost var t := service.db.State();
      var err: Option<Error> := None;
      var total := 0;
      var deleted: seq<Product> := [];
      for i := 0 to |items|
        invariant RunBatch(ProductLedger.Delete, Deleted, t, items[..i], faults) == Run(service.db.State(), deleted, total, err)
      {
        assert items[..i + 1][..i] == items[..i];
        var e := service.Delete(items[i], FaultAt(faults, i));
        if e.Err? {
          err, total := Some(e.error), total + 1;
        } else {
          err := None;
          deleted := deleted + [e.value];
        }
      }
      assert items[..|items|] == items;
      if total == |items| {
        return Err(AllCallsFailed(err));
      }
      return Ok(deleted);
    }
  }

  // ---------------------------------------------------------------------------
  // Laws of whole batches

  /**
   * A Reserve batch replies with the items whose reservation succeeded, in
   * input order, each with status "reserved" and otherwise as requested.
   */
  lemma ReservedAreRequestsInOrder(t: Tables, items: seq<WarehouseProduct>, faults: seq<Fault>)
    ensures var out := RunBatch(ProductLedger.Reserve, MarkReserved, t, items, faults).out;
      exists sel: seq<nat> ::
        && |sel| == |out|
        && (forall j1, j2 :: 0 <= j1 < j2 < |sel| ==> sel[j1] < sel[j2])
        && (forall j :: 0 <= j < |sel| ==> sel[j] < |items| && out[j] == items[sel[j]].(status := "reserved"))
        && (forall i :: 0 <= i < |items| ==>
              (CallAt(ProductLedger.Reserve, MarkReserved, t, items, faults, i).result.Ok? <==> i in sel))
  {
    OutIsSuccessesInOrder(ProductLedger.Reserve, MarkReserved, t, items, faults);
  }

  /** The same for CancelReservation, with status "canceled". */
  lemma CanceledAreRequestsInOrder(t: Tables, items: seq<WarehouseProduct>, faults: seq<Fault>)
    ensures var out := RunBatch(ProductLedger.CancelReservation, MarkCanceled, t, items, faults).out;
      exists sel: seq<nat> ::
        && |sel| == |out|
        && (forall j1, j2 :: 0 <= j1 < j2 < |sel| ==> sel[j1] < sel[j2])
        && (forall j :: 0 <= j < |sel| ==> sel[j] < |items| && out[j] == items[sel[j]].(status := "canceled"))
        && (forall i :: 0 <= i < |items| ==>
              (CallAt(ProductLedger.CancelReservation, MarkCanceled, t, items, faults, i).result.Ok? <==> i in sel))
  {
    OutIsSuccessesInOrder(ProductLedger.CancelReservation, MarkCanceled, t, items, faults);
  }

  /**
   * A Reserve batch, whatever succeeds or fails, leaves every product's
   * holding (available plus reserved, over all warehouses) as it was.
   */
  lemma {:induction false} ReserveBatchConservesHolding(t: Tables, items: seq<WarehouseProduct>, faults: seq<Fault>, code: string)
    ensures Total(RunBatch(ProductLedger.Reserve, MarkReserved, t, items, faults).after.stock, code, Holding)
         == Total(t.stock, code, Holding)
    decreases |items|
  {
    if items != [] {
      var i := |items| - 1;
      ReserveBatchConservesHolding(t, items[..i], faults, code);
      var prev := RunBatch(ProductLedger.Reserve, MarkReserved, t, items[..i], faults);
      ProductLedger.ReserveConservesHolding(prev.after, items[i], FaultAt(faults, i), code);
    }
  }

  /** The same for a CancelReservation batch. */
  lemma {:induction false} CancelBatchConservesHolding(t: Tables, items: seq<WarehouseProduct>, faults: seq<Fault>, code: string)
    ensures Total(RunBatch(ProductLedger.CancelReservation, MarkCanceled, t, items, faults).after.stock, code, Holding)
         == Total(t.stock, code, Holding)
    decreases |items|
  {
    if items != [] {
      var i := |items| - 1;
      CancelBatchConservesHolding(t, items[..i], faults, code);
      var prev := RunBatch(ProductLedger.CancelReservation, MarkCanceled, t, items[..i], faults);
      ProductLedger.CancelConservesHolding(prev.after, items[i], FaultAt(faults, i), code);
    }
  }

  /**
   * A Transfer batch moves stock between warehouses but never creates or
   * destroys any: every product's total available and total reserved over
   * all warehouses are the same afterwards.
   */
  lemma {:induction false} TransferBatchConservesStock(t: Tables, items: seq<TransferProduct>, faults: seq<Fault>, code: string)
    ensures var a := RunBatch(ProductLedger.Transfer, Echo, t, items, faults).after;
      && Total(a.stock, code, Available) == Total(t.stock, code, Available)
      && Total(a.stock, code, Reserved) == Total(t.stock, code, Reserved)
    decreases |items|
  {
    if items != [] {
      var i := |items| - 1;
      TransferBatchConservesStock(t, items[..i], faults, code);
      var prev := RunBatch(ProductLedger.Transfer, Echo, t, items[..i], faults);
      ProductLedger.TransferConservesStock(prev.after, items[i], FaultAt(faults, i), code);
    }
  }

  /**
   * A Delete batch only removes products and never touches stock or
   * warehouses, and every product it replies with is gone afterwards.
   */
  lemma {:induction false} DeleteBatchRemoves(t: Tables, items: seq<DeleteProduct>, faults: seq<Fault>)
    ensures var run := RunBatch(ProductLedger.Delete, Deleted, t, items, faults);
      && run.after.products.Keys <= t.products.Keys
      && (forall c :: c in run.after.products ==> run.after.products[c] == t.products[c])
      && run.after.stock == t.stock && run.after.warehouses == t.warehouses
      && (forall p :: p in run.out ==> p.code in t.products && p.code !in run.after.products)
    decreases |items|
  {
    if items != [] {
      var i := |items| - 1;
      DeleteBatchRemoves(t, items[..i], faults);
      var prev := RunBatch(ProductLedger.Delete, Deleted, t, items[..i], faults);
      ProductLedger.DeleteReturnsSnapshot(prev.after, items[i], FaultAt(faults, i));
    }
  }
}
