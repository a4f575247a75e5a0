/**
 * The loop every batch method of the JSON-RPC handlers runs
 * (internal/handlers/jsonrpc/product.go and warehouse.go): call the storage
 * once per input item, in order, count the failures in `total`, append what
 * each success yields, and fail the whole batch only when every call failed.
 */
module Batch {
  import opened Wrappers
  import opened Database

  /** The error a handler method returns. */
  datatype HandlerError =
    | AllCallsFailed(last: Option<Error>)    // "all calls returned: %w", wrapping the last call's error
    | GetLeftOversFailed(cause: Error)       // "service.GetLeftOvers returned: %w"

  /**
   * The loop's variables after some items: the tables, the successes so far,
   * the failure count `total`, and `err`, the error of the latest call (None
   * when that call succeeded or there was none).
   */
  datatype Run<+O> = Run(after: Tables, out: seq<O>, total: nat, err: Option<Error>)

  /** The driver behaviour for the i-th call; calls past the given faults see none. */
  function FaultAt(faults: seq<Fault>, i: nat): Fault {
    if i < |faults| then faults[i] else NoFault
  }

  /**
   * The loop run over `items` from tables `t`: `call` is the storage call and
   * `keep` what the handler appends for a success, from the item and what the
   * call returned.
   */
  function RunBatch<I, S, O>(call: (Tables, I, Fault) -> Step<S>, keep: (I, S) -> O,
                             t: Tables, items: seq<I>, faults: seq<Fault>): Run<O>
    decreases |items|
  {
    if items == [] then Run(t, [], 0, None)
    else
      var i := |items| - 1;
      var prev := RunBatch(call, keep, t, items[..i], faults);
      var s := call(prev.after, items[i], FaultAt(faults, i));
      match s.result
      case Ok(v) => Run(s.after, prev.out + [keep(items[i], v)], prev.total, None)
      case Err(e) => Run(s.after, prev.out, prev.total + 1, Some(e))
  }

  /** What the handler method returns once the loop is over. */
  function Reply<O>(run: Run<O>, n: nat): Result<seq<O>, HandlerError> {
    if run.total == n then Err(AllCallsFailed(run.err)) else Ok(run.out)
  }

  /** The faults the calls after the first `n` meet; none once the given faults run out. */
  function FaultsAfter(faults: seq<Fault>, n: nat): seq<Fault> {
    if n <= |faults| then faults[n..] else []
  }


  /** The i-th call of the batch, made on the tables the first i calls left behind. */
  function CallAt<I, S, O>(call: (Tables, I, Fault) -> Step<S>, keep: (I, S) -> O,
                           t: Tables, items: seq<I>, faults: seq<Fault>, i: nat): Step<S>
    requires i < |items|
  {
    call(RunBatch(call, keep, t, items[..i], faults).after, items[i], FaultAt(faults, i))
  }

  /** Every item is either a success in `out` or a failure counted in `total`. */
  lemma {:induction false} Accounting<I, S, O>(call: (Tables, I, Fault) -> Step<S>, keep: (I, S) -> O,
                                              t: Tables, items: seq<I>, faults: seq<Fault>)
    ensures var run := RunBatch(call, keep, t, items, faults); |run.out| + run.total == |items|
    decreases |items|
  {
    if items != [] {
      Accounting(call, keep, t, items[..|items| - 1], faults);
    }
  }

  /**
   * The batch fails exactly when no call succeeded, including on empty input;
   * the error then wraps the last call's error, or nothing for empty input.
   */
  lemma AllFailedIsError<I, S, O>(call: (Tables, I, Fault) -> Step<S>, keep: (I, S) -> O,
                                  t: Tables, items: seq<I>, faults: seq<Fault>)
    ensures var run := RunBatch(call, keep, t, items, faults);
      && (Reply(run, |items|).Err? <==> run.out == [])
      && (Reply(run, |items|).Ok? ==> Reply(run, |items|).value == run.out)
      && (items == [] ==> Reply(run, |items|) == Err(AllCallsFailed(None)))
      && (items != [] && Reply(run, |items|).Err? ==>
            var last := CallAt(call, keep, t, items, faults, |items| - 1);
            last.result.Err? && Reply(run, |items|) == Err(AllCallsFailed(Some(last.result.error))))
  {
    Accounting(call, keep, t, items, faults);
    if items != [] {
      var i := |items| - 1;
      Accounting(call, keep, t, items[..i], faults);
      assert items[..i] == items[..|items| - 1];
    }
  }

  /**
   * `sel` lists, in increasing order, the positions of the items whose call
   * succeeded, and `out` is what those successes yield, in the same order.
   */
  ghost predicate Selects<I, S, O>(call: (Tables, I, Fault) -> Step<S>, keep: (I, S) -> O,
                                   t: Tables, items: seq<I>, faults: seq<Fault>, sel: seq<nat>, out: seq<O>)
  {
    && |sel| == |out|
    && (forall j :: 0 <= j < |sel| ==> sel[j] < |items|)
    && (forall j1, j2 :: 0 <= j1 < j2 < |sel| ==> sel[j1] < sel[j2])
    && (forall i :: 0 <= i < |items| ==> (CallAt(call, keep, t, items, faults, i).result.Ok? <==> i in sel))
    && (forall j :: 0 <= j < |sel| ==>
          var s := CallAt(call, keep, t, items, faults, sel[j]);
          s.result.Ok? && out[j] == keep(items[sel[j]], s.result.value))
  }

  /** The calls of a prefix of the items are the same calls as in the whole batch. */
  lemma CallAtPrefix<I, S, O>(call: (Tables, I, Fault) -> Step<S>, keep: (I, S) -> O,
                              t: Tables, items: seq<I>, faults: seq<Fault>, n: nat, i: nat)
    requires i < n <= |items|
    ensures CallAt(call, keep, t, items[..n], faults, i) == CallAt(call, keep, t, items, faults, i)
  {
    assert items[..n][..i] == items[..i];
  }

  /** The calls before the last are the calls of the batch without its last item. */
  lemma CallsOfPrefix<I, S, O>(call: (Tables, I, Fault) -> Step<S>, keep: (I, S) -> O,
                               t: Tables, items: seq<I>, faults: seq<Fault>)
    requires |items| > 0
    ensures forall i :: 0 <= i < |items| - 1 ==>
      CallAt(call, keep, t, items[..|items| - 1], faults, i) == CallAt(call, keep, t, items, faults, i)
  {
    forall i | 0 <= i < |items| - 1
      ensures CallAt(call, keep, t, items[..|items| - 1], faults, i) == CallAt(call, keep, t, items, faults, i)
    {
      CallAtPrefix(call, keep, t, items, faults, |items| - 1, i);
    }
  }

  /** The position of the last call joins the selection exactly when that call succeeds. */
  lemma ExtendPositions<I, S, O>(call: (Tables, I, Fault) -> Step<S>, keep: (I, S) -> O,
                                 t: Tables, items: seq<I>, faults: seq<Fault>, sel0: seq<nat>, out0: seq<O>, sel: seq<nat>)
    requires |items| > 0
    requires Selects(call, keep, t, items[..|items| - 1], faults, sel0, out0)
    requires sel == if CallAt(call, keep, t, items, faults, |items| - 1).result.Ok? then sel0 + [|items| - 1] else sel0
    ensures forall j :: 0 <= j < |sel| ==> sel[j] < |items|
    ensures forall j1, j2 :: 0 <= j1 < j2 < |sel| ==> sel[j1] < sel[j2]
    ensures forall i :: 0 <= i < |items| ==> (CallAt(call, keep, t, items, faults, i).result.Ok? <==> i in sel)
  {
    var n := |items| - 1;
    CallsOfPrefix(call, keep, t, items, faults);
    assert n !in sel0;
  }

  /** What the last call yields, if it succeeds, is appended to the output. */
  lemma ExtendOutput<I, S, O>(call: (Tables, I, Fault) -> Step<S>, keep: (I, S) -> O,
                              t: Tables, items: seq<I>, faults: seq<Fault>, sel0: seq<nat>, out0: seq<O>,
                              sel: seq<nat>, out: seq<O>)
    requires |items| > 0
    requires Selects(call, keep, t, items[..|items| - 1], faults, sel0, out0)
    requires var last := CallAt(call, keep, t, items, faults, |items| - 1);
      && sel == (if last.result.Ok? then sel0 + [|items| - 1] else sel0)
      && out == (if last.result.Ok? then out0 + [keep(items[|items| - 1], last.result.value)] else out0)
    ensures forall j :: 0 <= j < |sel| ==>
      sel[j] < |items| &&
      var s := CallAt(call, keep, t, items, faults, sel[j]);
      s.result.Ok? && out[j] == keep(items[sel[j]], s.result.value)
  {
    var prefix := items[..|items| - 1];
    CallsOfPrefix(call, keep, t, items, faults);
    forall j | 0 <= j < |sel0|
      ensures prefix[sel0[j]] == items[sel0[j]]
    {
    }
  }

  /** One more call extends the selection by its position when it succeeds. */
  lemma SelectsExtend<I, S, O>(call: (Tables, I, Fault) -> Step<S>, keep: (I, S) -> O,
                               t: Tables, items: seq<I>, faults: seq<Fault>, sel0: seq<nat>, out0: seq<O>,
                               sel: seq<nat>, out: seq<O>)
    requires |items| > 0
    requires Selects(call, keep, t, items[..|items| - 1], faults, sel0, out0)
    requires var last := CallAt(call, keep, t, items, faults, |items| - 1);
      && sel == (if last.result.Ok? then sel0 + [|items| - 1] else sel0)
      && out == (if last.result.Ok? then out0 + [keep(items[|items| - 1], last.result.value)] else out0)
    ensures Selects(call, keep, t, items, faults, sel, out)
  {
    ExtendPositions(call, keep, t, items, faults, sel0, out0, sel);
    ExtendOutput(call, keep, t, items, faults, sel0, out0, sel, out);
  }

  /**
   * The output of a batch is the ordered subsequence of what the successful
   * calls yield: failed items are left out, nothing is reordered or repeated.
   */
  lemma {:induction false} OutIsSuccessesInOrder<I, S, O>(call: (Tables, I, Fault) -> Step<S>, keep: (I, S) -> O,
                                                        t: Tables, items: seq<I>, faults: seq<Fault>)
    ensures exists sel :: Selects(call, keep, t, items, faults, sel, RunBatch(call, keep, t, items, faults).out)
    decreases |items|
  {
    var out := RunBatch(call, keep, t, items, faults).out;
    if items == [] {
      assert Selects(call, keep, t, items, faults, [], out);
    } else {
      var n := |items| - 1;
      var prefix := items[..n];
      var prevOut := RunBatch(call, keep, t, prefix, faults).out;
      OutIsSuccessesInOrder(call, keep, t, prefix, faults);
      var sel0: seq<nat> :| Selects(call, keep, t, prefix, faults, sel0, prevOut);
      var last := CallAt(call, keep, t, items, faults, n);
      var sel: seq<nat> := if last.result.Ok? then sel0 + [n] else sel0;
      assert out == if last.result.Ok? then prevOut + [keep(items[n], last.result.value)] else prevOut;
      SelectsExtend(call, keep, t, items, faults, sel0, prevOut, sel, out);
    }
  }

  /** What the Create, Transfer and Add handlers append for a success: the request item itself. */
  function Echo<I, S>(item: I, s: S): I {
    item
  }

  /**
   * When the handler appends the item itself, its output is the items whose
   * call succeeded, in input order, each once.
   */
  lemma EchoesSuccessesInOrder<I, S>(call: (Tables, I, Fault) -> Step<S>, t: Tables, items: seq<I>, faults: seq<Fault>)
    ensures var out := RunBatch(call, Echo, t, items, faults).out;
      exists sel: seq<nat> ::
        && |sel| == |out|
        && (forall j1, j2 :: 0 <= j1 < j2 < |sel| ==> sel[j1] < sel[j2])
        && (forall j :: 0 <= j < |sel| ==> sel[j] < |items| && out[j] == items[sel[j]])
        && (forall i :: 0 <= i < |items| ==> (CallAt(call, Echo, t, items, faults, i).result.Ok? <==> i in sel))
  {
    OutIsSuccessesInOrder(call, Echo, t, items, faults);
  }

  /** Two fault lists that agree on every call of the batch give the same run. */
  lemma {:induction false} SameFaultsSameRun<I, S, O>(call: (Tables, I, Fault) -> Step<S>, keep: (I, S) -> O,
                                                     t: Tables, items: seq<I>, f1: seq<Fault>, f2: seq<Fault>)
    requires forall i :: 0 <= i < |items| ==> FaultAt(f1, i) == FaultAt(f2, i)
    ensures RunBatch(call, keep, t, items, f1) == RunBatch(call, keep, t, items, f2)
    decreases |items|
  {
    if items != [] {
      SameFaultsSameRun(call, keep, t, items[..|items| - 1], f1, f2);
    }
  }

  /** RunsInOrder when the faults reach at least as far as `a`. */
  lemma {:induction false} RunsInOrderWithin<I, S, O>(call: (Tables, I, Fault) -> Step<S>, keep: (I, S) -> O,
                                                     t: Tables, a: seq<I>, b: seq<I>, faults: seq<Fault>)
    requires |a| <= |faults|
    ensures var ra := RunBatch(call, keep, t, a, faults);
            var rb := RunBatch(call, keep, ra.after, b, faults[|a|..]);
            var r := RunBatch(call, keep, t, a + b, faults);
      && r.after == rb.after && r.out == ra.out + rb.out && r.total == ra.total + rb.total
      && r.err == (if b == [] then ra.err else rb.err)
    decreases |b|
  {
    if b == [] {
      assert a + b == a;
    } else {
      var n := |b| - 1;
      RunsInOrderWithin(call, keep, t, a, b[..n], faults);
      assert (a + b)[..|a + b| - 1] == a + b[..n];
      assert (a + b)[|a + b| - 1] == b[n];
      assert FaultAt(faults, |a| + n) == FaultAt(faults[|a|..], n);
    }
  }

  /**
   * Calls run in input order: a batch over `a + b` is the batch over `a`
   * followed by the batch over `b`, started on the tables `a` left and with
   * the faults that follow `a`'s.
   */
  lemma RunsInOrder<I, S, O>(call: (Tables, I, Fault) -> Step<S>, keep: (I, S) -> O,
                             t: Tables, a: seq<I>, b: seq<I>, faults: seq<Fault>)
    ensures var ra := RunBatch(call, keep, t, a, faults);
            var rb := RunBatch(call, keep, ra.after, b, FaultsAfter(faults, |a|));
            var r := RunBatch(call, keep, t, a + b, faults);
      && r.after == rb.after && r.out == ra.out + rb.out && r.total == ra.total + rb.total
      && r.err == (if b == [] then ra.err else rb.err)
  {
    var padded := if |a| <= |faults| then faults else faults + seq(|a| - |faults|, _ => NoFault);
    assert forall i :: 0 <= i < |a + b| ==> FaultAt(padded, i) == FaultAt(faults, i);
    SameFaultsSameRun(call, keep, t, a, padded, faults);
    SameFaultsSameRun(call, keep, t, a + b, padded, faults);
    var ra := RunBatch(call, keep, t, a, faults);
    assert forall i :: 0 <= i < |b| ==> FaultAt(padded[|a|..], i) == FaultAt(FaultsAfter(faults, |a|), i);
    SameFaultsSameRun(call, keep, ra.after, b, padded[|a|..], FaultsAfter(faults, |a|));
    RunsInOrderWithin(call, keep, t, a, b, padded);
  }
}
