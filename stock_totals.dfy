/**
 * How much of one product the `warehouse_products` table holds across all
 * warehouses: the quantities the conservation laws of the storage layer are
 * stated over.
 */
module StockTotals {
  import opened Database

  function Available(r: StockRow): int { r.available }
  function Reserved(r: StockRow): int { r.reserved }
  /** Everything the warehouse holds of the product: free plus reserved. */
  function Holding(r: StockRow): int { r.available + r.reserved }

  /** The keys of the stock rows of product `code`, one per warehouse that has a row. */
  ghost function RowsOf(stock: map<StockKey, StockRow>, code: string): set<StockKey> {
    set k | k in stock && k.code == code
  }

  /** The sum of `w` over the rows with the given keys. */
  ghost function Sum(stock: map<StockKey, StockRow>, keys: set<StockKey>, w: StockRow -> int): int
    requires keys <= stock.Keys
    decreases keys
  {
    if keys == {} then 0
    else
      var k :| k in keys;
      w(stock[k]) + Sum(stock, keys - {k}, w)
  }

  /** The sum of `w` over every warehouse's row of product `code`. */
  ghost function Total(stock: map<StockKey, StockRow>, code: string, w: StockRow -> int): int {
    Sum(stock, RowsOf(stock, code), w)
  }

  /** Any key of the set can be taken out first: the sum does not depend on the order. */
  lemma {:induction false} SumPick(stock: map<StockKey, StockRow>, keys: set<StockKey>, w: StockRow -> int, k: StockKey)
    requires keys <= stock.Keys && k in keys
    ensures Sum(stock, keys, w) == w(stock[k]) + Sum(stock, keys - {k}, w)
    decreases keys
  {
    var j :| j in keys && Sum(stock, keys, w) == w(stock[j]) + Sum(stock, keys - {j}, w);
    if j != k {
      SumPick(stock, keys - {j}, w, k);
      SumPick(stock, keys - {k}, w, j);
      assert keys - {j} - {k} == keys - {k} - {j};
    }
  }

  /** Two tables that agree on the given rows have the same sum over them. */
  lemma {:induction false} SumAgree(s1: map<StockKey, StockRow>, s2: map<StockKey, StockRow>, keys: set<StockKey>, w: StockRow -> int)
    requires keys <= s1.Keys && keys <= s2.Keys
    requires forall k :: k in keys ==> s1[k] == s2[k]
    ensures Sum(s1, keys, w) == Sum(s2, keys, w)
    decreases keys
  {
    if keys != {} {
      var k :| k in keys;
      SumPick(s1, keys, w, k);
      SumPick(s2, keys, w, k);
      SumAgree(s1, s2, keys - {k}, w);
    }
  }

  /**
   * Writing one row changes the total of that row's product by the difference
   * between the new row and the old one (an absent row weighing 0), and leaves
   * every other product's total alone.
   */
  lemma TotalUpdate(stock: map<StockKey, StockRow>, key: StockKey, row: StockRow, code: string, w: StockRow -> int)
    ensures Total(stock[key := row], code, w) ==
            Total(stock, code, w) + (if key.code == code then w(row) - (if key in stock then w(stock[key]) else 0) else 0)
  {
    var s' := stock[key := row];
    var keys, keys' := RowsOf(stock, code), RowsOf(s', code);
    if key.code != code {
      assert keys' == keys;
      SumAgree(stock, s', keys, w);
    } else if key in stock {
      assert keys' == keys;
      SumPick(stock, keys, w, key);
      SumPick(s', keys, w, key);
      SumAgree(stock, s', keys - {key}, w);
    } else {
      assert keys' == keys + {key};
      SumPick(s', keys', w, key);
      assert keys' - {key} == keys;
      SumAgree(stock, s', keys, w);
    }
  }
}
