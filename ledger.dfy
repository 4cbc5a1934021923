/** The `store_logs` table of the EGMS site-management app (main.py:26-31)
    and the stock summary that the director's stock tab derives from it
    (main.py:108-114): every row gets a signed value, `+qty` for an "Entry"
    and `-qty` for anything else, and the values are grouped by item and
    summed. */
module Ledger {
  import opened Optional

  /** The label the store form writes for goods received into stock. */
  const EntryLabel: string := "Entry"
  /** The label the store form writes for goods issued from stock. */
  const ExitLabel: string := "Exit"
  /** The smallest quantity the store form's number input accepts (main.py:148). */
  const MinQty: real := 0.1

  /** An instant stamped by the database clock; the model only carries it along. */
  datatype Timestamp = Timestamp(utcMicros: int)

  /** The two choices of the store form's "Type" radio button (main.py:149). */
  datatype Movement = Entry | Exit

  /** The text a movement is stored under in the `trans_type` column. */
  function Label(m: Movement): string
  {
    match m
    case Entry => EntryLabel
    case Exit => ExitLabel
  }

  /** How a movement of `qty` should move its item's stock. */
  function Delta(m: Movement, qty: real): real
  {
    match m
    case Entry => qty
    case Exit => -qty
  }

  /** One row of `store_logs`. `unit` and `site` are nullable columns. */
  datatype StoreRow = StoreRow(
    id: nat,
    item: string,
    unit: Option<string>,
    qty: real,
    transType: string,
    site: Option<string>,
    timestamp: Timestamp)

  /** The row the store form adds: it sets item, qty and trans_type only,
      so `unit` and `site` stay NULL (main.py:152). */
  function FormRow(id: nat, item: string, qty: real, m: Movement, at: Timestamp): StoreRow
  {
    StoreRow(id, item, None, qty, Label(m), None, at)
  }

  /** What every row of a table written only by the store form looks like:
      ids numbered from 1 in insertion order, a quantity the form accepts,
      one of the two radio labels, and NULL unit and site. */
  predicate WellFormed(log: seq<StoreRow>)
  {
    forall i :: 0 <= i < |log| ==>
      && log[i].id == i + 1
      && log[i].qty >= MinQty
      && (log[i].transType == EntryLabel || log[i].transType == ExitLabel)
      && log[i].unit == None
      && log[i].site == None
  }

  /** The `val` the stock tab gives one row: the exact text "Entry" adds,
      every other text subtracts (main.py:111). */
  function Signed(r: StoreRow): real
  {
    if r.transType == EntryLabel then r.qty else -r.qty
  }

  /** The `val` column, row by row. */
  function Values(log: seq<StoreRow>): seq<real>
  {
    seq(|log|, i requires 0 <= i < |log| => Signed(log[i]))
  }

  function Sum(xs: seq<real>): real
  {
    if xs == [] then 0.0 else Sum(xs[..|xs| - 1]) + xs[|xs| - 1]
  }

  /** The rows that record movements of `item`, in table order. */
  function RowsFor(log: seq<StoreRow>, item: string): seq<StoreRow>
  {
    if log == [] then []
    else
      var rest := RowsFor(log[..|log| - 1], item);
      if log[|log| - 1].item == item then rest + [log[|log| - 1]] else rest
  }

  /** The on-hand balance of `item`: the sum of the signed values of exactly
      the rows that name it. */
  function Balance(log: seq<StoreRow>, item: string): real
  {
    Sum(Values(RowsFor(log, item)))
  }

  /** The distinct item names that occur in the table. */
  function Items(log: seq<StoreRow>): set<string>
  {
    set i | 0 <= i < |log| :: log[i].item
  }

  /** `groupby('item').agg({'val': 'sum'})` (main.py:112), as a fold that
      adds each row's value to its item's running total. */
  function Summary(log: seq<StoreRow>): map<string, real>
  {
    if log == [] then map[]
    else
      var before := Summary(log[..|log| - 1]);
      var r := log[|log| - 1];
      before[r.item := (if r.item in before then before[r.item] else 0.0) + Signed(r)]
  }

  /** Total quantity received for `item`: rows labelled exactly "Entry". */
  function Received(log: seq<StoreRow>, item: string): real
  {
    if log == [] then 0.0
    else
      var r := log[|log| - 1];
      Received(log[..|log| - 1], item) + (if r.item == item && r.transType == EntryLabel then r.qty else 0.0)
  }

  /** Total quantity issued for `item`: every row of it not labelled "Entry". */
  function Issued(log: seq<StoreRow>, item: string): real
  {
    if log == [] then 0.0
    else
      var r := log[|log| - 1];
      Issued(log[..|log| - 1], item) + (if r.item == item && r.transType != EntryLabel then r.qty else 0.0)
  }

  /** What the stock tab shows: the "No stock data yet." notice for an empty
      table, otherwise the inventory-levels chart of the summary (main.py:110-114). */
  datatype StockTab = NoStockData | InventoryLevels(levels: map<string, real>)

  function StockTabView(log: seq<StoreRow>): (t: StockTab)
    ensures t.NoStockData? <==> log == []
    ensures t.InventoryLevels? ==> t.levels.Keys == Items(log) && |t.levels| > 0
    ensures t.InventoryLevels? ==> forall x :: x in t.levels ==> t.levels[x] == Balance(log, x)
  {
    if log == [] then NoStockData
    else
      SummaryIsBalance(log);
      assert log[0].item in Items(log);
      InventoryLevels(Summary(log))
  }

  // ---------------------------------------------------------------------
  // Lemmas

  lemma {:induction false} SumAppend(xs: seq<real>, v: real)
    ensures Sum(xs + [v]) == Sum(xs) + v
  {
    assert (xs + [v])[..|xs|] == xs;
  }

  /** Adding one row changes only that row's item: up by its quantity when
      it is labelled exactly "Entry", down by it under any other label. */
  lemma {:induction false} BalanceAppend(log: seq<StoreRow>, r: StoreRow, x: string)
    ensures Balance(log + [r], x)
         == Balance(log, x) + (if r.item != x then 0.0 else if r.transType == EntryLabel then r.qty else -r.qty)
  {
    assert (log + [r])[..|log|] == log;
    var rs := RowsFor(log, x);
    if r.item == x {
      assert RowsFor(log + [r], x) == rs + [r];
      assert Values(rs + [r]) == Values(rs) + [Signed(r)];
      SumAppend(Values(rs), Signed(r));
    } else {
      assert RowsFor(log + [r], x) == rs;
    }
  }

  /** A row the store form adds keeps a form-written table well formed. */
  lemma WellFormedAppend(log: seq<StoreRow>, item: string, qty: real, m: Movement, at: Timestamp)
    requires WellFormed(log)
    requires qty >= MinQty
    ensures WellFormed(log + [FormRow(|log| + 1, item, qty, m, at)])
  {
    var next := log + [FormRow(|log| + 1, item, qty, m, at)];
    forall i | 0 <= i < |log| ensures next[i] == log[i] { }
  }

  /** The store form's row for `m` moves its own item by `Delta(m, qty)` and
      no other item at all. */
  lemma FormRowDelta(log: seq<StoreRow>, id: nat, item: string, qty: real, m: Movement, at: Timestamp, y: string)
    ensures Balance(log + [FormRow(id, item, qty, m, at)], y)
         == Balance(log, y) + (if y == item then Delta(m, qty) else 0.0)
  {
    BalanceAppend(log, FormRow(id, item, qty, m, at), y);
  }

  /** An item that never occurs in the table has a zero balance. */
  lemma {:induction false} BalanceOfAbsentItem(log: seq<StoreRow>, x: string)
    requires x !in Items(log)
    ensures Balance(log, x) == 0.0
  {
    if log != [] {
      var init := log[..|log| - 1];
      assert Items(init) <= Items(log) by {
        forall y | y in Items(init) ensures y in Items(log) {
          var i :| 0 <= i < |init| && init[i].item == y;
          assert log[i].item == y;
        }
      }
      BalanceOfAbsentItem(init, x);
      assert log == init + [log[|log| - 1]];
      assert log[|log| - 1].item in Items(log);
      BalanceAppend(init, log[|log| - 1], x);
    }
  }

  lemma ItemsAppend(log: seq<StoreRow>, r: StoreRow)
    ensures Items(log + [r]) == Items(log) + {r.item}
  {
    var a := log + [r];
    forall y | y in Items(a) ensures y in Items(log) + {r.item} {
      var i :| 0 <= i < |a| && a[i].item == y;
      if i < |log| { assert log[i].item == y; }
    }
    forall y | y in Items(log) ensures y in Items(a) {
      var i :| 0 <= i < |log| && log[i].item == y;
      assert a[i].item == y;
    }
    assert a[|log|].item == r.item;
  }

  /** The grouped sum has one entry per distinct item name, and each entry
      is that item's balance. */
  lemma {:induction false} SummaryIsBalance(log: seq<StoreRow>)
    ensures Summary(log).Keys == Items(log)
    ensures forall x :: x in Summary(log) ==> Summary(log)[x] == Balance(log, x)
  {
    if log != [] {
      var init, r := log[..|log| - 1], log[|log| - 1];
      assert log == init + [r];
      SummaryIsBalance(init);
      ItemsAppend(init, r);
      forall x | x in Summary(log) ensures Summary(log)[x] == Balance(log, x) {
        BalanceAppend(init, r, x);
        if x == r.item && x !in Summary(init) {
          BalanceOfAbsentItem(init, x);
        }
      }
    }
  }

  /** The balance of a table is the sum of the balances of any two parts it is cut into. */
  lemma {:induction false} BalanceSplit(a: seq<StoreRow>, b: seq<StoreRow>, x: string)
    ensures Balance(a + b, x) == Balance(a, x) + Balance(b, x)
  {
    if b == [] {
      assert a + b == a;
    } else {
      var init, r := b[..|b| - 1], b[|b| - 1];
      assert b == init + [r];
      assert a + b == (a + init) + [r];
      BalanceSplit(a, init, x);
      BalanceAppend(a + init, r, x);
      BalanceAppend(init, r, x);
    }
  }

  /** Taking row `i` out of a table changes the balance by that row's value alone. */
  lemma BalanceRemove(b: seq<StoreRow>, i: nat, x: string)
    requires i < |b|
    ensures Balance(b, x) == Balance(b[..i] + b[i + 1..], x) + Balance([b[i]], x)
  {
    var before, after := b[..i], b[i + 1..];
    assert b == before + [b[i]] + after;
    BalanceSplit(before + [b[i]], after, x);
    BalanceSplit(before, [b[i]], x);
    BalanceSplit(before, after, x);
  }

  lemma MultisetRemove(b: seq<StoreRow>, i: nat)
    requires i < |b|
    ensures multiset(b[..i] + b[i + 1..]) == multiset(b) - multiset{b[i]}
  {
    assert b == b[..i] + [b[i]] + b[i + 1..];
    assert multiset(b) == multiset(b[..i]) + multiset{b[i]} + multiset(b[i + 1..]);
  }

  /** The balance does not depend on the order the database returns the rows in. */
  lemma {:induction false} BalanceIgnoresOrder(a: seq<StoreRow>, b: seq<StoreRow>, x: string)
    requires multiset(a) == multiset(b)
    ensures Balance(a, x) == Balance(b, x)
    decreases |a|
  {
    if a == [] {
      assert |b| == |multiset(b)| == 0;
    } else {
      var k := |a| - 1;
      assert a[k] in multiset(b);
      var i :| 0 <= i < |b| && b[i] == a[k];
      MultisetRemove(a, k);
      MultisetRemove(b, i);
      assert a[..k] + a[k + 1..] == a[..k];
      BalanceIgnoresOrder(a[..k], b[..i] + b[i + 1..], x);
      BalanceRemove(a, k, x);
      BalanceRemove(b, i, x);
    }
  }

  /** Conservation: a balance is what was received minus what was issued. */
  lemma {:induction false} BalanceIsReceivedMinusIssued(log: seq<StoreRow>, x: string)
    ensures Balance(log, x) == Received(log, x) - Issued(log, x)
  {
    if log != [] {
      var init, r := log[..|log| - 1], log[|log| - 1];
      assert log == init + [r];
      BalanceIsReceivedMinusIssued(init, x);
      BalanceAppend(init, r, x);
    }
  }

  /** In a table the form wrote, no total is negative, so a balance lies
      between minus everything issued and everything received. */
  lemma {:induction false} BalanceBounds(log: seq<StoreRow>, x: string)
    requires WellFormed(log)
    ensures 0.0 <= Received(log, x) && 0.0 <= Issued(log, x)
    ensures -Issued(log, x) <= Balance(log, x) <= Received(log, x)
  {
    if log != [] {
      var init := log[..|log| - 1];
      assert WellFormed(init) by {
        forall i | 0 <= i < |init| ensures init[i] == log[i] { }
      }
      BalanceBounds(init, x);
    }
    BalanceIsReceivedMinusIssued(log, x);
  }

  /** Nothing guards an Exit: it is recorded whatever the balance, and an
      Exit larger than the balance leaves the item below zero. */
  lemma ExitCanOverdraw(log: seq<StoreRow>, id: nat, item: string, qty: real, at: Timestamp)
    requires Balance(log, item) < qty
    ensures Balance(log + [FormRow(id, item, qty, Exit, at)], item) < 0.0
  {
    FormRowDelta(log, id, item, qty, Exit, at, item);
  }
}
