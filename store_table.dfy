/** The persistent `store_logs` table as the store clerk's form fills it
    (main.py:143-153). The table only ever grows: the program never updates
    or deletes a row. */
module StoreTable {
  import opened Ledger

  class StoreLogTable {
    var rows: seq<StoreRow>

    ghost predicate Valid()
      reads this
    {
      WellFormed(rows)
    }

    constructor ()
      ensures Valid() && rows == []
    {
      rows := [];
    }

    /** Saving the store form: one row is added for the item, quantity and
        movement type the clerk entered, with no check against the item's
        current balance (main.py:150-153). */
    method Save(item: string, qty: real, kind: Movement, at: Timestamp) returns (row: StoreRow)
      requires Valid()
      requires qty >= MinQty
      modifies this
      ensures Valid()
      ensures row == FormRow(|old(rows)| + 1, item, qty, kind, at)
      ensures rows == old(rows) + [row]
      ensures Balance(rows, item) == old(Balance(rows, item)) + Delta(kind, qty)
      ensures forall y :: y != item ==> Balance(rows, y) == old(Balance(rows, y))
    {
      row := FormRow(|rows| + 1, item, qty, kind, at);
      WellFormedAppend(rows, item, qty, kind, at);
      forall y {
        FormRowDelta(rows, |rows| + 1, item, qty, kind, at, y);
      }
      rows := rows + [row];
    }
  }

  /** A clerk who receives 10 bags of cement and then issues 25 is not
      stopped: the stock tab then shows -15. */
  method ExitBeyondStock() returns (balance: real)
    ensures balance == -15.0
  {
    var table := new StoreLogTable();
    var _ := table.Save("Cement", 10.0, Entry, Timestamp(0));
    var _ := table.Save("Cement", 25.0, Exit, Timestamp(1));
    balance := Balance(table.rows, "Cement");
  }
}
