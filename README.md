# EGMS stock ledger, login table and site directory

EGMS is a Streamlit app for managing construction sites. Its only logic with
behaviour worth stating is a small stock ledger. The store clerk's form
appends one `store_logs` row per submission, typed "Entry" or "Exit". The
director's stock tab turns each row into a signed value and sums those per
item to show on-hand levels. Two smaller pure pieces sit beside it: the
login lookup in a fixed user table, and `get_sites_dict`, which turns the
`sites` rows into a name → (lat, lon) dictionary.

Modules:

- `Optional` (optional.dfy): `Option`, for NULL columns and failed lookups.
- `Ledger` (ledger.dfy): the `StoreRow` record and the balance, defined as
  the sum of the signed values of exactly the rows naming the item. It also
  holds the grouped summary as the program computes it (a fold into a map),
  the stock tab's two outcomes, and the lemmas that connect them.
- `StoreTable` (store_table.dfy): the append-only table as a class whose
  `Save` method is the store form's submission.
- `Login` (login.dfy): the `access` table, the credential check and the
  session update on success.
- `Sites` (sites.dfy): the `sites` rows and `get_sites_dict`.

The ledger is exactly what main.py does. Every Exit is recorded and counts
as a subtraction, whatever the current balance. Nothing keeps a balance from
going negative (`Ledger.ExitCanOverdraw`, `StoreTable.ExitBeyondStock`).
The system's design also speaks of custody handovers and returns, a worker
registry, waste records and stock-sufficiency checks. None of these exists
in main.py, so this model follows the code and has none of them.

Quantities are `real`. The form's number input accepts nothing below 0.1
(main.py:148), so `Save` requires `qty >= 0.1`. The radio button offers only
"Entry" and "Exit" (main.py:149), so `Save` takes a `Movement`. The balance
itself works on the stored text: only the exact text "Entry" adds, and any
other text subtracts (main.py:111). Row ids are numbered 1, 2, … in
insertion order. That is what SQLite assigns to an integer primary key in a
table that is never deleted from.

## Model

| member | source | states |
|---|---|---|
| `Ledger.BalanceAppend` | main.py:111-112 | adding a row moves only its own item's balance: up by `qty` when `trans_type` is exactly "Entry", down by `qty` under any other text; every other item's balance is unchanged |
| `Ledger.FormRowDelta` | main.py:149-153 | the row the store form adds moves its item by `+qty` for Entry and `-qty` for Exit, and no other item at all |
| `Ledger.WellFormedAppend` | main.py:146-153 | appending the form's row keeps the table form-written: ids 1..n in order, every `qty` at least 0.1, label "Entry" or "Exit", NULL unit and site |
| `Ledger.SummaryIsBalance` | main.py:111-112 | the group-by-item sum has exactly one entry per distinct item name in the table, and that entry equals the item's balance |
| `Ledger.StockTabView` | main.py:110-114 | an empty table gives the "No stock data yet" notice and nothing else; a non-empty one gives a non-empty chart whose keys are the items present and whose values are their balances |
| `Ledger.BalanceOfAbsentItem` | main.py:112 | an item with no rows has balance zero |
| `Ledger.BalanceSplit` | main.py:112 | the balance of a table cut in two is the sum of the two parts' balances |
| `Ledger.BalanceRemove` | main.py:112 | removing one row changes the balance by that row's own contribution only |
| `Ledger.BalanceIgnoresOrder` | main.py:109-112 | two tables holding the same rows in any order give every item the same balance |
| `Ledger.BalanceIsReceivedMinusIssued` | main.py:111-112 | conservation: balance = total quantity labelled "Entry" − total quantity under every other label |
| `Ledger.BalanceBounds` | main.py:148 | in a form-written table both totals are non-negative, and the balance lies between −(total issued) and (total received) |
| `Ledger.ExitCanOverdraw` | main.py:149-153 | an Exit larger than the current balance is still recorded and leaves the item's balance below zero |
| `StoreTable.StoreLogTable.Save` | main.py:150-153 | appends exactly one row (the next id, item, qty and label, NULL unit and site), leaves every earlier row as it was, keeps the table well formed, moves the item's balance by `+qty`/`-qty` and no other item's |
| `StoreTable.ExitBeyondStock` | main.py:146-153 | receiving 10 of an item and then issuing 25 succeeds, and the balance shown is −15 |
| `Login.CheckLogin` | main.py:79-80 | login succeeds iff the user name is a key of `access` and the password equals its stored password; on success the role is that entry's role |
| `Login.LoginAcceptsExactlyListedPairs` | main.py:79-80 | in either language, exactly the five (user, password) pairs of the table log in |
| `Login.PasswordsAreNotShared` | main.py:79 | a password that logs in one user logs in no other |
| `Login.RoleIdentifiesUser` | main.py:79 | two successful logins with the same role are the same account |
| `Login.StoreRoleIsMagaza` | main.py:79-80 | the "Store" role, which opens the store form, is granted only to "magaza" with "store2025" |
| `Login.DirectorRoleDependsOnLanguage` | main.py:79 | "admin" gets the director label of the language chosen at login, and the two labels differ |
| `Login.SessionState.Enter` | main.py:78-81 | on a match the session becomes logged in with the entry's role; otherwise the session is unchanged |
| `Sites.SitesDict` | main.py:68-72 | the dictionary's keys are exactly the stored site names |
| `Sites.LastRowWins` | main.py:72 | each name maps to the coordinates of the last row that carries it |
| `Sites.SitesDictLookup` | main.py:16 | with unique names, every stored site maps to its own (lat, lon) |
| `Sites.SitesDictSize` | main.py:68-72 | with unique names, the dictionary has exactly one entry per stored site |

## Left out

- Streamlit presentation: the language selector and `LANG` (apart from the director label the access table uses), tabs, forms, `st.rerun`, success and info messages. Logout (`session_state.clear`, main.py:86) and the dispatch on the role (main.py:84-91, 127-144) are left out too.
- SQLAlchemy engine and sessions, and `pd.read_sql` (main.py:44-46, 108-109): the table is an in-memory sequence, and reading it yields all its rows.
- The Plotly bar chart and `st.map` (main.py:113, 121): the stock tab's result is the summary as a map. The ordering of the bars (group-by sorts by item name) is not modelled.
- `WorkLog`, `SafetyLog`, `EquipmentLog` and the site-add form (main.py:19-42, 102-105, 137-141). These are plain inserts. A duplicate site name is refused by the database, which the model takes as the `UniqueNames` precondition.
- Floating point: `qty` is a `real`, and pandas' rounding in the sum is not modelled.
- `datetime.utcnow` timestamps: the caller passes an opaque `Timestamp` in.
- Site coordinates are values of an arbitrary type; nothing is computed on them.
- NULL item names: pandas' group-by would drop them, but the form always supplies a string, so item names are never NULL here.
