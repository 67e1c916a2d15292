# Inventory ledger of the book stock app

This project models the inventory ledger of a single-page book stock app
(`streamlit_app.py`). The app keeps two worksheets. The Inventory sheet has
one row per ISBN with the columns author, price, Title and qty. The
Transactions sheet is an append-only log of `[Date, ISBN, Title, Change, Type]`
rows. Three tabs change the stock:

- inbound (입고) creates a row for a new ISBN or raises the quantity of a listed one;
- outbound (출고) and Paju-outbound (파주출고) reject an unregistered ISBN
  (등록되지 않은 ISBN) or a request larger than the stock (재고 부족), and
  otherwise lower the quantity.

After each accepted change the whole table is saved to the Inventory sheet,
and then one transaction row is appended. Two read-only views are derived
from the log. The IN and OUT history tables show the records of that type,
newest Date first. The Paju summary groups the OUT-PAJU records by
(ISBN, Title) and reports the negated sum of Change.

Modules:

- `Records` (records.dfy): the entities. A `Row` is an inventory row, a `Txn`
  a transaction row. The three type tags are `IN`, `OUT` and `OUT-PAJU`. The
  `Outcome` of an outbound request is `Ok`, `UnknownIsbn` or
  `InsufficientStock`. A `Table` is the in-memory inventory: its row labels in
  table order, and a map from label to row.
- `Sheets` (sheets.dfy): the Inventory worksheet as cells. `Rendered` is what
  `save_inventory` writes: the header, then one row per label in table order.
  `LoadInventory` is `load_inventory`. It is proved to be the exact inverse of
  saving, in both directions.
- `Views` (views.dfy): the filter by Type, the sort by Date in Python's string
  order, the history views and the Paju summary, with their lemmas.
- `Inventory` (inventory.dfy): the class `Ledger`. It holds the in-memory
  table `inv`, the Inventory sheet `invSheet` and the Transactions sheet `log`,
  and has the methods `Inbound`, `Outbound`, `PajuOutbound` (through the shared
  `Withdraw`), `SaveInventory` and `LogTransaction`. Its invariant `Valid()`
  says three things. The table is well formed and equals what the sheet holds.
  Every record appended since the load names a listed ISBN and is well
  signed: an IN record has Change at least 1, an OUT or OUT-PAJU record at
  most -1. Each ISBN's
  quantity equals its quantity at load (0 for an ISBN added since) plus the sum
  of Change over the records appended for it.

The current time (`datetime.now()`) is a parameter `now` of each mutation.
The Google Sheets service is replaced by the two fields `invSheet` and `log`.
The widget bounds become preconditions: quantities are at least 1 and a new
price is at least 0.

`load_inventory` fails on a sheet that holds only the header. The data frame
built from zero records has no `ISBN` column, so `df['ISBN']` raises KeyError.
`LoadInventory` is therefore `None` for such a sheet. The Transactions sheet
fails the same way: with no records there is no `Type` column, so the filters
of the history views and of `load_paju_summary` raise KeyError. `History` and
`LoadPajuSummary` are therefore `None` for an empty log. The round trip
`LoadRendered` holds for every non-empty table, and a loaded ledger never
becomes empty because rows are never deleted.

## Model

| member | source | states |
|---|---|---|
| `Sheets.RowCells` | streamlit_app.py:49-50 | the cells written for one inventory entry parse back to that ISBN and row |
| `Sheets.ParseRowCells` | streamlit_app.py:24-27 | a data row that parses is exactly the cells written for the entry it parses to |
| `Sheets.DataRows` | streamlit_app.py:49-50 | one data row is written per label of the table |
| `Sheets.LoadRows` | streamlit_app.py:24-27 | loading data rows yields a table with unique labels, exactly the keys of its rows, one label per data row |
| `Sheets.LoadInventory` | streamlit_app.py:24-27 | a loaded table is well formed and has one label per data row, and a sheet with no data rows does not load |
| `Sheets.LoadRowsSnoc` | streamlit_app.py:24-27 | one more well-formed row with a new ISBN appends that label and its row to the loaded table |
| `Sheets.LoadDataRows` | streamlit_app.py:24-27 | loading the rows written for distinct labels gives back those labels, in order, with their rows |
| `Sheets.LoadRendered` | streamlit_app.py:45-50 | saving a non-empty table and loading the sheet back gives the same table |
| `Sheets.RenderLoaded` | streamlit_app.py:24-27 | a sheet that loads is cell for cell the sheet that saving the loaded table writes |
| `Views.OfType` | streamlit_app.py:86 | the filter on Type keeps every record of that type exactly as often as the log has it, and no record of another type |
| `Views.OfTypeAppend` | streamlit_app.py:55 | appending a record to the log appends it to the filtered view of its own type only |
| `Views.StrLeTotal` | streamlit_app.py:87 | any two Dates are ordered one way or the other by Python string comparison |
| `Views.StrLeTrans` | streamlit_app.py:87 | Python string order on Dates is transitive |
| `Views.InsertByDate` | streamlit_app.py:87 | inserting a record adds exactly that record and keeps a newest-first sequence newest first |
| `Views.SortByDateDesc` | streamlit_app.py:87 | sorting by Date descending is a permutation whose Dates never increase |
| `Views.History` | streamlit_app.py:84-88 | None exactly when the log has no records (no Type column, KeyError); otherwise the IN/OUT history view holds every log record of that Type exactly as often as the log has it, nothing else, newest Date first |
| `Views.GroupSumAppend` | streamlit_app.py:39-40 | a group's sum grows by the Change of an appended record of that group only |
| `Views.GroupSumAbsent` | streamlit_app.py:39-40 | a group with no records sums to 0 |
| `Views.NegatedSumsAppend` | streamlit_app.py:37-42 | an appended record subtracts its Change from its own (ISBN, Title) group, creating it if absent, and no other group changes |
| `Views.PajuSummary` | streamlit_app.py:36-42 | filter on OUT-PAJU, group by (ISBN, Title), negate each group's sum of Change; its properties are stated by `PajuSummaryKeys`, `PajuSummaryOtherType`, `PajuSummaryAppend`, `PajuSummaryPositive` and `PajuSummaryExample` |
| `Views.LoadPajuSummary` | streamlit_app.py:33-43 | None exactly when the log has no records (no Type column, KeyError); otherwise the Paju summary of the log |
| `Views.PajuSummaryKeys` | streamlit_app.py:36-39 | the summary has an entry for a pair exactly when some OUT-PAJU record has that ISBN and Title |
| `Views.PajuSummaryOtherType` | streamlit_app.py:36 | appending a record of another type leaves the Paju summary unchanged |
| `Views.PajuSummaryAppend` | streamlit_app.py:33-43 | appending an OUT-PAJU record raises its pair's value by the negated Change and changes no other entry |
| `Views.GroupSumNegative` | streamlit_app.py:40 | a non-empty group of records with Change at most -1 sums to at most -1 |
| `Views.PajuSummaryPositive` | streamlit_app.py:33-43 | when every OUT-PAJU record has Change at most -1, every summary value is at least 1 |
| `Views.PajuSummaryExample` | streamlit_app.py:33-43 | OUT-PAJU records of -3 and -2 for ("111", "T") summarise to 5 |
| `Inventory.NetChangeAppend` | streamlit_app.py:55 | an appended record changes the net Change of its own ISBN by its Change and of no other ISBN |
| `Inventory.NetChangeAbsent` | streamlit_app.py:77-78 | an ISBN with no records has net Change 0 |
| `Inventory.NetChangeRun` | streamlit_app.py:80-82 | records of one ISBN with quantities q1..qn net to q1 + ... + qn |
| `Inventory.Ledger.constructor` | streamlit_app.py:63-64 | loading establishes the ledger invariant, with the loaded table, the sheet as given, the log as given and the loaded quantities as opening quantities |
| `Inventory.Ledger.SaveInventory` | streamlit_app.py:45-50 | after the save the Inventory sheet is the header followed by one row per label in table order |
| `Inventory.Ledger.LogTransaction` | streamlit_app.py:52-55 | the log gains exactly the row [now, ISBN, Title, Change, Type] at its end |
| `Inventory.Ledger.Inbound` | streamlit_app.py:76-83 | a listed ISBN's qty rises by the amount; a new ISBN gets one row (author, price, Title, qty) appended; no other row changes; the sheet is saved; one IN record with the title now in the table is logged; the ledger invariant holds |
| `Inventory.Ledger.Withdraw` | streamlit_app.py:95-102 | for type OUT or OUT-PAJU: unknown ISBN and short stock are rejected (each iff its condition) with table, sheet and log unchanged; otherwise qty drops by exactly the amount and stays at least 0, nothing else changes, the sheet is saved, one record with Change -qty is logged |
| `Inventory.Ledger.Outbound` | streamlit_app.py:94-103 | as Withdraw with type OUT, and the Paju summary is unchanged |
| `Inventory.Ledger.PajuOutbound` | streamlit_app.py:114-123 | as Withdraw with type OUT-PAJU, and the Paju summary of (ISBN, Title) grows by exactly the amount with no other entry changed |
| `Inventory.Ledger.SessionPajuSummaryPositive` | streamlit_app.py:119-122 | with the ledger invariant, every Paju summary value of the records appended since the load is at least 1 |
| `Inventory.Ledger.InboundRunTotal` | streamlit_app.py:76-82 | after a session of inbounds only, all of one ISBN new since the load, that ISBN is listed with qty equal to the sum of the inbound quantities, each at least 1 |
| `Inventory.Ledger.KeepsLedger` | streamlit_app.py:80-82 | a one-row mutation by a Change, followed by one logged record of that Change, restores the ledger invariant |

## Left out

- Google Sheets access (authorisation, opening the spreadsheet and worksheets, `get_all_records`, `clear`, `append_row`) is not modelled. The two worksheets are the fields `invSheet` and `log`, and every call to the service is taken to succeed.
- The `출고` worksheet handle `ws_paju` is opened but never used, so it is not modelled.
- The Streamlit UI is not modelled: tabs, inputs, success and error messages, the data frames shown, and the column rename of the current-stock tab. Only the numeric bounds of the inputs are kept, as preconditions.
- `st.cache_data` memoisation is not modelled. In the app, each rerun gets a fresh copy of the cached table as first loaded, so a change saved in one rerun is not seen by the next one until the cache is cleared. The model keeps one table across operations. `LoadRendered` shows that, in the model, this equals reloading the sheet after each save. In the app a reload can differ, as the next line says.
- `datetime.now()` is a parameter. The Date format is not modelled; the history sort compares Dates as strings, as pandas does for text cells.
- Concurrent sessions and the non-atomic save-then-log order are not modelled. A failed append after a successful save is not represented, because the model has no failing service.
- Inventory.Ledger.Inbound: requires a non-empty ISBN when it is not yet listed. The app raises `NameError` there, because the new-book fields are only defined for a non-empty ISBN (lines 71-78).
- `gspread`, `pd` and `datetime` are used but not imported, which is a runtime defect of the script. The model assumes they are available.
- Sheets.LoadInventory: reads only the layout that `save_inventory` writes. That is a header of ISBN, author, price, Title, qty, with text and number cells in those places. Other sheets are `None`. A `Cell` keeps the kind it was written with, but `get_all_records` turns digit-only text into numbers. So in the app an ISBN-10 such as "0306406152" reloads as "306406152" after `astype(str)` (leading zero lost), and a Title such as "1984" reloads as a number; the model does not capture this loss. A sheet that repeats an ISBN is `None`. In the app only lookups of the repeated label go wrong (`.at` returns a Series, and the stock comparison then raises).
- Inventory.Ledger.Outbound, Inventory.Ledger.PajuOutbound: can be called while the log has no records. In the app, line 86 raises KeyError on such a log on every rerun, before tabs 2 and 3 are drawn, so neither operation is reachable until the cached log holds a record. Inbound, whose button is handled before line 86, still runs.
- Views.SortByDateDesc: fixes the order of records with equal Dates. pandas' default sort is not stable, so that order is not promised.
- Views.PajuSummary is a map from (ISBN, Title) to the total. The order of the rows `groupby` returns (sorted by key) is not modelled.
