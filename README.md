# Kebab inventory ledger

A Dafny model of the ledger inside `Main.py`, a Kivy application that keeps the stock of six kinds of kebab skewer. The app holds:

- a fixed, ordered catalog of product names;
- the session date;
- five product-to-count tables: initial stock, production, shipments, returns and final stock.

Final stock is derived as initial + production + returns − shipments for each catalog product.

The user edits one input table at a time through a form of text boxes. The ledger is saved to a line-oriented text file (`DATE:`, then `INIT:`/`PROD:`/`SHIP:`/`RET:` records) and read back at start-up. The app also renders an HTML report and, in the full report, a total of final stock with a tick or a cross per product.

## Modules

- `seqfacts.dfy` (`SeqFacts`): generic facts about sequence slices and concatenation.
- `pystr.dfy` (`PyStr`): the Python string and integer primitives the ledger uses: `str.isspace`, `strip()`, `split(sep)`, `str(int)`, and `int(str)` on base-10 text. It also defines what one input box asks for.
- `inventory.dfy` (`Inventory`): the ledger data.
  - A table is a dict: insertion order plus a map. `d[k] = v` keeps an existing key in place and appends a new one.
  - A `Snapshot` is the date plus the five tables.
  - Also here: the fresh ledger, `calculate_final_inventory` as `Recompute`, and `save_input_data` as `Edit`.
  - The ledger invariant is `Consistent`, and what holds from construction on is `WellFormed`.
- `persistence.dfy` (`Persistence`): the file.
  - `SaveLines`/`SaveText` give what `save_data` writes.
  - `ReadLine`, `ApplyLines` and `Load` give how `load_data` reads it.
  - Also the round trip: loading what was saved restores the date and the four input tables, and re-derives final stock.
- `report.dfy` (`Report`): the HTML page of `export_to_html`, and the total and marks of the final-stock section of `show_full_report`.
- `app.dfy` (`App`): the class `KebabInventoryApp`. Its fields are the catalog, the date and the five tables, and its methods update them in place with the loops of the source. Each method is proved against the functions above through `State()`, the `Snapshot` its fields hold.

Two behaviours of the code shape much of the model:

- **Edits are not atomic.** When a box fails `int()`, the boxes before it stay written and the boxes after it are not read. Final stock is not re-derived, so it can disagree with the input tables until the next successful edit or load.
- **A bad count aborts the load.** The first record whose count fails `int()` ends the load through the bare `except`. The lines before it stay applied. No later line is applied, not even a later `DATE:` line, and final stock is not re-derived.

## Model

| member | source | states |
|---|---|---|
| PyStr.IsSpace | Main.py:164 | `str.isspace()` for one character: the ASCII controls `\t` to `\r` and U+001C to U+001F, the space, and the Unicode whitespace characters; it decides what `strip()` removes |
| PyStr.Strip | Main.py:164 | `str.strip()`: the text without its leading and trailing whitespace; characterised by `StripEmpty`, `StripIdempotent` and `StripKeepsPrefix` |
| PyStr.StripEmpty | Main.py:164-165 | `strip()` leaves nothing exactly when every character is whitespace, so `if value:` skips exactly the all-whitespace boxes |
| PyStr.StripIdempotent | Main.py:164 | stripping twice is stripping once |
| PyStr.Split | Main.py:287 | the pieces of `split(sep)` join back with `sep` to the original text, and no piece holds `sep` |
| PyStr.SplitJoin | Main.py:289 | splitting pieces joined by a separator none of them holds gives the pieces back |
| PyStr.SplitUnlines | Main.py:266-275 | the text of lines each ended by a newline, cut at newlines, gives the lines back followed by one empty piece |
| PyStr.Show | Main.py:269 | `str(n)`: ASCII digits, with a leading `-` exactly for a negative `n`, and no leading zero except in `0` itself; `ParseShow` reads it back |
| PyStr.ParseInt | Main.py:166 | `int(text)` on base-10 text: it skips its own whitespace at both ends, which is that of `str.isspace` except the ASCII separators U+001C to U+001F; then an optional sign and at least one ASCII digit give the integer, and anything else the ValueError (`None`); characterised by `ParseShow`, `ParseRejectsLetter` and `ParseRejectsSeparator` |
| PyStr.ParseShow | Main.py:269 | `int(str(n)) == n` for every integer `n` |
| PyStr.ParseRejectsLetter | Main.py:166 | a box whose text starts with a lower-case ASCII letter makes `int()` raise ValueError |
| PyStr.ParseRejectsSeparator | Main.py:291 | text starting with one of U+001C to U+001F makes `int()` raise ValueError, although `strip()` counts that character as whitespace; a record's count field is not stripped at its start, so such a count aborts the load |
| PyStr.ReadField | Main.py:164-166 | one box: skipped when its stripped text is empty, otherwise `int()` of it, or the ValueError; characterised by `ReadFieldMeaning` |
| PyStr.ReadFieldMeaning | Main.py:164-166 | a box is skipped exactly when its text is all whitespace; otherwise its stripped text, which `int()` finds no whitespace around, is read as an optional sign and digits, and the box raises ValueError when it is not one |
| Inventory.Table.Set | Main.py:166 | `d[k] = v`: `k` maps to `v` and every other key keeps its value; an existing key keeps its place, a new key goes last; a valid dict stays valid |
| Inventory.SetAll | Main.py:288-303 | a run of `d[k] = v`, one key after another; characterised by `SetAllValues`, `SetAllOrder` and `SetAllRebuilds` |
| Inventory.SetAllValues | Main.py:288-303 | after writing a run of keys, the table holds its old keys and the written ones; a written key has its new value, any other key its old one |
| Inventory.SetAllOrder | Main.py:288-303 | writing distinct keys that extend the table's order, or are a prefix of it, leaves the longer order and a valid table |
| Inventory.SetAllRebuilds | Main.py:288-303 | writing every key of `u`, in `u`'s order, into a table whose keys are a prefix of `u`'s rebuilds `u` exactly |
| Inventory.Zeros | Main.py:30-34 | `products.copy()`: the catalog's keys in catalog order, each mapped to 0 |
| Inventory.Fresh | Main.py:29-34 | all five tables hold exactly the catalog, in catalog order, at 0; the ledger is well formed and satisfies the ledger invariant |
| Inventory.Recompute | Main.py:173-180 | afterwards final stock has exactly the catalog's keys in catalog order, each initial + production + returns − shipment; the date and the four input tables are unchanged |
| Inventory.RecomputeConsistent | Main.py:173-180 | re-deriving a ledger that already satisfies the invariant changes nothing |
| Inventory.RecomputeIgnoresFinal | Main.py:173-180 | the result does not depend on the final stock held before |
| Inventory.RecomputeIdempotent | Main.py:173-180 | `calculate_final_inventory` twice is the same as once |
| Inventory.ReadForm | Main.py:163-166 | one action per input box, in box order, carrying the box's product; an action is a skip exactly when the box is all whitespace, and otherwise writes the box's stripped text read as a sign and digits, or fails with ValueError when it is not one |
| Inventory.Entered | Main.py:162-166 | the ledger after the box loop, with the edited table replaced by the boxes applied in order, and whether the loop ran to the end; final stock is not touched here; characterised by `ApplyFieldsOk` and `ApplyFieldsStopsAtBad`, and computed by `StoreFields` |
| Inventory.ApplyField | Main.py:164-166 | one box reports failure exactly when it raises ValueError; it never removes or reorders a key, and keeps a valid dict valid |
| Inventory.ApplyFields | Main.py:163-166 | the boxes applied in order never remove or reorder a key, and keep a valid dict valid |
| Inventory.ApplyFieldsOk | Main.py:162-171 | an edit runs to the end exactly when no box raises ValueError |
| Inventory.ApplyFieldsSticky | Main.py:162-171 | once a box has raised ValueError, the boxes after it change nothing |
| Inventory.ApplyFieldsStopsAtBad | Main.py:162-171 | when box `i` is the first to raise ValueError, boxes `0..i-1` stay written, nothing after them is written, and the edit fails |
| Inventory.ApplyFieldsUntouched | Main.py:163-166 | a product that no box writes, because each of its boxes is blank, raises ValueError, or comes after a box that raised it, keeps its count whether or not the edit succeeds |
| Inventory.ApplyFieldsWritten | Main.py:163-166 | after a successful edit, each box holding an integer has stored it under its product |
| Inventory.Edit | Main.py:161-171 | an edit, successful or not, keeps the ledger well formed |
| Inventory.EditSucceedsIff | Main.py:161-171 | the success message is shown exactly when every box is blank or an integer |
| Inventory.EditFrame | Main.py:161-168 | an edit leaves the date and the three other input tables as they were; the edited table is the form's boxes applied to it |
| Inventory.EditFinal | Main.py:161-171 | after a successful edit the ledger invariant holds; after a failed one final stock is what it was before the edit |
| Persistence.EntryLine | Main.py:269-275 | the record `TAG:product:value` for one key of an input table; `ReadEntryLine` reads it back |
| Persistence.Block | Main.py:268-275 | one record per key, in the order given; characterised by `BlockLines` and `ReadBlock` |
| Persistence.TableBlock | Main.py:268-275 | what `save_data`'s loop over one input table writes: one record per key in the table's order; computed by `WriteBlock` |
| Persistence.BlockLines | Main.py:268-275 | line `i` of a table's block is `TAG:key_i:value_i`, with the `i`-th key in the table's order |
| Persistence.SaveLayout | Main.py:266-275 | the file is the `DATE:` line, then the initial, production, shipment and returns blocks in that order, each with one line per key |
| Persistence.SaveLines | Main.py:266-275 | the lines `save_data` writes; characterised by `SaveLayout`, `BlockLines` and `ReadSaved` |
| Persistence.SaveText | Main.py:266-275 | the file's text, each written line followed by a newline; `SplitUnlines` cuts it back into the lines, and `LoadSaved` loads it back |
| Persistence.ReadLine | Main.py:286-303 | what one line does to the ledger: `DATE:` first, then the four tags in source order, otherwise nothing; characterised by `ReadLineUnknown`, `RecordKindTag`, `ReadLineShort`, `ReadLineDateField` and `ReadEntryLine` |
| Persistence.ReadRecord | Main.py:289-303 | a tagged line's `:`-fields: fewer than three are skipped, else the second is the product and the third goes through `int()`, aborting the load when it raises; `ReadEntryLine` reads a written record back |
| Persistence.DateField | Main.py:287 | `line.strip().split(':')[1]`, which `DateHasField` shows always exists; characterised by `ReadLineDateField` and `ReadLineDate` |
| Persistence.RecordKind | Main.py:288-303 | a line is taken as a table's record only when it starts with that table's tag and a colon |
| Persistence.DateHasField | Main.py:286-287 | a line starting with `DATE:` always has a second `:`-field after `strip()`, so reading the date never fails |
| Persistence.ReadLines | Main.py:285-303 | `for line in f` over the file's text: the text cut at each newline, every piece read by `ReadLine`; `ReadSaved` reads a saved file with it |
| Persistence.ReadAllAppend | Main.py:285 | lines are read one at a time: reading two runs of lines is reading each in turn |
| Persistence.ReadLineUnknown | Main.py:286-303 | a line that starts neither with `DATE:` nor with any table's tag and a colon is ignored |
| Persistence.RecordKindTag | Main.py:286-303 | a line starting with a tag and a colon is read as that table's record, never as the date |
| Persistence.ReadLineShort | Main.py:289-290 | a tagged line with no second colon has fewer than three `:`-fields and is ignored, whatever follows the tag |
| Persistence.ReadLineDateField | Main.py:286-287 | a `DATE:` line sets the date to its second `:`-field and drops the rest |
| Persistence.ReadLineDate | Main.py:267-287 | the `DATE:` line as written reads back as the same date when the date has no colon and does not end in whitespace |
| Persistence.ReadLineDateLosesSpace | Main.py:267-287 | a date ending in a space, as `DATE:x :y` loads, is written as `DATE:x ` and read back without the space |
| Persistence.ReadLineSeparatorCount | Main.py:288-291 | a record whose count field starts with one of U+001C to U+001F, such as `INIT:a:\x1c5`, reads as a count `int()` rejects, so the load aborts: `strip()` does not reach that character inside the line, and `int()` does not skip it |
| Persistence.ReadEntryLine | Main.py:269-291 | a record line as written reads back as the same table, product and count when the product name has no colon |
| Persistence.ApplyLine | Main.py:286-303 | a line lets the load go on exactly when it is not a record whose count `int()` rejects; it never touches final stock |
| Persistence.ApplyLines | Main.py:285-303 | applying the file's lines never touches final stock |
| Persistence.ApplyLineKeepsWellFormed | Main.py:288-303 | a line never removes a catalog product from a table, so the ledger stays well formed |
| Persistence.ApplyLinesKeepsWellFormed | Main.py:285-303 | however many lines are applied, the ledger stays well formed |
| Persistence.Load | Main.py:281-307 | a missing file changes nothing; any load leaves the ledger well formed |
| Persistence.ApplyLinesOk | Main.py:285-307 | a load runs to the end exactly when no record has a count `int()` rejects |
| Persistence.ApplyLinesSticky | Main.py:290-307 | once the load has aborted, further lines change nothing |
| Persistence.ApplyLinesAppend | Main.py:285-303 | a load that got through one run of lines continues with the next from where the first left the ledger |
| Persistence.ApplyLinesStopsAtBad | Main.py:290-307 | the first bad count ends the load: the lines before it stay applied and no later line is looked at |
| Persistence.LoadStopsAtBadLine | Main.py:281-307 | a load that meets a bad count keeps the lines before it and does not re-derive final stock |
| Persistence.LoadCompleted | Main.py:281-305 | a load with no bad count re-derives final stock after all lines, so the ledger invariant holds |
| Persistence.ReadBlock | Main.py:268-303 | a written block reads back as one record per key, in order, when no key has a colon |
| Persistence.SaveSingleLines | Main.py:266-275 | no written line holds a newline, provided no product name or date holds a colon or a newline and the date does not end in whitespace (the conditions under which the file reads back unchanged) |
| Persistence.ReadSaved | Main.py:264-303 | reading the saved text gives the date, then one record per key of each input table in order, then an ignored empty piece, provided no product name or date holds a colon or a newline and the date does not end in whitespace |
| Persistence.ApplyEntries | Main.py:288-303 | applying a block's records writes each key's value into its table in order and nothing else |
| Persistence.ApplyTable | Main.py:288-303 | reading a saved table into one whose keys are a prefix of it puts exactly the saved table in its place |
| Persistence.ApplySaved | Main.py:264-303 | applying a saved file's lines to a well-formed ledger restores the date and the four input tables and leaves final stock alone, provided each input table loaded into lists its keys as a prefix of the saved table's keys (a load never deletes keys) |
| Persistence.LoadSaved | Main.py:264-307 | loading what `save_data` wrote gives the saved ledger with final stock re-derived, provided no product name or date holds a colon or a newline, the date does not end in whitespace, and each input table of the ledger loaded into lists its keys as a prefix of the saved table's keys (a load never deletes keys) |
| Persistence.FreshLoadRoundTrip | Main.py:264-307 | on start-up, loading the file of a consistent ledger gives back exactly that ledger, provided no product name or date holds a colon or a newline and the date does not end in whitespace |
| Report.Html | Main.py:311-343 | the page: the head with the date, the header row, one row per catalog product, the end of the table; characterised by `HtmlHeading`, `HtmlRowAt`, `RowColumns` and `RowBalances` |
| Report.Rows | Main.py:328-338 | the rows of the listed products, in order; characterised by `RowsAppend` and `RowsSplit` |
| Report.RowText | Main.py:329-338 | one product's `<tr>`: its cells, each on its own line; characterised by `RowColumns` |
| Report.RowCells | Main.py:330-338 | a row has one cell per column heading |
| Report.HtmlHeading | Main.py:311-324 | the page opens with the document head and the heading's title, then the date, then the end of the heading |
| Report.RowsAppend | Main.py:328-338 | the rows of two product lists are the rows of the first followed by those of the second |
| Report.RowsSplit | Main.py:328-338 | the rows are those of the products before `i`, then product `i`'s row, then the rows of the products after it |
| Report.HtmlRowAt | Main.py:311-343 | in the page, the row of the `i`-th catalog product stands between the header and earlier rows and the later rows and the end of the table |
| Report.RowColumns | Main.py:326-338 | a row's first cell is the product, and each other cell reads back as that product's count in its column's table, in header order |
| Report.RowBalances | Main.py:329-337 | in a consistent ledger, each row's final cell reads back as initial + production + returns − shipment |
| Report.SumOver | Main.py:229-240 | the sum of the counts of the given keys; `SumBalance` splits it over the ledger's formula |
| Report.Total | Main.py:229-240 | `total` after the loop: the sum of final stock over its keys; characterised by `AllTicksNonNegative`, `TotalNegativeShowsCross` and `TotalBalance` |
| Report.Status | Main.py:231-232 | the mark is a tick exactly when the count is 0 or more, and a cross exactly when it is negative |
| Report.Statuses | Main.py:230-232 | one mark per final-stock line |
| Report.AllTicksNonNegative | Main.py:229-240 | when every line carries a tick the total is not negative |
| Report.TotalNegativeShowsCross | Main.py:229-240 | a negative total always shows at least one cross |
| Report.SumBalance | Main.py:229-240 | over products whose final count follows the formula, the sum of final stock is the sums of initial + production + returns − shipments |
| Report.TotalBalance | Main.py:229-240 | in a consistent ledger the report's total is total initial + total production + total returns − total shipments |
| App.CatalogDistinct | Main.py:17-24 | the six catalog products are pairwise distinct |
| App.WriteBlock | Main.py:268-275 | `save_data`'s loop over one table yields exactly the table's block |
| App.KebabInventoryApp.constructor | Main.py:15-27 | the app starts from the fresh ledger dated today, then applies the saved file if there is one; the ledger is well formed |
| App.KebabInventoryApp.InitializeTables | Main.py:29-34 | every table becomes the catalog at 0, in catalog order, and the date is kept |
| App.KebabInventoryApp.CalculateFinalInventory | Main.py:173-180 | the loop leaves the fields equal to `Recompute` of the old ones; only final stock is written |
| App.KebabInventoryApp.Store | Main.py:166 | `table_data[product] = value` writes into the chosen input table and nothing else |
| App.KebabInventoryApp.SaveInputData | Main.py:161-171 | the new fields and the message shown are `Edit` of the old ledger and the form; the ledger stays well formed |
| App.KebabInventoryApp.StoreFields | Main.py:163-166 | the box loop leaves the chosen table as the boxes applied in order, stopping at the first ValueError |
| App.KebabInventoryApp.StoreField | Main.py:164-166 | one box: stripped, skipped when blank, otherwise written through `int()`; nothing is written when `int()` rejects it |
| App.KebabInventoryApp.LoadData | Main.py:281-307 | the fields afterwards are `Load` of the old ledger and the file; the ledger stays well formed |
| App.KebabInventoryApp.LoadLines | Main.py:285-303 | the line loop leaves the fields as the lines applied in order, and reports whether it reached the end |
| App.KebabInventoryApp.LoadLine | Main.py:286-303 | one line of the file does what `ReadLine` reads it as |
| App.KebabInventoryApp.LoadRecord | Main.py:289-303 | a tagged line's fields: skipped when fewer than three, else the count is written, or the load aborts when `int()` rejects it |
| App.KebabInventoryApp.SaveData | Main.py:264-275 | the lines written are exactly `SaveLines` of the ledger |
| App.KebabInventoryApp.ExportToHtml | Main.py:309-343 | the page built is exactly `Html` of the ledger and the catalog |
| App.KebabInventoryApp.AppendRows | Main.py:328-338 | the loop appends one row per catalog product, in catalog order |
| App.KebabInventoryApp.FinalStockSection | Main.py:229-240 | the loop's total is the sum of final stock over its keys, and its marks are the final counts' marks in the table's order |

## Left out

- The Kivy user interface is not part of this model: screens, layouts, buttons, popups, `show_message`, the window colour and `exit_app`. Where a method shows a message, the model returns a flag saying which message it would be.
- File access is not modelled: `os.path.exists`, `open`, writing and reading. The saved file reaches the model as text (`None` when it is missing). `save_data` yields its lines, `SaveText` is the file's text, and `export_to_html` yields the page. Write failures and the messages for them are left out.
- `datetime.now()` becomes the constructor's `today` parameter.
- `emergency_recovery` is not modelled separately: it is an existence check followed by `load_data`, which is modelled.
- Reading the file cuts the text at `\n` only. Python's universal-newline translation of `\r` and `\r\n` is left out.
- PyStr.ParseInt: `int()` is modelled as its whitespace at both ends, an optional sign and ASCII digits. Underscores between digits and non-ASCII digits, which Python also accepts, are left out, so the model rejects some text that Python reads as a number.
- The `input_filter='int'` restriction on the text boxes is UI-level filtering and is left out. The model accepts any text in a box.
- Only the total and the marks of `show_full_report` are modelled. The label texts and colours, and the listing of the four input tables, are UI.
- The HTML style sheet is kept as one literal text, not built from parts. The header row is built from the column headings.
- CalculateFinalInventory: requires that every catalog product has a count in each input table and that final stock holds exactly the catalog. The ledger always satisfies this, since nothing removes a key. The KeyError the source would raise otherwise is not modelled.
- Persistence.LoadSaved: the round trip is stated for product names and a date with no colon or newline, and a date that does not end in whitespace. The load is into a ledger whose input tables' keys are a prefix of the saved ones. These are real limits of the code: `strip()` drops a trailing space of the date, as `ReadLineDateLosesSpace` shows, and a load never deletes keys.
- Persistence.FreshLoadRoundTrip: carries the same conditions on names and date as `LoadSaved`.
- PyStr.ParseShow: CPython 3.11 and later refuse to convert between `int` and `str` past 4300 digits and raise ValueError. `save_data` and `int()` would then fail for such a count. The model's `Show` and `ParseInt` have no digit limit.
