# Portal Formación: the table engine of the training dashboard

`app.py` is a Streamlit page that shows which employees have completed
their training courses. The data comes from a published Google Sheets CSV.
Most of the file draws the page. Underneath the drawing there is a small
table engine, and that engine is what this project models:

- **Loading** (`load_data`). Strip and title-case every header. Rename the
  headers that exactly match the fixed `col_map` table. Coerce the status
  column `ESTADO_NUM` to an integer, with a non-number becoming 0. Strip and
  title-case the text of the level (`NIVEL`) and role (`CARGO`) columns.
  Each cell step runs only when its column is present. A failed read gives
  an empty table.
- **Role filter** (sidebar). The menu is `"Todos"` followed by the distinct
  roles in ascending order. The chosen role restricts the table to the rows
  whose role cell is exactly that text. `"Todos"`, or a table with no menu,
  leaves the table as it is.
- **Indicators**. Over the role-filtered table the page counts: the total;
  the pending rows (status 0); the done rows (status 1); and the rows whose
  level text contains `"1"` and `"2"`.
- **Facet state and listing**. The session keeps one value,
  `filtro_activo`, across reruns. It is set to `"Todos"` when absent, and a
  button click overwrites it with that button's label. It picks which rows
  are listed. The listing shows the columns `COLABORADOR, CARGO, CURSO,
  NIVEL, ESTADO_NUM` that exist, in that order.

Modules, one per concern:

- `Text` (text.dfy): `str.strip`, `str.title`, substring search and string order.
- `Numeric` (numeric.dfy): integers written as text and read back.
- `Seqs` (seqs.dfy): row selection by a mask (a filter) and subsequences.
- `Frame` (frame.dfy): cells, tables, column lookup, per-cell coercions.
- `Loader` (load.dfy): `load_data`.
- `Roles` (roles.dfy): the role menu and the role filter.
- `Indicators` (indicators.dfy): KPIs, level subsets, final view and column projection.
- `Session` (session.dfy): the session state as a class `Dashboard`, and one
  script run as its method `Run`.

A table is a header (a sequence of labels) and rows of cells, addressed by
position. A cell is text, an integer, a boolean (a column of `TRUE`/`FALSE`,
as a sheet's checkboxes export), or missing (NaN). Looking up a label
always finds its first column.

How the code behaves, as modelled:

- Renaming is by exact match on the normalised header. No keyword or
  substring matching happens.
- Role and level text is title-cased, not upper-cased.
- The only filter axis is the role. There is no sector or person filter.
- Changing the role does not reset `filtro_activo`. A stale facet stays in
  force (`Session.RoleChangeKeepsFacet`).
- The status column is coerced to an integer but not clamped. A cell
  holding `5` stays 5. Pending plus done therefore equals the total exactly
  when every status is 0 or 1 (`Indicators.StatusCounts`).
- The KPI block reads `ESTADO_NUM` and `NIVEL` without checking they exist
  (app.py:103, 107). The pure KPI functions require both columns. The
  session run yields `MissingColumn(...)` where the script would raise a
  `KeyError`. Before that point it has already stored the default facet.

Inputs that come from outside the script are parameters of `Run`:

- the fetched sheet, as `Option<Table>`. `None` means that reading it raised.
- the role the user picks in the radio.
- the button clicked in this interaction, if any.

## Model

| member | source | states |
|---|---|---|
| `Text.Strip` | app.py:33 | the result has no whitespace at either end and is no longer than the input |
| `Text.StripSlice` | app.py:33 | `strip` keeps one contiguous slice of its input and removes only whitespace before and after it |
| `Text.StripUnique` | app.py:33 | `strip` removes exactly the outer whitespace: any slice with only whitespace outside it and none at its own ends is what `strip` returns |
| `Text.StripAllSpace` | app.py:33 | a text made only of whitespace strips to the empty text |
| `Text.StripIdempotent` | app.py:33 | stripping twice gives the same text as stripping once |
| `Text.Title` | app.py:33 | `title` keeps the length of its input; the rule for each character is `Text.TitleAt` |
| `Text.TitleAt` | app.py:33 | `title` keeps the length; it lower-cases every character that follows a cased letter and upper-cases every other one |
| `Text.TitleIdempotent` | app.py:33 | title-casing a title-cased text changes nothing |
| `Text.TitleCasedSigns` | app.py:33 | `ª` and `º` count as cased, so the letter after them stays lower-case; `µ` title-cases to the Greek capital mu and `ÿ` to `Ÿ` |
| `Text.UpperPairNotTitled` | app.py:33 | a text starting with two upper-case letters is never the result of `title` |
| `Text.Contains` | app.py:107-108 | substring search, with no contract of its own; `Text.ContainsIff` and `Text.ContainsChar` characterise it |
| `Text.ContainsIff` | app.py:107-108 | the search succeeds exactly when some slice of the text equals the pattern |
| `Text.ContainsChar` | app.py:107-108 | searching for a one-character pattern is the same as asking whether that character occurs |
| `Text.LexLessIrreflexive` | app.py:75 | the string order used by `sorted` never puts a string before itself |
| `Text.LexLessTransitive` | app.py:75 | the string order is transitive |
| `Text.LexLessTotal` | app.py:75 | any two different strings are ordered one way or the other |
| `Numeric.ParseInt` | app.py:49 | the text `to_numeric` reads as an integer: a number is never empty and has only digits after its first character; its partners are `Numeric.ParseShow` and `Numeric.NotNumeral` |
| `Numeric.ParseShow` | app.py:49 | reading back an integer written in decimal gives that integer |
| `Numeric.NotNumeral` | app.py:49 | a text with a character that is neither a digit nor a sign is not a number |
| `Frame.IndexOf` | app.py:48-55 | finds a label exactly when the header has it, at its first occurrence |
| `Frame.Column` | app.py:48-55 | the position of a present label, and the header there is that label |
| `Frame.Stringify` | app.py:52 | `astype(str)`: text is kept as it is; an integer is written so that reading it back gives that integer |
| `Frame.ParseNumber` | app.py:49 | a missing cell is not a number; an integer cell is itself; a boolean is 1 or 0 |
| `Frame.Coerce` | app.py:49 | a cell that is not a number becomes 0; a cell that is one becomes exactly that number |
| `Frame.CleanText` | app.py:52 | cleaning a level or role cell always yields text |
| `Seqs.Filter` | app.py:83 | a mask keeps only rows that pass it and every row that does, and no more rows than the table has |
| `Seqs.FilterMultiset` | app.py:83 | a mask keeps every copy of a passing row, as many times as the table has it, and no copy of any other row |
| `Seqs.FilterLength` | app.py:102-111 | the length of a masked table is the number of positions that pass, so duplicate rows count separately |
| `Seqs.FilterIsSubsequence` | app.py:83 | a mask keeps rows in their original order |
| `Seqs.SubsequenceTransitive` | app.py:83 | a selection from a selection is a selection from the original |
| `Seqs.SubsequenceReflexive` | app.py:67 | the whole table is a selection from itself |
| `Seqs.FilterDisjointCount` | app.py:103-104 | two masks no row passes both count at most all rows together, and exactly all when every row passes one |
| `Loader.NormalizeHeader` | app.py:33 | a normalised header is left unchanged by `title`, and is no longer than the raw header |
| `Loader.RenameHeader` | app.py:45 | a key of `col_map` becomes one of its new names; any other header is left as it is |
| `Loader.CleanHeaders` | app.py:33-45 | keeps the number of columns, and position `i` holds the stripped, title-cased header `i`, replaced by its `col_map` value when it is a key |
| `Loader.MapColumn` | app.py:48-55 | a cell step changes only the first column with that label, and nothing when the label is absent |
| `Loader.CoerceCell` | app.py:49 | every status cell after coercion is an integer |
| `Loader.LoadData` | app.py:29-60 | a failed read yields the empty table; otherwise rows and columns keep their number, and a rectangular sheet stays rectangular |
| `Loader.TargetNotTitled` | app.py:33-45 | no new name in the renaming table can be produced by header normalisation |
| `Loader.ColMapInjective` | app.py:36-43 | different headers in the renaming table get different new names |
| `Loader.LoadedHeader` | app.py:33-45 | a column is renamed exactly when its normalised header is a key of `col_map`, and then to that key's value; other columns keep their normalised header |
| `Loader.TargetPresent` | app.py:33-45 | the loaded table has a column with a new name exactly when some sheet header normalises to that name's key |
| `Loader.CleanCells` | app.py:47-55 | the cell steps keep the header, the number of rows and each row's length; `Loader.CleanCellsAt` gives each cell |
| `Loader.CleanCellsAt` | app.py:47-55 | each cell is coerced, cleaned as text, or left alone, according to which cleaned column it lies in |
| `Loader.LoadedStatus` | app.py:48-49 | a loaded status cell is the integer the raw cell held, or 0 when it held none |
| `Loader.LoadedText` | app.py:51-55 | a loaded level or role cell is the raw cell written as text, stripped and title-cased |
| `Loader.LoadedOthers` | app.py:47-55 | every cell outside the three cleaned columns is as read |
| `Loader.CoerceReadsNumbers` | app.py:49 | an integer cell, or text written from an integer, coerces to that integer; a missing cell and the text "sí" coerce to 0; a checked box to 1 and an unchecked one to 0 |
| `Loader.CleanTextIdempotent` | app.py:51-55 | cleaning an already cleaned level or role cell changes nothing |
| `Roles.Insert` | app.py:75 | adding a role to a strictly ascending list keeps it strictly ascending, holding exactly the old elements and the new role |
| `Roles.SortedDistinct` | app.py:75 | `sorted(unique(...))` is strictly ascending and holds exactly the input's values |
| `Roles.SortedDistinctElements` | app.py:75 | a strictly ascending list has no repeated element |
| `Roles.SortedUnique` | app.py:75 | two strictly ascending lists with the same elements are equal, so the role list is determined by the roles present |
| `Roles.RoleMenuShape` | app.py:73-78 | the menu is `"Todos"` followed by exactly the roles that occur, strictly ascending; it is the only such list |
| `Roles.RoleValueOccurs` | app.py:75 | a text is a role value exactly when some row's role cell holds it |
| `Roles.RoleValues` | app.py:75 | the non-missing role texts, at most one per row |
| `Roles.RoleList` | app.py:70-75 | the role list is strictly ascending, so no role appears twice |
| `Roles.RoleMenu` | app.py:78 | `"Todos"` followed by the role list |
| `Roles.SelectedRole` | app.py:71-79 | the selection is `"Todos"` or a listed role, and it is the user's pick whenever the menu offers that pick |
| `Roles.RoleFilter` | app.py:67-83 | the filtered table keeps the columns and has no more rows than the table |
| `Roles.RoleFilterAll` | app.py:67-83 | choosing `"Todos"`, or having no menu, leaves the table unchanged |
| `Roles.RoleFilterExact` | app.py:82-83 | choosing a role keeps the columns, and keeps exactly the rows whose role cell is that text, in order, each as many times as the table has it |
| `Roles.RoleOptionNonEmpty` | app.py:75-83 | every role the menu offers selects at least one row |
| `Roles.RoleFilterDisjoint` | app.py:83 | a row lands under one role only |
| `Indicators.PendingRows` | app.py:103 | every pending row has status 0 |
| `Indicators.DoneRows` | app.py:104 | every done row has status 1 |
| `Indicators.LevelRows` | app.py:107-108 | every row of a level subset has a level text containing the digit |
| `Indicators.ComputeKpis` | app.py:102-111 | the total is the number of rows, and no other count exceeds it |
| `Indicators.KpiCounts` | app.py:102-111 | each count is the number of row positions with status 0, with status 1, or with a level text containing `1` or `2`; a duplicated row counts twice |
| `Indicators.FinalView` | app.py:139-153 | the view keeps the columns and has no more rows than the role-filtered table |
| `Indicators.ShownColumns` | app.py:158-159 | every listed column is a column of the view |
| `Indicators.StatusCounts` | app.py:102-104 | pending plus done is at most the total, and equals it exactly when every status is 0 or 1 |
| `Indicators.LevelRowsExact` | app.py:107-111 | each level subset holds exactly the rows whose level text contains the digit, in order, each as many times as the filtered table has it |
| `Indicators.LevelsMayOverlap` | app.py:107-111 | the two level subsets can overlap: a level "Nivel 12" counts under both |
| `Indicators.FinalViewMatchesKpis` | app.py:139-153 | each facet lists exactly as many rows as its count; an unknown facet lists the whole table; the listing keeps the columns and stays within the table |
| `Indicators.Project` | app.py:158-159 | the projection keeps the number of rows and is rectangular |
| `Indicators.ProjectColumns` | app.py:158-159 | the listed columns are exactly the display columns the view has, in display order, each carrying the view's cells |
| `Session.ButtonsDrawn` | app.py:99-125 | the buttons are drawn when the role-filtered table is not empty and has the KPI columns; no contract of its own, used by `Session.Dashboard.Run` |
| `Session.NextFacet` | app.py:92-134 | the facet after a run; no contract of its own, `Session.NextFacetIsLabel` and `Session.RoleChangeKeepsFacet` state its properties |
| `Session.RenderPage` | app.py:62-174 | with no menu the role is `"Todos"`; otherwise the role is `"Todos"` or one the menu lists; the no-data warning shows exactly when the role-filtered table is empty |
| `Session.Dashboard.constructor` | app.py:92 | a new session has no stored facet |
| `Session.Dashboard.InitFacet` | app.py:92-93 | the facet becomes `"Todos"` only when absent; a stored facet is kept |
| `Session.Dashboard.Click` | app.py:125-134 | a click stores that button's label |
| `Session.Dashboard.Run` | app.py:62-174 | a run stores the facet left by the default and the click, and shows the page computed from the loaded sheet, the role and that facet |
| `Session.FilterByRole` | app.py:67-83 | the sidebar step offers the role menu, returns `"Todos"` or a listed role, and returns the table filtered by it |
| `Session.ApplyFacet` | app.py:139-153 | the step-by-step view selection gives the facet's view |
| `Session.NextFacetIsLabel` | app.py:92-134 | after any run the stored facet is one of the five button labels |
| `Session.RoleChangeKeepsFacet` | app.py:92-134 | without a click, the stored facet is the same whatever role is picked |
| `Session.ShownListingMatchesButton` | app.py:102-153 | a shown listing has as many rows as the count on the active facet's button |
| `Session.ListingRowsFromSheet` | app.py:67-153 | the listed rows are rows of the loaded sheet, in sheet order |
| `Session.FailedLoadShowsNoData` | app.py:58-174 | a failed read shows no role menu, the role `"Todos"` and the no-data warning |

## Left out

- Fetching the sheet (`pd.read_csv(URL)`), the sheet constants and the 60-second `st.cache_data` cache (app.py:24-31). These are network I/O and framework caching. The fetched table is an input of `Run`.
- CSV parsing and pandas' type inference. The model starts from cells that are already text, integers, booleans or missing. Float cells are not modelled.
- Header mangling by `read_csv` (`A`, `A.1`). Pandas' behaviour on duplicate labels is left out too: the model always uses the first column with a label.
- `st.error` and the exception itself (app.py:58-60). Every failure of the read is `None`, which yields the empty table.
- Page presentation. This covers page config, CSS, titles, sidebar messages and metrics, button styles and captions, the subtitle texts, the divider, the dataframe rendering and its column configuration (app.py:5-21, 65, 84-89, 96-97, 114-124, 136, 140-153 for `subtitulo`, 156, 161-174).
- Numeric.ParseInt: reads only an optional sign and ASCII digits. `pd.to_numeric` accepts more forms. A decimal or exponent such as `"1.5"` becomes a float, which `astype(int)` truncates (to 1); the model gives 0. A text read as infinity (`"inf"`, `"Infinity"`) makes `astype(int)` raise, so `load_data` returns the empty table (app.py:49, 58-60); the model gives 0 and loads the sheet.
- Frame.Coerce: the model's integers are unbounded. `astype(int)` yields 64-bit integers, and pandas reads a numeral outside that range as a float or fails; that range limit is not modelled.
- Text.Title: case mapping covers ASCII and Latin-1 letters, plus the Greek capital and small mu and `Ÿ` as the upper-case forms of `µ` and `ÿ`. `ß` stays `ß`, where Python title-cases it to the two characters `Ss`. Every other character beyond Latin-1 counts as uncased.
- Text.IsSpace: `strip` removes Unicode whitespace beyond the first 256 code points, which the model keeps.
- Streamlit widget semantics. The radio returns one of its options: a pick outside the menu is read as `"Todos"`. At most one button is clicked per run. Sessions run independently.
- Indicators.ComputeKpis: requires the `ESTADO_NUM` and `NIVEL` columns. The script raises `KeyError` without them; in `Session.Dashboard.Run` that raise is the `MissingColumn` page.
