# Option chain formatter: column extraction and derived metrics

The repository turns an exported option-chain spreadsheet into a fixed
12-column sheet in two ways: a Streamlit web app (`app.py`) and a Tkinter
desktop app (`desktopApp.py`). Both read the workbook without a header.

- Row 0 is a banner, row 1 holds the headers and rows 2 onwards hold the data.
- Call-side and put-side columns share the same header text (`OI Chg`,
  `OI`, `VWAP`). An occurrence index picks between them: 0 is the call side
  and 1 is the put side.
- Every number is coerced with `pd.to_numeric(errors="coerce")`.
- Four columns are derived and rounded half to even: CE/PE MONEY
  (`oi_chg * vwap / 10_000_000`), CE BEP (`strike + vwap`) and PE BEP
  (`strike - vwap`).
- The output frame has the columns in a fixed order. The worksheet gets
  auto-fitted column widths, capped at 25 in the web app and at 20 on the
  desktop. The web app also gives negative OI-change cells a red font.

The model is made of these modules:

- `Wrappers`: `Option` and `Result`.
- `PyStr`: Python's `str.strip` and the rendering of non-negative ints and
  int lists.
- `Cells`: the raw grid as pandas reads it, including padding of short rows
  with NaN, the header row, the data block and numeric coercion.
- `Rounding`: round-half-even on exact reals.
- `Derive`: the formulas, column assignment (`out[name] = ...`), column
  selection (`out[final_order]`) and the fixed order.
- `Extraction`: the occurrence lookup (`col_positions` and `series_by_pos`)
  shared by both front-ends, its `KeyError`, and the pipeline that runs the
  eight lookups.
- `Worksheets`: the sheet that `to_excel` writes, modelled as a class whose
  methods update its `widths` and `redFont` fields, and the width rule.
- `WebApp` (`app.py`): header clean-up, lookups over the cleaned names,
  a catch-all that turns every error into `None`, and `apply_formatting`.
- `DesktopApp` (`desktopApp.py`): lookups over the raw header row, errors
  returned as values, and `save_with_color_scaling`.
- `FrontEnds`: on text-only grids both front-ends produce the same frame.

## Model

| member | source | states |
|---|---|---|
| PyStr.Strip | app.py:50 | the result has no leading or trailing whitespace (Python's `isspace` set) and is no longer than the input |
| PyStr.StripSplit | app.py:50 | the input is all-whitespace prefix + stripped text + all-whitespace suffix |
| PyStr.StripLeading | app.py:50 | drops exactly an all-whitespace prefix, leaving text that does not start with whitespace |
| PyStr.StripTrailing | app.py:50 | drops exactly an all-whitespace suffix, leaving text that does not end with whitespace |
| PyStr.StripUnique | app.py:50 | any decomposition into whitespace, a stripped core and whitespace strips to that core |
| PyStr.StripOfSpace | app.py:50 | an all-whitespace header strips to the empty string |
| PyStr.StripOfCore | app.py:50 | whitespace around a non-empty stripped core strips to that core |
| PyStr.StripIdempotent | app.py:63 | stripping an already stripped name changes nothing, so re-stripping cleaned headers in `col_positions` is harmless |
| PyStr.StripBlank | app.py:50 | a string strips to empty exactly when it is all whitespace |
| PyStr.NatToString | app.py:51 | the decimal text of an index is non-empty and all digits |
| PyStr.DecimalRoundTrip | app.py:51 | reading the decimal text back gives the index |
| PyStr.NatToStringInjective | app.py:51 | different indices have different decimal texts |
| PyStr.ListRepr | app.py:69 | a position list is rendered between `[` and `]` |
| PyStr.JoinIntsRoundTrip | app.py:69 | reading the `", "`-joined decimal entries back gives the list of positions again |
| PyStr.ListReprRoundTrip | app.py:69 | the text between the brackets reads back as the position list, so different lists render differently |
| Cells.Width | app.py:47 | the frame's column count is the longest row's length |
| Cells.HeaderRow | app.py:47 | row 1 padded to the frame width: the row's own cells, then NaN |
| Cells.DataColumn | app.py:57 | column `c` of the data block has one entry per raw row after the first two |
| Cells.ToNumeric | app.py:74 | NaN stays NaN, a number passes through, text goes through the number parser |
| Cells.Coerce | app.py:74 | coercion never fails and maps each cell of the column, in order |
| Rounding.RoundHalfEven | app.py:89 | the result is a nearest integer, and the even one on a tie |
| Rounding.RoundHalfEvenUnique | app.py:89 | no other integer meets that description |
| Rounding.RoundWhole | app.py:90 | whole numbers are unchanged |
| Rounding.RoundMonotone | app.py:89 | rounding preserves order |
| Derive.Round | app.py:89 | NaN stays NaN; otherwise the result is the whole number rounded half-even from the input |
| Derive.Money | app.py:89 | defined exactly when both inputs are; then it is `oi_chg * vwap / 10_000_000` rounded half-even |
| Derive.CallBreakeven | app.py:90 | defined exactly when strike and VWAP are; then it is `strike + vwap` rounded half-even |
| Derive.PutBreakeven | app.py:94 | defined exactly when strike and VWAP are; then it is `strike - vwap` rounded half-even |
| Derive.MoneySeries | app.py:95 | applies the MONEY rule row by row and keeps the length |
| Derive.CallBreakevenSeries | app.py:90 | applies the CE BEP rule row by row and keeps the length |
| Derive.PutBreakevenSeries | app.py:94 | applies the PE BEP rule row by row and keeps the length |
| Derive.Names | app.py:100-105 | lists the frame's column names in order |
| Derive.IndexOf | app.py:151 | finds the first position holding the name, or reports that it is absent |
| Derive.IndexOfUnique | app.py:151 | with distinct names, the position found is the only one holding the name |
| Derive.Assign | app.py:86-97 | a new name is appended at the right; an existing name's column is replaced in place by the new one and every other column is unchanged; distinct names stay distinct |
| Derive.AssignAll | app.py:86-97 | assignments one after another keep the earlier columns' names and places |
| Derive.AssignNamesFrom | app.py:86-97 | one assignment adds no name but its own |
| Derive.AssignAllCovers | app.py:86-97 | after the assignments every assigned name is a column |
| Derive.AssignAllNamesFrom | app.py:86-97 | after the assignments every column name was already there or was assigned |
| Derive.AssignAllDistinct | app.py:86-97 | assignments keep distinct column names distinct |
| Derive.Select | app.py:107 | succeeds exactly when every requested name is present, and then yields exactly the requested names in the requested order |
| Derive.SelectPicks | app.py:107 | each selected column is the frame's first column with that name |
| Derive.SelectOwnOrder | app.py:107 | selecting a frame's own distinct names in its own order gives the frame back |
| Derive.FinalOrderDistinct | app.py:100-105 | the fixed order names twelve distinct columns |
| Derive.Assignments | app.py:86-97 | the twelve assignments carry exactly the names of the fixed order |
| Derive.AssignFreshAppends | app.py:85-97 | assigning fresh, pairwise distinct names to a frame appends them in order |
| Derive.Assemble | app.py:85-97 | building `out` from an empty frame yields the twelve assignments in order |
| Derive.SelectFinalOrder | app.py:107 | `out[final_order]` succeeds and reorders nothing |
| Derive.Canonical | app.py:107 | the output carries the fixed order's names and is the twelve assignments |
| Derive.CanonicalLayout | app.py:84-107 | twelve named columns in the fixed order, each with one entry per data row; Time and the six looked-up numeric series are passed through; MONEY and BEP follow their formulas row by row |
| Derive.AssignmentsLayout | app.py:84-97 | the twelve assignments, before selection, already have that layout |
| Derive.AssignmentLengths | app.py:84-97 | each of the twelve assigned columns has one entry per data row |
| Extraction.KeyError.Head | app.py:68 | the message opens with `Column '`, then the name, then the occurrence at a fixed offset after it |
| Extraction.KeyError.Message | app.py:68-69 | the message starts with that opening and ends with the list of positions found |
| Extraction.MessageNamesColumn | app.py:68-69 | the message carries the requested name at offset 8 and the occurrence 13 characters after the name |
| Extraction.FindAll | app.py:63 | the matching positions are increasing, in range, and include every match |
| Extraction.FindAllBefore | app.py:70 | the k-th match is preceded by exactly the first k matches |
| Extraction.FindAllSame | desktopApp.py:29 | two scans that accept the same positions return the same list |
| Extraction.Resolve | app.py:65-70 | fails exactly when the name has at most k matches, with the name, k and all the matches in the KeyError; otherwise returns the position of the k-th match |
| Extraction.ResolveAll | app.py:73-82 | succeeds exactly when every request has enough occurrences; returns the k-th match for each request; on failure, carries the KeyError of the first request that fails, with all earlier requests satisfied |
| Extraction.ExtractAt | app.py:73-82 | Time stays raw; the seven other series are coerced from the resolved columns; all have one entry per data row |
| Extraction.Run | app.py:73-107 | the frame is produced exactly when all eight lookups succeed; otherwise the first lookup's KeyError is raised; a produced frame has the canonical shape and is derived from the resolved columns |
| Extraction.RunDependsOnRequestedNames | app.py:73-82 | the result depends on the lookup only through the eight requested names |
| Extraction.ResolveAllSame | app.py:73-82 | lookups that agree on the requested names resolve identically |
| WebApp.Placeholder | app.py:50 | a synthetic name starts with `Column_` |
| WebApp.CleanHeaders | app.py:50-51 | one name per header position: the stripped text of a non-blank string, otherwise `Column_<i>`; every name is non-empty and already stripped |
| WebApp.CleanHeaderFacts | app.py:50-51 | one header's name: the stripped text of a non-blank string, otherwise `Column_<i>`; non-empty and already stripped |
| WebApp.PlaceholderStripped | app.py:50 | a synthetic name is unchanged by stripping |
| WebApp.PlaceholdersDistinct | app.py:50 | two blank positions never receive the same synthetic name |
| WebApp.ColPositions | app.py:62-63 | the increasing list of exactly the positions whose name strips to the request |
| WebApp.SeriesByPos | app.py:65-70 | raises exactly when there are at most k matches, with the name, k and all matches in the error; otherwise projects the data block at a matching position preceded by exactly k matches |
| WebApp.PutSideRightOfCallSide | app.py:80-82 | the second occurrence of a name lies right of the first |
| WebApp.SeriesByPosResolves | app.py:65-70 | `series_by_pos` over the cleaned headers raises the KeyError the pipeline's lookup step reports, or returns the data block at the position it picks |
| WebApp.ResolvedColumnsAreSeriesByPos | app.py:73-82 | when the lookups succeed, each column the pipeline extracts is what `series_by_pos` returns for that request |
| WebApp.ProcessOptionChain | app.py:36-113 | no result without a header row; with one, a result exactly when all eight lookups succeed; the result has the canonical shape with one row per data row and is derived from the resolved columns |
| WebApp.OiChangeColumns | app.py:148-151 | one column for each of CE OI CHANGE and PE OI CHANGE present in the frame and no other, CE first; each is the `get_loc` position of its name |
| WebApp.NegativeInStep | app.py:152-156 | one more row adds that cell exactly when it holds a negative number |
| WebApp.NegativeCellsPrefix | app.py:149-156 | the cells coloured for some of the columns are a subset of those for all of them |
| WebApp.NegativeInMonotone | app.py:152 | scanning further never uncolours a cell |
| WebApp.ColourNegativeOiChangesAsWritten | app.py:147-156 | raises exactly when some data cell of the two columns holds a string; otherwise colours exactly the negative cells, and never colours any other cell |
| WebApp.ColourNegativeCellsAsWritten | app.py:149-156 | the loop as written over a given column list: raises exactly on a string data cell; otherwise colours exactly the negative cells; never colours any other cell |
| WebApp.MissingOiChangeRaises | app.py:154-155 | a missing CE OI CHANGE entry is written as `""`, so the loop as written raises |
| WebApp.CeOiChangeFirst | app.py:148-151 | in the fixed order, the first OI-change column found is column B (index 1) |
| WebApp.ColourNegativeOiChanges | app.py:147-156 | adds a red font to exactly the negative numbers in the two columns' data rows and to no other cell |
| WebApp.ColourNegativeCells | app.py:149-156 | the intended loop over a given column list: adds exactly the negative data cells of those columns |
| WebApp.ColourScaleRows | app.py:158-193 | the colour-scale range `2:len(df)+1` is empty, which openpyxl rejects with ValueError, exactly when the frame has no rows |
| WebApp.ScalesAndWidths | app.py:158-208 | raises exactly on an empty frame and then sets no width; otherwise every column's width follows the width rule with cap 25 and is at most 25, and widths of keys outside the sheet are unchanged |
| WebApp.ApplyFormattingAsWritten | app.py:115-210 | as written: raises exactly when an OI-change data cell holds a string or the frame is empty, and then no width is set; otherwise negative OI changes get a red font, every column's width follows the width rule with cap 25, and widths of keys outside the sheet are unchanged |
| WebApp.ApplyFormatting | app.py:115-210 | the intended version, with missing values skipped: negative OI changes get a red font; raises exactly on an empty frame, leaving the widths unchanged; otherwise every column's width follows the width rule with cap 25 and is at most 25, and widths of keys outside the sheet are unchanged |
| Worksheets.WrittenCell | app.py:260 | a raw cell is written as a non-blank value: NaN as `""`, text as itself, a number as itself |
| Worksheets.WrittenValue | app.py:260 | a numeric entry is written as a string exactly when it is missing, and then as `""`; otherwise as its number |
| Worksheets.WrittenEntry | app.py:260 | an entry of a frame column is never blank; in a numeric column it is written as `""` exactly when missing |
| Worksheets.WrittenRows | app.py:260 | the sheet has a header row of column names and one row per frame row, with each entry as written |
| Worksheets.MaxOf | app.py:199-206 | an upper bound of every length that one of them attains, and 0 for an empty column |
| Worksheets.ColumnWidth | app.py:207-208 | `min((longest + 2) * 1.2, cap)`: never above the cap or the uncapped width, and equal to one of them |
| Worksheets.Overlay | app.py:208 | setting the widths of columns `0 .. n-1` changes those keys only, and every other key keeps its width |
| Worksheets.WidthMonotone | app.py:207-208 | a longer longest cell never gives a narrower column |
| Worksheets.WidthRoomForCell | app.py:207-208 | an uncapped width leaves room for every cell of the column |
| Worksheets.Worksheet.constructor | app.py:259-261 | the sheet holds the rows `to_excel` writes, with no red font and no widths |
| Worksheets.Worksheet.ColumnLengths | app.py:203-204 | `len(str(value))` for each cell of the column, header included; `None` counts 4, a string its length, a number what the column's renderer gives |
| Worksheets.Worksheet.LongestCell | app.py:199-206 | returns the longest rendered cell of the column, and 0 for an empty sheet |
| Worksheets.Worksheet.FittedWidths | app.py:198-207 | one width per column, each the width rule applied to that column's longest rendered cell |
| Worksheets.Worksheet.AutoFitColumns | app.py:198-208 | sets each column's width to the rule's value, at most the cap, with room for every cell unless capped; other keys are unchanged |
| DesktopApp.ColPositions | desktopApp.py:28-29 | the increasing list of exactly the positions holding a string that strips to the request; numbers and NaN never match |
| DesktopApp.SeriesByPos | desktopApp.py:31-36 | raises exactly when there are at most k matches, with the name, k and all matches in the error; otherwise projects the data block at a matching string header preceded by exactly k matches |
| DesktopApp.SeriesByPosResolves | desktopApp.py:31-36 | `series_by_pos` over the raw header row raises the KeyError the pipeline's lookup step reports, or returns the data block at the position it picks |
| DesktopApp.ResolvedColumnsAreSeriesByPos | desktopApp.py:38-48 | when the lookups succeed, each column the pipeline extracts is what `series_by_pos` returns for that request |
| DesktopApp.ProcessOptionChain | desktopApp.py:14-79 | `NoHeaderRow` exactly when there are fewer than two rows; otherwise a frame exactly when all eight lookups succeed, else the first failing lookup's KeyError; the frame has the canonical shape and is derived from the resolved columns |
| DesktopApp.SaveWithColorScaling | desktopApp.py:107-118 | every column's width follows the width rule with cap 20 and is at most 20; widths of keys outside the sheet are unchanged |
| FrontEnds.HeaderLookupsAgree | app.py:47-63 | for a non-empty, non-placeholder name on a text-only header row, lookup over the cleaned names and over the raw strings find the same positions |
| FrontEnds.CleanedMatchesRaw | app.py:50-63 | at each position, the cleaned name matches a plain request exactly when the raw cell is a string that strips to it |
| FrontEnds.HeaderMatchAgrees | app.py:50-51 | for one non-numeric header cell, the cleaned name matches a plain request exactly when the raw cell is a string that strips to it |
| FrontEnds.RequiredNamesPlain | app.py:73-82 | the eight requested names are non-empty and not placeholders |
| FrontEnds.RequiredLookupsAgree | app.py:73-82 | the web and desktop lookups agree on all eight requested names for a text-only grid |
| FrontEnds.FrontEndsAgree | desktopApp.py:14-79 | on a text-only grid with a header row, the web app yields a frame exactly when the desktop app does, and it is the same frame |

## Left out

- The user interfaces are not modelled: Streamlit page, upload, download, preview styling and messages in `app.py`; Tkinter window, file dialogs and message boxes in `desktopApp.py`.
- Reading and writing workbook files is not modelled. The grid read with `header=None` is the input. The sheet `to_excel` writes is built from the frame.
- Fonts, borders, fills, alignment and number formats are not modelled. They only style cells and compute nothing.
- The conditional colour scales are not modelled, except for the one way they change the outcome. In `app.py` each range is `2:len(df)+1`, and on an empty frame openpyxl's cell-range parser raises ValueError before any width is set (`WebApp.ColourScaleRows`). That behaviour belongs to openpyxl, which is not part of this model. The desktop ranges are the fixed `2:1000` and are never empty.
- `pd.to_numeric`'s number grammar is the parameter `parse`. Its exact accepted syntax is pandas' and is not reproduced.
- The length of `str(x)` for a number in column `c` is the parameter `numberLength(c, x)`. Python's int and float repr are not reproduced.
- Worksheets.Worksheet.ColumnLengths: the renderer is chosen per column, which covers an int64 column (`1234`) beside a float64 column (`1234.0`). The model does not derive which columns pandas makes int64, and it cannot render two equal numbers of one object-dtype column (such as Time) differently.
- Arithmetic is on exact reals, not IEEE doubles. Products and quotients that a double cannot represent exactly may round differently.
- Cells are NaN, strings or numbers only. Dates, booleans and other Excel types are not modelled.
- The desktop data block keeps row labels starting at 2 (no `reset_index`). All its series share that index, so the values are the same and the labels are not modelled.
- The web app's catch-all also logs the message and traceback. The model returns only `None`.
- The desktop dialog shows `str(KeyError)`, which is Python's quoted repr of the message. `Extraction.KeyError.Message` models the message text itself.
- The code only indexes row 1, so a grid with exactly two rows gives an empty frame (`DataRowCount`).
- WebApp.OiChangeColumns: the letters in the `oi_change_cols` dictionary keys are not used. The columns come from `df.columns.get_loc`, as in the code.

## Findings

| source | as written | input that shows it | evidently intended | confidence | as-written member | corrected member |
|---|---|---|---|---|---|---|
| app.py:154-155 | every data cell of CE/PE OI CHANGE that is not `None` is compared with `0` | a data row whose `OI Chg` cell is blank or not a number: the frame holds NaN, `to_excel` writes it as the empty string, and `"" < 0` raises `TypeError`; the catch-all at app.py:290-291 then reports an error and no file is offered | skip missing values and colour only cells holding a negative number | medium, not executed | WebApp.ColourNegativeOiChangesAsWritten, WebApp.ApplyFormattingAsWritten, WebApp.MissingOiChangeRaises | WebApp.ColourNegativeOiChanges, WebApp.ApplyFormatting |
