# BOM wizard: a Dafny model of its sequential core

The BOM wizard is a three-step React front end:

1. The user pastes a bill of materials as text, or uploads a spreadsheet.
2. The user assigns a role (part number, quantity, manufacturer) to each column.
3. The wizard sends the grid to a processing endpoint and shows the result table, paginated, with an export button.

Two variants of the wizard exist:

- `src/App.tsx` with its step components.
- The older `src/App.default.tsx`, a single file.

This project models the logic under the rendering:

- both pasted-text parsers;
- the two updates of the column-to-role dictionary;
- the wizard's state and its handlers, including the `handleProcess` guard and transition, with the server's answer as a parameter;
- the pagination arithmetic of both variants;
- the enable and display predicates of the mapping step;
- the export guards.

Modules:

- `Wrappers`: `Option`.
- `Bom`: the shared values, namely the grid, roles, steps, modes, result rows, the abstract response, the request, and the notices a handler shows.
- `Text`: JavaScript `trim`, single-character `split` and `join`.
- `TextParse`: both `handleParseText` pipelines, the preview slice, the continue button and the round trips.
- `ColumnMap`: the default mapping and both dictionary updates.
- `Step2Mapping`: the mapping card, that is its selectors, the displayed role, the body and the button guard.
- `Step3Results`: the `Step3Result` pagination, navigation, columns and body.
- `App`: class `BomApp` for `src/App.tsx`.
- `AppDefault`: class `BomApp` for `src/App.default.tsx`.

Each of the two `BomApp` components, in `src/App.tsx` and in `src/App.default.tsx`, becomes a class:

- Its `useState` cells are fields.
- Each handler is a method that changes exactly the fields it sets.
- Every handler runs to completion before the next event.
- The JSX output is a `Render` function returning a `Screen` value.
- `fetch` plus `response.json()` is replaced by a `Response` parameter: `Unreachable`, or `Replied(ok, body)`, where `body` is the JSON `data` member, either an array of records or anything else.

The stateless step components (`Step1Upload`, `Step2Mapping`, `Step3Result`) become functions that compute their view from their props: `TextParse.ContinueEnabled`, `Step2Mapping.View` and `Step3Results.View`.

Behaviour worth knowing, as the code has it:

- The default mapping sends every column of the first row to `partNumber`, although the comment at `src/App.tsx:53` speaks of the first column only (`ColumnMap.DefaultMapping`).
- Short mode hides seven columns: the seller, the offer quantity, the delivery coefficient, the markup, the target purchase price, the cost with delivery and the target sale price (`Step3Results.ColumnsSelection`).
- The `src/App.default.tsx` parser splits cells on tabs only, not on semicolons, and keeps blank lines. It has no alert for empty text; only the disabled button guards it (`TextParse.ContinueMatchesTabs`).
- In `src/App.tsx` a failed request is only logged, while `src/App.default.tsx` alerts (`App.BomApp.HandleProcess`, `AppDefault.BomApp.HandleProcess`).
- The `src/App.tsx` reset does not reset the page number. A later, shorter result can therefore open on a page past the last one, showing the "no data" placeholder (`App.StalePageAfterReset`).
- In `src/App.default.tsx` an empty result has 0 pages. "Next" is then enabled and leads to page 0 (`AppDefault.EmptyResultPageZero`).

## Model

| member | source | states |
|---|---|---|
| Text.Trim | src/App.tsx:41 | the result is an infix of the input that neither starts nor ends with whitespace (ECMAScript WhiteSpace and LineTerminator), and it is empty exactly when the input is all whitespace |
| Text.TrimRemovesWhitespace | src/App.tsx:41 | every character `trim` removes, before and after the result, is whitespace, so the result is the longest such infix |
| Text.TrimIdempotent | src/App.tsx:44 | trimming a trimmed cell changes nothing |
| Text.Split | src/App.tsx:44 | a split has at least one part, and no part holds a separator |
| Text.SeparatorsOf | src/App.tsx:44 | the separator characters of the input, in order: as many as the input holds, each a member of the set |
| Text.SplitAtSeparators | src/App.tsx:44 | the parts of a split, joined back with the input's own separators in order, give the input, so every part ends exactly where a tab or semicolon stands, even on a line that mixes them |
| Text.SplitSingle | src/App.tsx:44 | a split that yields a single part yields the string itself |
| Text.SplitKeepsCharacters | src/App.tsx:44 | the parts concatenated are the input with its separators removed, and there is one more part than separators |
| Text.JoinSplit | src/App.default.tsx:41 | joining the parts of a split with its separator gives back the input |
| Text.SplitJoin | src/App.default.tsx:41 | separator-free parts joined with a separator split back into the same parts |
| TextParse.SplitLines | src/App.tsx:42 | `/\r?\n/` gives as many lines as splitting at the line feed, at least one, none holding a line feed |
| TextParse.SplitLinesCrLf | src/App.tsx:42 | lines joined with "\r\n" come back from `/\r?\n/` without their carriage returns |
| TextParse.NonBlankLines | src/App.tsx:43 | the filter keeps no blank line and returns no more lines than it was given |
| TextParse.NonBlankLinesKeepsAll | src/App.tsx:43 | lines that are all non-blank pass the filter unchanged |
| TextParse.NonBlankLinesSingle | src/App.tsx:43 | one line passes the filter exactly when it is not blank |
| TextParse.NonBlankLinesAppend | src/App.tsx:43 | the filter of a concatenation is the concatenation of the filters, so it keeps the order of the lines; with the single-line lemma this determines the filter completely |
| TextParse.NonBlankLinesMembers | src/App.tsx:43 | every non-blank line is kept, and everything kept is a line of the input |
| TextParse.ParseRow | src/App.tsx:44 | a line gives one cell per piece of its split at tab or semicolon, so at least one cell |
| TextParse.ParseText | src/App.tsx:40-44 | every parsed row has at least one cell |
| TextParse.RowOfNonBlankLine | src/App.tsx:43-44 | a non-blank line never parses to the single empty cell [""] |
| TextParse.ParsedRowsNotBlank | src/App.tsx:40-44 | no row of the parse is [""], the row a blank line would give |
| TextParse.NonBlankLineParsed | src/App.tsx:40-44 | every non-blank line of the trimmed text gives a row of the parse |
| TextParse.ParsedCellsAreClean | src/App.tsx:40-44 | every parsed cell is its own trim and holds neither tab nor semicolon |
| TextParse.ParseTextEmptyIff | src/App.tsx:40-46 | the parse has no rows exactly when the text is blank, which is the alert case |
| TextParse.EmptyTextParsesToNothing | src/App.tsx:40-46 | the empty text parses to no rows |
| TextParse.ParseRenderRoundTrip | src/App.tsx:40-44 | a clean grid written as tab-separated lines parses back to itself |
| TextParse.ParseRenderCrLfRoundTrip | src/App.tsx:40-44 | the same grid written with Windows line ends parses back to itself too |
| TextParse.PastedExample | src/App.tsx:40-44 | "A1\t10\nB2\t5" parses to [["A1","10"],["B2","5"]] |
| TextParse.ParseTextTabs | src/App.default.tsx:41 | the tab-only parse has at least one row, every row has a cell, and no cell holds a tab |
| TextParse.RenderParseTabs | src/App.default.tsx:41 | the tab-only parse loses nothing but the surrounding whitespace: its rows joined at tabs and line feeds are the trimmed text |
| TextParse.ParseTabsRenderRoundTrip | src/App.default.tsx:41 | a grid without tabs or line feeds, rendered so that the trim leaves it alone, parses back to itself |
| TextParse.PastedExampleTabs | src/App.default.tsx:41 | "A1\t10\nB2\t5" parses to [["A1","10"],["B2","5"]] under the tab-only parser too |
| TextParse.ParseTabsCrLf | src/App.default.tsx:41 | with Windows line ends the tab-only parser keeps a carriage return at the end of every row but the last; for two rows or more it disagrees with the `src/App.tsx` parser |
| TextParse.PreviewRows | src/App.tsx:51 | the preview is the first min(5, n) rows |
| TextParse.ContinueEnabled | src/components/steps/Step1Upload.tsx:31 | the continue button, disabled for `!rawData.trim()`, is enabled exactly when the text is not all whitespace |
| TextParse.ContinueMatchesParse | src/components/steps/Step1Upload.tsx:31 | the continue button is enabled exactly when the `src/App.tsx` parse yields rows |
| TextParse.ContinueMatchesTabs | src/App.default.tsx:162 | the continue button is enabled exactly when the tab-only parse starts with a non-empty cell; when it is disabled, the parse would be [[""]] |
| ColumnMap.HasPartNumber | src/App.tsx:129 | `Object.values(m).includes('partNumber')` holds exactly when some column maps to partNumber |
| ColumnMap.DefaultMapping | src/App.tsx:54-60 | the keys are exactly 0 .. width-1, and every value is partNumber |
| ColumnMap.FillDefaultMapping | src/App.tsx:55-58 | the `forEach` loop builds exactly the default mapping |
| ColumnMap.DefaultMappingHasPartNumber | src/App.tsx:54-60 | after a parse with at least one column, the partNumber guard holds |
| ColumnMap.Evicting | src/App.tsx:98-106 | `col` maps to `value` and is the only column that does; every other column keeps its entry exactly when its role differs from `value`, with the same role; no column other than `col` is added |
| ColumnMap.EvictingIdempotent | src/App.tsx:96-124 | the same change applied twice is the change applied once |
| ColumnMap.EvictingKeepsRolesUnique | src/App.tsx:100-106 | when every role is on at most one column, an update keeps it so |
| ColumnMap.EvictingPartNumber | src/App.tsx:100-106 | after an update the partNumber guard holds exactly when the new role is partNumber or another column held it |
| ColumnMap.Overwrite | src/App.default.tsx:68 | `col` maps to `value`; every other column keeps exactly its entry |
| ColumnMap.OverwriteAllowsDuplicates | src/App.default.tsx:68 | two columns can end up with the same role |
| ColumnMap.OverwritePartNumber | src/App.default.tsx:68 | choosing partNumber for any column satisfies the guard |
| Bom.Accepted | src/App.tsx:150-155 | a response delivers records exactly when it is an OK reply whose `data` is an array, and then they are that array |
| Bom.FailureReason | src/App.tsx:151-157 | a rejected response fails in transport, on a non-OK status, or on a bad body; it is a bad body exactly for an OK reply |
| Step2Mapping.RoleOptionsExact | src/components/steps/Step2Mapping.tsx:48-50 | the selector offers each of the three roles exactly once |
| Step2Mapping.DisplayedRole | src/components/steps/Step2Mapping.tsx:42 | a selector shows the mapped role, or partNumber for an unmapped column |
| Step2Mapping.ProcessEnabled | src/components/steps/Step2Mapping.tsx:72 | the process button is enabled exactly when some column maps to partNumber and no request is running |
| Step2Mapping.View | src/components/steps/Step2Mapping.tsx:39-72 | there is one selector per cell of the first parsed row, each showing its displayed role; the body is the preview rows; the button state is as above |
| Step2Mapping.EvictedColumnShowsPartNumber | src/components/steps/Step2Mapping.tsx:42 | a column the evicting update removes still shows "partNumber" |
| Step2Mapping.ShownPartNumberButDisabled | src/components/steps/Step2Mapping.tsx:42-72 | with two columns both set to quantity, column 0 shows partNumber, yet the button is disabled |
| Step3Results.ResultData | src/components/steps/Step3Results.tsx:28 | a non-array or missing `data` is the empty sequence |
| Step3Results.JsSlice | src/components/steps/Step3Results.tsx:31 | `slice` with non-negative bounds is the clamped subsequence; an end at or before the start gives nothing |
| Step3Results.CeilDiv | src/components/steps/Step3Results.tsx:29 | the least q with q·d ≥ n |
| Step3Results.TotalPages | src/components/steps/Step3Results.tsx:29 | the least page count ≥ 1 whose pages hold all rows |
| Step3Results.PageStart | src/components/steps/Step3Results.tsx:30 | a page's first index is non-negative from page 1 on |
| Step3Results.PageRows | src/components/steps/Step3Results.tsx:30-31 | a page holds at most S rows, namely data[(p-1)·S .. min((p-1)·S+S, N)], and none when its start is at or past N |
| Step3Results.Ordinal | src/components/steps/Step3Results.tsx:95 | from page 1 on, the "#" is at least 1 and comes after every row of the earlier pages |
| Step3Results.OrdinalIsPosition | src/components/steps/Step3Results.tsx:95 | the "#" of a displayed row is its 1-based position in the whole result |
| Step3Results.PagesUpToIsPrefix | src/components/steps/Step3Results.tsx:29-31 | pages 1 .. k together are the first min(k·S, N) rows |
| Step3Results.PagesCoverData | src/components/steps/Step3Results.tsx:29-31 | pages 1 .. totalPages together are the whole result, each row once and in order |
| Step3Results.NavigationStaysInRange | src/components/steps/Step3Results.tsx:159-175 | from a page in [1, totalPages] both buttons stay in range; an enabled button moves one page; a disabled one is at its end |
| Step3Results.PrevPage | src/components/steps/Step3Results.tsx:160 | "previous" goes back one page and never below page 1 |
| Step3Results.NextPage | src/components/steps/Step3Results.tsx:170 | "next" goes forward one page and never past the last page |
| Step3Results.PrevDisabled | src/components/steps/Step3Results.tsx:161 | a disabled "previous" would not move; an enabled one, from page 1 on, goes back one page |
| Step3Results.NextDisabled | src/components/steps/Step3Results.tsx:171 | a disabled "next" would not move; an enabled one, up to the last page, goes forward one page |
| Step3Results.Columns | src/components/steps/Step3Results.tsx:60-84 | both modes start with "#" and end with the status |
| Step3Results.ColumnsSelection | src/components/steps/Step3Results.tsx:60-135 | full mode shows every column, short mode exactly those outside the seven hidden ones |
| Step3Results.ColumnsDistinct | src/components/steps/Step3Results.tsx:60-84 | no column appears twice |
| Step3Results.RenderBody | src/components/steps/Step3Results.tsx:88-152 | the placeholder shows exactly when the page starts at or past the end of the data (or the size is 0); otherwise the i-th displayed row is the i-th row of the page's slice paired with its ordinal, which is its 1-based position in the whole result |
| Step3Results.View | src/components/steps/Step3Results.tsx:28-175 | it shows the mode's columns, page p of TotalPages (at least 1), the body RenderBody gives for that page, the placeholder exactly when the page starts at or past the end of the data, "previous" disabled exactly on page 1 and "next" exactly on the last page |
| App.ExportOffer | src/App.tsx:175-189 | no workbook and an alert exactly for no rows; otherwise the "Результаты" workbook of all rows |
| App.BomApp.constructor | src/App.tsx:27-37 | the initial state is step 1, empty text, no data, no mapping, no result, not loading, page 1 of 10 rows |
| App.BomApp.ResultRows | src/components/steps/Step3Results.tsx:28 | the stored array, or nothing |
| App.BomApp.EditText | src/components/steps/Step1Upload.tsx:27 | the text becomes the textarea's value |
| App.BomApp.Load | src/App.tsx:50-62 | it stores the rows and their preview, maps every column of a non-empty first row to partNumber, goes to step 2, and keeps the invariant |
| App.BomApp.HandleParseText | src/App.tsx:39-63 | an empty parse (blank text) gives an alert and no change; otherwise the parse, its preview, the default mapping and step 2, after which the partNumber guard holds |
| App.BomApp.HandleFileUpload | src/App.tsx:80-91 | the sheet's rows, their preview, the default mapping when the first row has cells, and step 2 |
| App.BomApp.HandleMappingChange | src/App.tsx:96-124 | the delete loop leaves exactly the evicting update, and unique roles stay unique |
| App.BomApp.HandleProcess | src/App.tsx:126-161 | without partNumber or without data: an alert and no change. Otherwise it sends mapping, data and mode and ends not loading; step 3 with the stored array exactly on an accepted answer; on failure step and result are unchanged and the error is only logged |
| App.BomApp.HandleExportExcel | src/App.tsx:163-173 | no download and an alert exactly when there are no rows; otherwise result.xlsx holding all rows |
| App.BomApp.Reset | src/App.tsx:287-292 | it clears data, mapping and text and goes back to step 1; nothing else changes |
| App.BomApp.GoToPreviousPage | src/components/steps/Step3Results.tsx:160 | the page becomes max(p-1, 1) |
| App.BomApp.GoToNextPage | src/components/steps/Step3Results.tsx:170 | the page becomes min(p+1, totalPages) |
| App.BomApp.ChangeRowsPerPage | src/components/steps/Step3Results.tsx:43-46 | the chosen size, and page 1 |
| App.BomApp.Render | src/App.tsx:270-314 | step 1 always renders, with the button enabled exactly when the parse has rows; step 2 renders only when there is data, with the preview body, one selector per column and the guard; each selector shows the column's displayed role; step 3 renders `Step3Results.View` of the stored rows for the current page and page size |
| App.StalePageAfterReset | src/App.tsx:307-312 | reset, a new paste, and an OK answer with 5 rows leave step 3 on page 2 of 1 with the placeholder |
| AppDefault.PageCount | src/App.default.tsx:27-28 | the least q with q·S ≥ N, which is 0 exactly for an empty result |
| AppDefault.PageCountsDiffer | src/App.default.tsx:28 | the two page counts agree exactly on non-empty results; on an empty one they are 0 and 1 |
| AppDefault.EmptyResultNextLeavesRange | src/App.default.tsx:303-312 | with no rows, "next" is enabled on page 1 and leads to page 0; there "next" is disabled and "previous" leads to page 1 |
| AppDefault.BomApp.constructor | src/App.default.tsx:16-25 | the initial state |
| AppDefault.BomApp.ResultRows | src/App.default.tsx:27 | the stored array, or nothing |
| AppDefault.BomApp.TotalPages | src/App.default.tsx:27-28 | the least page count that holds every row, `Math.ceil(N/S)`, which is 0 exactly for an empty result |
| AppDefault.BomApp.PaginatedData | src/App.default.tsx:33-38 | at most S rows, namely rows [(p-1)·S, min(p·S, N)); nothing on page 0 |
| AppDefault.BomApp.EditText | src/App.default.tsx:157 | the text becomes the textarea's value |
| AppDefault.BomApp.HandleParseText | src/App.default.tsx:40-44 | the first five rows of the tab-only parse (at least one, each with a cell and no tab in any cell) and step 2; the first cell is non-empty exactly when the button was enabled |
| AppDefault.BomApp.HandleFileUpload | src/App.default.tsx:51-62 | the sheet's first five rows and step 2 |
| AppDefault.BomApp.HandleMappingChange | src/App.default.tsx:66-81 | the overwrite update |
| AppDefault.BomApp.HandleProcess | src/App.default.tsx:83-123 | without partNumber or without data: an alert and no change. Otherwise it sends the mapping and the one to five kept rows and ends not loading; step 3 with the stored array exactly on an accepted answer; on failure step and result are unchanged and an alert names the reason |
| AppDefault.BomApp.HandleExportExcel | src/App.default.tsx:125-129 | no download and an alert exactly when there are no rows; otherwise result.xlsx |
| AppDefault.BomApp.Reset | src/App.default.tsx:213-218 | it clears rows, mapping and text and goes back to step 1 |
| AppDefault.BomApp.Reload | src/App.default.tsx:319-322 | "new analysis" returns to the initial state |
| AppDefault.BomApp.GoToPreviousPage | src/App.default.tsx:303 | the page becomes max(p-1, 1) |
| AppDefault.BomApp.GoToNextPage | src/App.default.tsx:311 | the page becomes min(p+1, totalPages), which is 0 for an empty result |
| AppDefault.BomApp.ChangeRowsPerPage | src/App.default.tsx:238-241 | the chosen size, and page 1 |
| AppDefault.BomApp.Render | src/App.default.tsx:145-326 | step 1 with the button enabled exactly for non-blank text; step 2 with one selector per column, the kept rows as body and the guard; step 3 with page, page count, each row paired with its ordinal, and the button states |
| AppDefault.EmptyResultPageZero | src/App.default.tsx:303-312 | an OK answer with no rows, then "next", shows page 0 of 0 with "next" disabled and "previous" enabled |

## Left out

- File reading is not modelled: `FileReader` and the spreadsheet library's `read`/`sheet_to_json`. `HandleFileUpload` takes the rows the library would return as a parameter. The silent exits when no file or no content is read are not modelled.
- Spreadsheet writing (`json_to_sheet`, `write`, `Blob`, `saveAs`) is foreign code. An export is a `Download` value naming the file, the sheet and the rows.
- `fetch`, the endpoint URL, headers and JSON decoding are replaced by the `Response` parameter. The error message texts are reduced to a `Reason`.
- The quote-request flow of `src/App.tsx:191-263` is not modelled: the polling for the Bitrix popup, the DOM form, the multipart POST and its alerts are timers, third-party globals and the DOM. Only `handleExportExcelKP`, which it calls, is modelled (`App.ExportOffer`).
- The auto-submit path is not modelled. It is a `setTimeout` behind `autoSubmitOnPartNumber`, which is constantly false. So are the `manualMapping` argument of `handleProcess` and the `mapping` that path passes.
- Asynchrony is not modelled. Each handler runs to completion, so the loading flag is never seen set by another handler, and a reset cannot overtake a pending request.
- Cells are strings. The spreadsheet library's numbers and the result fields' number formatting (`toFixed(2)`, floating point) are not modelled. Result records are kept as opaque field maps.
- `console.log`, CSS classes, row colouring, card texts and `src/main.jsx` are not modelled.
- `currentRows`, `startIdx` and `endIdx` in `src/App.default.tsx:29-31` are not modelled: nothing reads them.
- The result columns of `src/App.default.tsx:253-293` are not modelled; that table has no display mode.
- AppDefault.BomApp.Render: the selectors are counted, not described, because they show a placeholder and no role.
- TextParse.SplitLines: the contract gives the line count and that no line holds a line feed. Which carriage returns are dropped is stated for Windows joins by `TextParse.SplitLinesCrLf`, not for arbitrary text.
