# Handwritten menu recognition — a verified model

The application is a single page with a Cloudflare Pages backend. It reads
handwritten shopping or stock lists from photographs. The user drops, picks or
pastes an image. The page posts it to `/api/ocr`, which runs the vision model
several times concurrently and streams progress as newline-delimited JSON
(NDJSON). When more than one answer yields a table, a second model is asked to
consolidate them. The page renders the final table as rows of four editable
cells, lets the user drag-select a rectangle of cells, and copies the
selection or the whole table as tab-separated text. A middleware gates pages
and API calls behind an optional access token.

This project models that core in Dafny and proves what it promises:

- `Text` — JavaScript whitespace, `split`/`join` on one character, and
  decimal rendering of naturals.
- `Json` — JSON values, `JSON.parse` (the full grammar; numbers kept as their
  text) and `JSON.stringify` with and without an indent.
  `JsonRoundTrip` proves that decoding what is serialised gives the value back.
- `ResultParser` — `parseJSONResult`: the regular expression
  `/\[\s*\[[\s\S]*?\]\s*\]/` as an executable matcher, proved equal to the
  leftmost-then-shortest match, followed by `JSON.parse` and the non-empty
  array check.
- `Events` — the `sendProgress`, `sendError` and `sendResult` encoders: one
  JSON object per line.
- `Orchestrator` — `onRequestPost`: the checks made before the stream opens,
  and the stream itself. Worker dispatch, `Promise.all` over the settlements
  in completion order, filtering of valid tables, the consolidation prompt,
  and the final decision. The model calls are not made; their answers are
  parameters, and the calls made are returned.
- `AccessGate` — the `onRequest` token middleware.
- `StreamClient` — the page's reading loop with its line buffer, and
  `handleStreamMessage`.
- `Pipeline` — the endpoint's stream read by the page, whatever the chunking.
- `TableView` — `displayResults`, with row padding and the throw on a `null`
  item. The class `Sheet` holds the rendered rows and the selection state
  (`isSelecting`, `selectionStart`, `selectedCells`). Its methods are the
  mouse-down, mouse-over, focus and mouse-up handlers. Also here:
  `getSelectedCellsText` and `getAllTableText`.
- `Upload` — the type and size checks of `handleFile` and `handlePastedImage`.

## Model

| member | source | states |
|---|---|---|
| AccessGate.Gate | functions/_middleware.js:7-127 | an API refusal always carries the serialised `UNAUTHORIZED` error object |
| AccessGate.OpenWithoutToken | functions/_middleware.js:104-107 | with no token configured, or an empty one, every request is handed on |
| AccessGate.StaticPathsPass | functions/_middleware.js:12-14 | paths outside `/api/` other than `/` and `/index.html` pass whatever the tokens |
| AccessGate.BareApiIsStatic | functions/_middleware.js:12 | `/api` without its slash is neither an API path nor the index page |
| AccessGate.PageNeedsQueryToken | functions/_middleware.js:14-97 | with a token set, the index page opens iff the query token equals it, and is otherwise answered with the HTML 401 |
| AccessGate.ApiNeedsHeaderToken | functions/_middleware.js:102-126 | with a token set, an API call passes iff its header equals it; otherwise the JSON 401 body decodes to an error whose code is `UNAUTHORIZED` |
| AccessGate.DeniedBodyReadsBack | functions/_middleware.js:108-115 | the 401 body decodes back to its object, and its `error.code` is `UNAUTHORIZED` |
| AccessGate.MissingHeaderRefused | functions/_middleware.js:103-107 | an API call without the header is refused once a token is set |
| AccessGate.RoutesReadOneToken | functions/_middleware.js:12-107 | pages never depend on the header, API calls never depend on the query parameter |
| Orchestrator.ErrorMessage | functions/api/ocr.js:323 | the reported message is never empty, and it is the thrown message whenever that is not empty |
| Orchestrator.Admit | functions/api/ocr.js:154-206 | an admitted request runs between 1 and 10 workers; its partners `ImageCheckedFirst`, `ConcurrencyCheckedBeforeKey`, `KeyCheckedLast`, `UnreadableIsInternal` and `AdmittedMeans` state each refusal and when the stream opens |
| Orchestrator.KeyCheckedLast | functions/api/ocr.js:193-206 | with an image and a concurrency in 1..10, a missing or empty API key is answered with 500 `NO_API_KEY` and the message `API密钥未配置` |
| Orchestrator.UnreadableIsInternal | functions/api/ocr.js:338-350 | a body that `request.json()` (line 156) cannot read is answered with 500 `INTERNAL_ERROR`, whose message is the thrown one or, when that is empty, the fallback |
| Orchestrator.ImageCheckedFirst | functions/api/ocr.js:160-171 | a missing or empty image is answered with 400 `NO_IMAGE`, whatever else the request holds |
| Orchestrator.ConcurrencyCheckedBeforeKey | functions/api/ocr.js:177-206 | a concurrency outside 1..10 (the request's when set and non-zero, else the configured one) is answered with 400 `INVALID_CONCURRENCY` before the key is looked at |
| Orchestrator.AdmittedMeans | functions/api/ocr.js:155-206 | the stream opens iff the body is readable, the image and key are present and the effective concurrency is in 1..10; the request's concurrency wins over the configuration, which wins over 5 |
| Orchestrator.FallbackRunsFive | functions/api/ocr.js:13-20 | with the built-in configuration and no requested concurrency, five workers run |
| Orchestrator.RefusalStatus | functions/api/ocr.js:159-206 | refusals are 400 exactly for `NO_IMAGE` and `INVALID_CONCURRENCY`, 500 exactly for `NO_API_KEY` and `INTERNAL_ERROR` |
| Orchestrator.RejectionReadsBack | functions/api/ocr.js:161-170 | the JSON error body decodes back to `{success:false, error:{code, message}}` with the refusal's code and message |
| Orchestrator.FirstFailure | functions/api/ocr.js:247 | `Promise.all` rejects at the first failed settlement, all earlier ones having completed; it fulfils only when every worker completed |
| Orchestrator.ValidTables | functions/api/ocr.js:251-253 | no more tables than replies, and none of them empty |
| Orchestrator.TextsInWorkerOrder | functions/api/ocr.js:226-247 | each reply lands in its own worker's slot, whatever the completion order |
| Orchestrator.ValidTablesAppend | functions/api/ocr.js:251-253 | the filter keeps the replies' order: the tables of `a + b` are those of `a` followed by those of `b` |
| Orchestrator.ValidTablesCount | functions/api/ocr.js:251-253 | every reply is kept iff each one parses; none is kept iff none parses |
| Orchestrator.ConsolidationPrompt | functions/api/ocr.js:87-91 | the prompt sent to the consolidation model; its partner `PromptCarriesTables` proves it holds the instruction and then every valid table, labelled and in order, with nothing else |
| Orchestrator.PromptCarriesTables | functions/api/ocr.js:87-91 | the consolidation prompt is the instruction and a blank line, then every valid table in order, counting from 1: the `i`-th labelled `第i次识别结果：` and followed by its JSON, pretty-printed with two spaces, which reads back as that table. Blocks are separated by blank lines and nothing follows the last |
| Orchestrator.ScaledQuotient | functions/api/ocr.js:237 | the completion percentage lies in 10..70, never falls as completions grow, and is 70 exactly at the last completion |
| Orchestrator.CountPercent | functions/api/ocr.js:236-242 | the same facts for the progress event each completion sends |
| Orchestrator.Dispatch | functions/api/ocr.js:226-234 | one recognition call per worker, numbered 0..n-1, each with the OCR instruction |
| Orchestrator.AwaitAll | functions/api/ocr.js:225-247 | settlements are counted and reported in completion order; the first failure ends the wait with `INTERNAL_ERROR` and its message; otherwise the replies are returned in worker order |
| Orchestrator.Decision | functions/api/ocr.js:256-314 | the events after all workers complete; its partners `NoValidResultsMeans`, `ConsolidationFailedMeans`, `SuccessMeans` and `ConsolidationReported` state when each outcome is sent |
| Orchestrator.StreamEvents | functions/api/ocr.js:216-326 | the specification of the whole stream; its partners `StreamShape`, `StreamWellFormed`, `WorkerFailureMeans` and the other `*Means` lemmas state its shape and the meaning of each ending |
| Orchestrator.CallsMade | functions/api/ocr.js:226-289 | the model calls the stream makes; its partners `ConsolidationReported` and `WorkerFailureMeans` state when the consolidation model is called |
| Orchestrator.Decide | functions/api/ocr.js:262-314 | after the 75% report: no table is `NO_VALID_RESULTS`; one table is sent at 90%; several go to the consolidation model, whose throw, empty reply or unparsable reply become `INTERNAL_ERROR` or `CONSOLIDATION_FAILED` |
| Orchestrator.RunStream | functions/api/ocr.js:216-326 | the stream's events are the specified sequence, and exactly the specified model calls are made |
| Orchestrator.OnRequestPost | functions/api/ocr.js:151-352 | a refused request gets its JSON error and no model call; an admitted one gets the NDJSON encoding of the specified events |
| Orchestrator.StreamShape | functions/api/ocr.js:216-326 | every stream opens with the 5% and 10% reports, its progress never falls and stays within 5..95, and it ends with exactly one error or result |
| Orchestrator.DecisionLast | functions/api/ocr.js:262-314 | when every worker completes, the stream ends the way the decision part ends |
| Orchestrator.WorkerFailureMeans | functions/api/ocr.js:318-325 | a worker failure ends the stream after the completions before it, with the worker's message, and the consolidation model is never called |
| Orchestrator.SuccessMeans | functions/api/ocr.js:272-314 | a result is sent only when every worker completed and some table was valid. Its items are the single table, or the table parsed from the consolidation reply. Its metadata carries the concurrency and the number of valid tables |
| Orchestrator.NoValidResultsMeans | functions/api/ocr.js:262-270 | the stream ends with `NO_VALID_RESULTS` iff every worker completed and no reply held a table |
| Orchestrator.ConsolidationFailedMeans | functions/api/ocr.js:292-300 | the stream ends with `CONSOLIDATION_FAILED` iff consolidation was asked and its reply was empty or held no table |
| Orchestrator.ConsolidationReported | functions/api/ocr.js:277-290 | the consolidation model is called iff the stream reports 80% |
| Orchestrator.StreamWellFormed | functions/api/ocr.js:306-314 | every event of the stream carries only well-formed JSON |
| Events.SecondsIsNumber | functions/api/ocr.js:302-312 | `parseFloat(t.toFixed(2))` for a time in hundredths is written as a valid JSON number |
| Events.SecondsExamples | functions/api/ocr.js:302 | 1.50 s is written `1.5`, 2.00 s `2`, and 0.07 s `0.07` |
| Events.EventIsWellFormed | functions/api/ocr.js:121-148 | every event object is well-formed JSON |
| Events.EncodeEventIsOneLine | functions/api/ocr.js:121-148 | each event is a JSON text without line feeds, then one line feed, and the text decodes back to the event's object |
| Events.EventFields | functions/api/ocr.js:121-148 | the event's `type` names its kind; progress carries `progress` and `message`; an error carries `error.code` and `error.message`; a result carries `success: true` and `data.items`/`data.metadata` |
| Events.EventJson | functions/api/ocr.js:121-148 | the object each `send*` function builds; its partners `EventFields` and `EventIsWellFormed` state its fields and that it is well-formed JSON |
| Events.EncodeEvent | functions/api/ocr.js:121-148 | one NDJSON line; its partner `EncodeEventIsOneLine` proves it is a JSON text without line feeds, then one line feed, that decodes back to the event |
| Events.EncodeAll | functions/api/ocr.js:216-326 | the response body; its partners `StreamClient.SplitEncoded` and `StreamClient.BrowserSeesEvents` prove it splits into one line per event and reads back as those events |
| ResultParser.Accept | functions/api/ocr.js:36-38 | a decoded value is kept iff it is a non-empty array, and then it is that array |
| ResultParser.FirstMatch | functions/api/ocr.js:33 | the executable matcher; its partners `FirstMatchMeaning` and `FirstMatchIs` prove it finds exactly the leftmost, then shortest, match of the pattern |
| ResultParser.ParseJsonResult | functions/api/ocr.js:30-45 | a table returned is never empty |
| ResultParser.FirstMatchMeaning | functions/api/ocr.js:33 | the matcher finds the leftmost, then shortest, span the pattern matches, and finds nothing iff the pattern matches nowhere |
| ResultParser.RegexMatchUnique | functions/api/ocr.js:33 | the leftmost-shortest match is unique |
| ResultParser.FirstMatchIs | functions/api/ocr.js:33 | any leftmost-shortest match is the one the matcher returns |
| ResultParser.ParseJsonResultMeaning | functions/api/ocr.js:30-45 | `null` when the pattern matches nowhere; otherwise exactly the acceptance test applied to `JSON.parse` of the matched text |
| ResultParser.LaterTextIgnored | functions/api/ocr.js:33-35 | once a text contains a match, nothing appended after it changes the match or the result |
| ResultParser.EmptyRowAccepted | functions/api/ocr.js:33-38 | `[[]]` is accepted as a table with one empty row: neither row width nor cell type is checked |
| ResultParser.MalformedDecode | functions/api/ocr.js:35 | `[[x]]` is not JSON |
| ResultParser.MalformedMatchHidesLaterArray | functions/api/ocr.js:33-44 | a first match that is not JSON yields `null`, even when a valid table follows it |
| ResultParser.TableRoundTrip | functions/api/ocr.js:30-45 | a table of strings written by `JSON.stringify` inside prose (no `[` before it, no `]` in its cells) is read back exactly |
| JsonRoundTrip.DecodeSerialize | functions/api/ocr.js:88 | `JSON.parse` of `JSON.stringify(v, null, gap)` gives `v` back, for any whitespace indent |
| JsonRoundTrip.DecodeStringify | functions/api/ocr.js:128 | `JSON.parse(JSON.stringify(v))` gives `v` back |
| JsonRoundTrip.DecodeWellFormed | functions/api/ocr.js:35 | whatever `JSON.parse` returns is well formed |
| Json.Decode | functions/api/ocr.js:35 | `JSON.parse`; its partners `JsonRoundTrip.DecodeSerialize` and `JsonRoundTrip.DecodeWellFormed` prove it inverts serialisation and returns only well-formed values |
| Json.Serialize | functions/api/ocr.js:88 | `JSON.stringify(v, null, gap)`; its partner `JsonRoundTrip.DecodeSerialize` proves that decoding it gives `v` back |
| Json.Stringify | functions/api/ocr.js:128 | `JSON.stringify(v)`; its partner `JsonRoundTrip.DecodeStringify` proves that decoding it gives `v` back |
| Text.JoinSplit | script.js:276 | joining the parts of `s.split(c)` with `c` gives `s` back |
| Text.SplitJoin | script.js:276 | splitting parts without `c`, joined with `c`, gives the parts back |
| Text.SplitPartsFree | script.js:276 | no part of `s.split(c)` contains `c` |
| StreamClient.LineEffects | script.js:283-290 | a line has at most one effect, and has one iff it is not blank and `JSON.parse` accepts it |
| StreamClient.HandleCompleteLines | script.js:282-291 | the lines of one chunk are handled one after another |
| StreamClient.HandleLines | script.js:282-301 | the effects of a list of lines handled in turn; its partners `ReadStream`, `LineEffects` and `SkippedLines` tie it to the reading loop and say which lines have an effect |
| StreamClient.HandleMessage | script.js:312-341 | `handleStreamMessage`; its partner `DispatchEvent` proves each event object the server sends reaches the reaction meant for it |
| StreamClient.Reaction | script.js:312-341 | the reaction meant for each event kind; its partners `DispatchEvent` and `Pipeline.TerminatedShown` state that each event is shown so, in order |
| StreamClient.ReadStream | script.js:263-302 | whatever the chunking, the effects are those of handling the lines of the whole body, the unterminated last line included |
| StreamClient.LineBuffer | script.js:273-279 | neither the kept buffer nor any handed-out line holds a line feed, and lines plus buffer are exactly what was read |
| StreamClient.SkippedLines | script.js:283-289 | a blank or unparsable line has no effect and does not stop the lines after it |
| StreamClient.DispatchEvent | script.js:312-341 | each event object the server sends is dispatched to the reaction meant for it |
| StreamClient.Reactions | script.js:312-341 | one reaction per event |
| StreamClient.SplitEncoded | script.js:276 | the body splits into one line per event and an empty rest |
| StreamClient.BrowserSeesEvents | script.js:263-341 | reading the body the server wrote shows each event in order, with nothing added or lost |
| Pipeline.PageFollowsStream | script.js:263-341 | however the body is cut into chunks, the page shows progress updates, then exactly one error or one table, last |
| Pipeline.TerminatedShown | script.js:312-341 | a sequence of progress events ended by one error or result is shown as progress and then that one outcome |
| TableView.RenderRow | script.js:364-368 | each rendered row has exactly four cells |
| TableView.FirstNull | script.js:360-367 | rendering stops at the first `null` item, and every item before it is not `null` |
| TableView.RowPadding | script.js:364-368 | cell `k` of an array item is its element `k` when present and truthy, and empty otherwise |
| TableView.Element | script.js:367 | `item[colIndex]`; its partner `RowPadding` states that cell `k` of an array item is its element `k` when present and truthy |
| TableView.CellText | script.js:367 | `item[colIndex] \|\| ''`; its partners `RowPadding` and `StringTableRenders` state that a falsy or missing value shows as an empty cell |
| TableView.Render | script.js:360-381 | the rows `displayResults` builds; its partners `RenderStopsAtNull` and `StringTableRenders` state that it throws iff some item is `null` and which rows it keeps |
| TableView.EmptyRowPadded | script.js:367 | `[[]]` renders as one row of four empty cells |
| TableView.StringTableRenders | script.js:360-381 | a table of string arrays renders every row, cell `k` being the string or empty past the row's end |
| TableView.RenderStopsAtNull | script.js:360-381 | rendering throws iff some item is `null`, and the rows kept are those before it |
| TableView.Sheet.Display | script.js:352-381 | the body is replaced by the rendering of the items, the throw is reported, and the selection state is untouched |
| TableView.Sheet.MouseDown | script.js:415-442 | a single click selects exactly the clicked cell and starts a drag from it; any other click leaves everything as it was |
| TableView.Sheet.MouseOver | script.js:445-474 | during a drag the selection becomes the rendered cells of the rectangle from the start cell to the hovered one, in document order; otherwise nothing changes |
| TableView.Sheet.Focus | script.js:477-486 | focusing a cell drops a non-empty selection and ends the drag; with nothing selected nothing changes |
| TableView.Sheet.MouseUp | script.js:125-127 | the drag ends and nothing else changes |
| TableView.WithinMembers | script.js:464-473 | the selection holds exactly the listed cells inside the rectangle |
| TableView.WithinDistinct | script.js:464-473 | no cell is selected twice |
| TableView.TableCellsMembers | script.js:464 | the rendered cells are exactly the positions in the body, each once |
| TableView.DragSelection | script.js:457-473 | a drag selects exactly the rendered cells of the rectangle, each once |
| TableView.RectangleSymmetric | script.js:458-461 | dragging from `a` to `b` selects what dragging from `b` to `a` does |
| TableView.CornersSelected | script.js:457-473 | both corners of a drag inside the table are selected |
| TableView.Ascending | script.js:572-575 | the keys sorted numerically: exactly the members below the bound, strictly increasing |
| TableView.Bound | script.js:561-569 | a bound above every selected row and column |
| TableView.LinesBound | script.js:572-579 | any bound above the selected rows and columns gives the same copied lines |
| TableView.SelectionOrderIrrelevant | script.js:554-580 | the copied text depends on which cells are selected, not on their order |
| TableView.SelectionShape | script.js:554-580 | an empty selection copies as `""`; otherwise one line per selected row, rows ascending |
| TableView.SelectionText | script.js:554-580 | `getSelectedCellsText` on a selection and rows; its partners `SelectionShape`, `SelectionOrderIrrelevant` and `CopyRectangle` state its lines and their order |
| TableView.Sheet.SelectedText | script.js:554-580 | the copied selection of the sheet; its partners `SelectionShape` and `CopyRectangle` state what a dragged rectangle copies as |
| TableView.AscendingCount | script.js:572 | sorting lists each key once |
| TableView.IncreasingUnique | script.js:572-575 | two increasing sequences with the same members are equal |
| TableView.RectangleKeys | script.js:557-569 | a drag's rows are the rectangle's rows, and each has the rectangle's columns |
| TableView.CopyRectangle | script.js:554-580 | copying a dragged rectangle gives its rows top to bottom, each cut to its columns and joined by tabs, separated by line feeds |
| TableView.TableTextLines | script.js:583-598 | the copied table splits back into its lines: the header first, then one line per row |
| TableView.TableText | script.js:583-598 | `getAllTableText`; its partners `TableTextLines` and `RowReadsBack` prove it splits back into the header and one line per row, each into its cells |
| TableView.Sheet.AllText | script.js:583-598 | the copied table of the sheet; its partner `TableTextLines` states its lines |
| TableView.RowReadsBack | script.js:591-594 | a copied row without tabs in its cells splits back into its cells |
| Upload.FileAccepted | script.js:166-178 | a file is taken iff its type is listed and its size is at most the limit; otherwise the message is the format or the size one |
| Upload.CheckFile | script.js:166-178 | `handleFile`'s checks; its partners `FileAccepted`, `TypeCheckedFirst` and `SizeLimitInclusive` state when a file is taken and which message a refusal carries |
| Upload.CheckPasted | script.js:630-636 | `handlePastedImage`'s check; its partner `PastedSizeOnly` states that it judges by size alone |
| Upload.TypeCheckedFirst | script.js:167-171 | an unlisted type is reported as such whatever the size |
| Upload.SizeLimitInclusive | script.js:173-178 | a file exactly at the limit is taken; one byte more is refused with the size message |
| Upload.PastedSizeOnly | script.js:630-636 | a pasted image is judged by size alone, as a chosen file of an allowed type would be |
| Upload.DefaultLimits | script.js:86-90 | with the fallback configuration the limit is 10 MiB, the message names 10MB, WebP is taken and GIF refused |

## Left out

- The vision and consolidation model calls (`performOCR`, `consolidateResults`' request) are not modelled. Their answers are parameters: the worker outcomes in completion order, and a function from prompt to reply.
- Concurrency is modelled as one interleaving: the workers' settlements in completion order. Two completions never interleave inside the code after `await`, as in JavaScript's single thread.
- `loadConfig` (both files) is not modelled. The configuration is a parameter, and the built-in fallbacks are constants.
- Model names, the timeout and `enableThinking` are only passed on to the model API, so they are not modelled.
- `Date.now()` is a parameter: the processing time in hundredths of a second, which is all `toFixed(2)` keeps.
- `Orchestrator.CompletionPercent`: `Math.floor((c / n) * 60)` is modelled as the integer quotient `60c div n`. This holds for every `n` in 1..10 but is not proved in floating point.
- `Orchestrator.Admit`: a concurrency that is not an integer (`2.5`, `"3"`) is not modelled; the request's value is an optional integer.
- `Orchestrator.Admit`: the image is an optional string. `if (!image)` also refuses `0` and `false`, and it admits a number or an object as the image; neither case is modelled.
- `TextEncoder`/`TextDecoder` are not modelled: chunks are strings. A chunk boundary inside a multi-byte character is not modelled.
- Strings are sequences of Unicode code points (Dafny characters), not of UTF-16 code units. A `\u` escape of a surrogate pair decodes to one character, and a lone surrogate escape, which `JSON.parse` accepts, makes the decoder fail.
- `TableView.Element`: a string item is indexed by code point, where JavaScript indexes by UTF-16 code unit. For the row `"😀ab"` the page shows the cells `"\uD83D"`, `"\uDE00"`, `"a"`, `"b"`; the model shows `"😀"`, `"a"`, `"b"`, `""`.
- JSON numbers keep their text: `1.0` and `1` are different values, and `JsString` shows a number's text rather than JavaScript's canonical form.
- `Json.Truthy` and `TableView.RenderRow`: numbers outside the range of a double are not modelled. JavaScript reads `1e-400` as 0, so `item[k] || ''` shows an empty cell, while the model shows `1e-400`. JavaScript reads `1e400` as `Infinity`, so the server's `JSON.stringify` writes it as `null`. A reply `[["a"],1e400]` therefore reaches the page as `[["a"],null]` and rendering stops at that row; the model keeps and renders the number.
- JSON objects are member lists. `Json.Lookup` takes the last member with a name, as `JSON.parse` keeps the last of duplicates. `Json.Serialize` keeps the written order and writes duplicates again. JavaScript's `JSON.stringify` of a parsed object (the prompt, the result event) puts integer-like keys first in ascending order and writes each key once. So a reply item `{"b":"x","0":"y"}` is sent as `{"0":"y","b":"x"}` by the server, but in its written order by the model. Model replies can hold such objects.
- `TableView.Element`: indexing an object item uses the key's digits. Getters, prototypes and the other JavaScript property rules are not modelled.
- The DOM, CSS classes, the clipboard, `setTimeout`, `FileReader`, `formatFileSize`, previews and the HTML body of the 401 page are not modelled. The page's 401 is the `PageDenied` decision.
- `functions/constants.js` is not part of this model.
- `TableView.Sheet.MouseDown`: a double click calls `focus()`, which runs the focus handler. The model leaves the state unchanged and `Focus` is a separate method.
- `TableView.Content`: after a re-render, `selectedCells` still holds the old cells and their old text. The model reads the new body at the same positions, and a vanished position reads as empty.
- Editing a cell's text (`contentEditable`) is not modelled; rows change only through `Display`.
- `handleGlobalPaste`'s search for an image item, and the `selectedFile`/`currentImageBase64` state the upload handlers set, are not modelled. `startRecognition`'s request and its `!response.ok` error path are not modelled either.
- `StreamClient.ReadStream`: the chunks always end normally. When `reader.read()` rejects mid-stream, the outer catch hides the progress bar and shows the error; that path is not modelled.
- `ResultParser.TableRoundTrip` requires that no cell contains `]`. Only a `]` followed by optional whitespace and a second `]` ends the match early, so the lemma is weaker than the code allows.
- `Upload.CheckFile`: a fractional `maxSizeMB` is not modelled; the limit is a natural number of megabytes.
