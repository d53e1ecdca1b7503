# Fiori dashboard app and CSV export, modelled in Dafny

This project models the logic of a SAPUI5 Fiori dashboard application and of
the CSV export it ships with. It states that logic as Dafny functions,
methods and classes, and proves what the code promises about it. One module
per source file:

- **CsvBuilder**: the CSV builder. It validates the column list and the
  separator, and escapes each cell: trim, strip a byte order mark, guard
  formulas with an apostrophe unless the text is a safe number, truncate to
  32,760 characters, and quote. It appends rows and builds the UTF-8 payload
  with its byte order mark. The central result: every written row reads
  back, under RFC 4180, as one field per column.
- **Rfc4180**: a reference reader for RFC 4180 fields and records. It is the
  partner against which the escaping is proved.
- **Utf8**: a UTF-8 encoder and decoder as RFC 3629 defines them, standing
  for the browser's TextEncoder. Decoding inverts encoding.
- **CommaSeparatedValues**: the CSV export facade. It normalises the data
  source, fills in default settings, and runs the build with its "already
  running" guard and cancel flag.
- **SpreadsheetExport**: the choice of export strategy (direct from an array,
  in process, or in a web worker). Also the worker fallback chain (direct
  worker, then blob worker, then in process) and the messages each strategy
  posts to its callback.
- **ExcelFileControl**: the upload tables of the employee and product
  sheets. It checks an uploaded header row against the expected fields and
  turns the remaining rows into records.
- **Formatter**: the view formatters. Value states for stock, rating and
  availability; capitalisation; list conversion; date reordering; and the
  input validators with their messages.
- **Dashboard**: the low-stock list sorted by stock, the stock histogram
  (buckets of a fixed size plus "Out of stock"), and the products behind
  selected bars. Array.prototype.sort is modelled as an in-place insertion
  sort on an array.
- **Employee**: the distinct values offered in the employee list's filter
  boxes, the filters a search builds, and the sort path a column selects.
- **Master**: the master-data upload page. Soft deletion (isDeleted = "X"),
  the live-row count, save, add and edit, and the section resets. The page
  model is a class whose fields are the model properties.
- **EmpDetails**: the employee details page. Editing a copy, per-field
  validation that keeps a list of paths in error, the modified flag, and
  the save guard.
- **ProdDetails**: the product page's own review. It is loaded into the
  rating dialog, and saving it updates the anonymous review in place or
  puts a new one at the head of the list.
- **JsCore**: the JavaScript semantics these share:
  - values and truthiness;
  - property access and `??`;
  - trim over the ECMAScript whitespace set;
  - String() of natural numbers and parseInt;
  - split and join;
  - a Set's insertion order.

Values are modelled as follows:

- JavaScript values are a datatype (`JsCore.JsValue`).
- A number read from text is carried as its text.
- Where the code compares numbers, they are an opaque `JsNumber`: NaN,
  ±Infinity, or a finite real.
- A TypeError the code would throw is an explicit `None` or failure result.
- Asynchronous callbacks are separate methods, called in the order in which
  the events happen.

`CSVBuilder.getValue` reads `oData[sProperty]` as one flat key. A column
property such as `company/title` is therefore looked up as that literal key,
not as a nested path. The model follows the code here.

## Model

| member | source | states |
|---|---|---|
| JsCore.Coalesce | portfolio-react/public/projects/fioriApp/utils/ExcelFileControl-dbg.js:298 | `v ?? d`: v itself unless it is null or undefined, then the default |
| JsCore.Member | portfolio-react/public/projects/fioriApp/resources/sap/ui/export/js/CSVBuilder.js:88 | reading a property fails (the TypeError) exactly on null and undefined; an object gives its own field, or undefined for a missing key; an array or a string gives its length under "length" and undefined under any key that is neither "length" nor an index |
| JsCore.MemberAtIndex | portfolio-react/public/projects/fioriApp/resources/sap/ui/export/js/CSVBuilder.js:88 | the text of an index is an index key, and reading it from an array gives the item there and from a string the one-character string there, or undefined past the end |
| JsCore.LeadingBlanks | portfolio-react/public/projects/fioriApp/resources/sap/ui/export/js/CSVBuilder.js:124 | the count of opening characters removed by trim: all of them are ECMAScript whitespace and the next one is not |
| JsCore.TrailingBlanks | portfolio-react/public/projects/fioriApp/resources/sap/ui/export/js/CSVBuilder.js:124 | the count of closing characters removed by trim: all whitespace, and the one before them is not |
| JsCore.TrimEnds | portfolio-react/public/projects/fioriApp/resources/sap/ui/export/js/CSVBuilder.js:124 | a trimmed string is empty or starts and ends with a non-whitespace character |
| JsCore.TrimIsSlice | portfolio-react/public/projects/fioriApp/resources/sap/ui/export/js/CSVBuilder.js:124 | a trimmed string is the contiguous part of the input that follows the leading whitespace |
| JsCore.TrimEmptyIff | portfolio-react/public/projects/fioriApp/model/Formatter-dbg.js:108 | `trim() === ""` holds exactly when every character is whitespace (both directions) |
| JsCore.TrimUnchanged | portfolio-react/public/projects/fioriApp/controller/Master-dbg.controller.js:331-337 | a string with no whitespace at either end is its own trim |
| JsCore.TrimIdempotent | portfolio-react/public/projects/fioriApp/controller/Master-dbg.controller.js:331-337 | trimming twice gives the same as trimming once |
| JsCore.ToLowerCase | portfolio-react/public/projects/fioriApp/controller/Employee-dbg.controller.js:225 | same length; every character lower-cased |
| JsCore.Capitalize | portfolio-react/public/projects/fioriApp/controller/Employee-dbg.controller.js:103 | `charAt(0).toUpperCase() + slice(1)`: same length, first character upper-cased, the rest unchanged |
| JsCore.NatToString | portfolio-react/public/projects/fioriApp/controller/Dashboard-dbg.controller.js:88-90 | the decimal text of a number: non-empty, digits only |
| JsCore.DigitPrefix | portfolio-react/public/projects/fioriApp/controller/Dashboard-dbg.controller.js:104-105 | the digits parseInt reads: a prefix of the text, all digits, followed by a non-digit or the end |
| JsCore.ParseIntRejects | portfolio-react/public/projects/fioriApp/controller/Dashboard-dbg.controller.js:104-105 | parseInt of text opening with a character that is not whitespace, sign or digit is NaN |
| JsCore.ParseIntOfNatToString | portfolio-react/public/projects/fioriApp/controller/Dashboard-dbg.controller.js:104-105 | parseInt reads back the number a label was written with, whatever non-digit text follows it |
| JsCore.NatToStringInjective | portfolio-react/public/projects/fioriApp/controller/Dashboard-dbg.controller.js:88-90 | different numbers are written as different text |
| JsCore.SplitNoSeparator | portfolio-react/public/projects/fioriApp/controller/EmpDetails-dbg.controller.js:132-136 | split of a text without the separator is the one-element list of that text |
| JsCore.SplitFirst | portfolio-react/public/projects/fioriApp/controller/EmpDetails-dbg.controller.js:132-136 | split of x, separator, y is x followed by the split of y when x holds no separator |
| JsCore.JoinLast | portfolio-react/public/projects/fioriApp/resources/sap/ui/export/js/CSVBuilder.js:179 | a joined list ends with its last element, so nothing trails the last row |
| JsCore.DedupAppend | portfolio-react/public/projects/fioriApp/controller/Employee-dbg.controller.js:97-108 | adding to a Set appends the element at the end exactly when it is not there yet |
| JsCore.DedupMembers | portfolio-react/public/projects/fioriApp/controller/Employee-dbg.controller.js:97-108 | a Set built from a list holds exactly the list's elements |
| JsCore.DedupDistinct | portfolio-react/public/projects/fioriApp/controller/Employee-dbg.controller.js:97-108 | a Set built from a list holds each element once |
| JsCore.DedupFirstOccurrenceOrder | portfolio-react/public/projects/fioriApp/controller/Employee-dbg.controller.js:97-108 | a Set lists its elements in the order of their first insertion |
| Rfc4180.DoubleQuotes | portfolio-react/public/projects/fioriApp/resources/sap/ui/export/js/CSVBuilder.js:152 | rule 7 of RFC 4180: never shorter than the input, and the identity on text without '"' |
| Rfc4180.Enclose | portfolio-react/public/projects/fioriApp/resources/sap/ui/export/js/CSVBuilder.js:155 | rule 6 of RFC 4180: the escaped field opens and closes with '"' |
| Rfc4180.ParseQuotedTail | portfolio-react/public/projects/fioriApp/resources/sap/ui/export/js/CSVBuilder.js:150-156 | the reader for an escaped field always consumes input (the rest is shorter) |
| Rfc4180.ParseField | portfolio-react/public/projects/fioriApp/resources/sap/ui/export/js/CSVBuilder.js:150-156 | the reader for one field leaves a rest that is empty or starts with the separator |
| Rfc4180.ParseDoubledQuotes | portfolio-react/public/projects/fioriApp/resources/sap/ui/export/js/CSVBuilder.js:152-155 | reading a doubled-quote body and its closing quote gives back the original text and the rest |
| Rfc4180.ParseEncodedField | portfolio-react/public/projects/fioriApp/resources/sap/ui/export/js/CSVBuilder.js:146-156 | a field in either correct written form reads back as its value, followed by the rest |
| Rfc4180.ParseJoinedRecord | portfolio-react/public/projects/fioriApp/resources/sap/ui/export/js/CSVBuilder.js:76 | fields written in correct form and joined by the separator read back as the same list of fields |
| Rfc4180.QuoteSeparatorBreaksRecords | portfolio-react/public/projects/fioriApp/resources/sap/ui/export/js/CSVBuilder.js:55-57 | with '"' allowed as separator, the written record ["",""] no longer reads back |
| Utf8.EncodeChar | portfolio-react/public/projects/fioriApp/resources/sap/ui/export/js/CSVBuilder.js:185 | one to four bytes per character, one exactly for ASCII, the trailing bytes continuation bytes |
| Utf8.DecodeFirst | portfolio-react/public/projects/fioriApp/resources/sap/ui/export/js/CSVBuilder.js:185 | the reader of one UTF-8 sequence consumes between 1 and all of the bytes |
| Utf8.DecodeEncodeChar | portfolio-react/public/projects/fioriApp/resources/sap/ui/export/js/CSVBuilder.js:185 | the reader gives back the character the encoder wrote, with its byte count |
| Utf8.DecodeEncode | portfolio-react/public/projects/fioriApp/resources/sap/ui/export/js/CSVBuilder.js:185 | decoding the encoder's output gives back the text: the encoding is well-formed and lossless |
| Utf8.EncodeAppend | portfolio-react/public/projects/fioriApp/resources/sap/ui/export/js/CSVBuilder.js:185 | the encoding of a concatenation is the concatenation of the encodings |
| Utf8.EncodeAscii | portfolio-react/public/projects/fioriApp/resources/sap/ui/export/js/CSVBuilder.js:185 | ASCII text encodes byte for byte |
| Utf8.BomIsEncodedFeff | portfolio-react/public/projects/fioriApp/resources/sap/ui/export/js/CSVBuilder.js:186 | the three bytes EF BB BF are the encoding of U+FEFF |
| CsvBuilder.SeparatorArgument | portfolio-react/public/projects/fioriApp/resources/sap/ui/export/js/CSVBuilder.js:33 | the default parameter: only undefined becomes ","; any other value is kept |
| CsvBuilder.ValidateSettings | portfolio-react/public/projects/fioriApp/resources/sap/ui/export/js/CSVBuilder.js:46-58 | success exactly for a non-empty array and a one-character string; each failure gives the message of the first check that fails, in order |
| CsvBuilder.NumberRun | portfolio-react/public/projects/fioriApp/resources/sap/ui/export/js/CSVBuilder.js:14 | the greedy `[\d.,]+` run: only mantissa characters, followed by something else or the end |
| CsvBuilder.NumberRunCovers | portfolio-react/public/projects/fioriApp/resources/sap/ui/export/js/CSVBuilder.js:14 | the greedy run reaches at least as far as any run of mantissa characters |
| CsvBuilder.MatchIsGreedy | portfolio-react/public/projects/fioriApp/resources/sap/ui/export/js/CSVBuilder.js:14 | any split the number pattern accepts is the greedy one |
| CsvBuilder.SafeNumberMatchesPattern | portfolio-react/public/projects/fioriApp/resources/sap/ui/export/js/CSVBuilder.js:13-14 | the greedy test and the backtracking regular expression accept the same number-only texts (both directions) |
| CsvBuilder.GuardFormula | portfolio-react/public/projects/fioriApp/resources/sap/ui/export/js/CSVBuilder.js:131-134 | an apostrophe is put in front exactly of formula text |
| CsvBuilder.GuardFormulaIdempotent | portfolio-react/public/projects/fioriApp/resources/sap/ui/export/js/CSVBuilder.js:131-134 | guarded text is never a formula, so guarding twice adds nothing |
| CsvBuilder.SafeNumberExamples | portfolio-react/public/projects/fioriApp/resources/sap/ui/export/js/CSVBuilder.js:13 | "-5", "-1,234.5" and "-.," are not treated as formulas |
| CsvBuilder.SafeExponentExample | portfolio-react/public/projects/fioriApp/resources/sap/ui/export/js/CSVBuilder.js:13-14 | "=1.2E5" is not a formula: the exponent letter is matched in either case |
| CsvBuilder.NumberCharsSafe | portfolio-react/public/projects/fioriApp/resources/sap/ui/export/js/CSVBuilder.js:14 | any non-empty run of digits, dots and commas is a safe number |
| CsvBuilder.FormulaExamples | portfolio-react/public/projects/fioriApp/resources/sap/ui/export/js/CSVBuilder.js:131-134 | "=SUM(A1)", "-" and "+1e" get exactly one apostrophe |
| CsvBuilder.StripBom | portfolio-react/public/projects/fioriApp/resources/sap/ui/export/js/CSVBuilder.js:126-129 | drops a leading U+FEFF and nothing else |
| CsvBuilder.BomStripUnreachable | portfolio-react/public/projects/fioriApp/resources/sap/ui/export/js/CSVBuilder.js:124-129 | after trim there is never a U+FEFF left to strip |
| CsvBuilder.Truncate | portfolio-react/public/projects/fioriApp/resources/sap/ui/export/js/CSVBuilder.js:136-140 | at most 32,760 characters: the input when short enough, else its first 32,760 |
| CsvBuilder.QuoteIfNeeded | portfolio-react/public/projects/fioriApp/resources/sap/ui/export/js/CSVBuilder.js:146-156 | quotes exactly when the value holds the separator, CR, LF, '"' or a tab, and then encloses with doubled quotes |
| CsvBuilder.EscapeContent | portfolio-react/public/projects/fioriApp/resources/sap/ui/export/js/CSVBuilder.js:117-122 | empty text is returned as it is |
| CsvBuilder.PreQuoteShape | portfolio-react/public/projects/fioriApp/resources/sap/ui/export/js/CSVBuilder.js:117-143 | the pre-quoting cell has at most 32,760 characters, is a prefix of the guarded trimmed value, and carries an apostrophe exactly for a formula |
| CsvBuilder.EscapedCellEncodes | portfolio-react/public/projects/fioriApp/resources/sap/ui/export/js/CSVBuilder.js:117-159 | every escaped cell is a correct RFC 4180 field for its pre-quoting value, when the separator is not '"' |
| CsvBuilder.GetValue | portfolio-react/public/projects/fioriApp/resources/sap/ui/export/js/CSVBuilder.js:87-101 | fails exactly on a null or undefined record; a null or undefined value gives "", any other value its String() escaped |
| CsvBuilder.ColumnKeys | portfolio-react/public/projects/fioriApp/resources/sap/ui/export/js/CSVBuilder.js:67 | `col.property` of every column: defined exactly when no column is null or undefined, one key per column |
| CsvBuilder.HeaderLine | portfolio-react/public/projects/fioriApp/resources/sap/ui/export/js/CSVBuilder.js:175-176 | the header is defined exactly when no column is null or undefined |
| CsvBuilder.Cells | portfolio-react/public/projects/fioriApp/resources/sap/ui/export/js/CSVBuilder.js:70-74 | one cell per column key, each the value getValue gives for it |
| CsvBuilder.RowReadsBack | portfolio-react/public/projects/fioriApp/resources/sap/ui/export/js/CSVBuilder.js:66-101 | a written row, read as an RFC 4180 record, gives one field per column, in column order, each the column's pre-quoting cell |
| CsvBuilder.FirstNullish | portfolio-react/public/projects/fioriApp/resources/sap/ui/export/js/CSVBuilder.js:69 | the index of the first null or undefined record, where append throws |
| CsvBuilder.FirstNullishIs | portfolio-react/public/projects/fioriApp/resources/sap/ui/export/js/CSVBuilder.js:69 | the first null or undefined record is at i when none comes before it |
| CsvBuilder.Rows | portfolio-react/public/projects/fioriApp/resources/sap/ui/export/js/CSVBuilder.js:69-77 | one written row per record |
| CsvBuilder.RowsAppend | portfolio-react/public/projects/fioriApp/resources/sap/ui/export/js/CSVBuilder.js:76 | writing one more record adds its row at the end |
| CsvBuilder.CellsStep | portfolio-react/public/projects/fioriApp/resources/sap/ui/export/js/CSVBuilder.js:72-74 | the cells of the first k + 1 columns are those of the first k and then column k's |
| CsvBuilder.WriteRow | portfolio-react/public/projects/fioriApp/resources/sap/ui/export/js/CSVBuilder.js:70-76 | a null or undefined record throws; otherwise the row is the record's cells joined by the separator |
| CsvBuilder.PayloadLayout | portfolio-react/public/projects/fioriApp/resources/sap/ui/export/js/CSVBuilder.js:184-189 | the payload is the three-byte order mark followed by UTF-8 that decodes to the CSV text |
| CsvBuilder.CsvTextEnds | portfolio-react/public/projects/fioriApp/resources/sap/ui/export/js/CSVBuilder.js:176-182 | the text starts with the header and CRLF (all there is without rows) and ends with the last row |
| CsvBuilder.Builder.constructor | portfolio-react/public/projects/fioriApp/resources/sap/ui/export/js/CSVBuilder.js:33-39 | a builder with the validated columns and separator and no rows |
| CsvBuilder.Builder.Append | portfolio-react/public/projects/fioriApp/resources/sap/ui/export/js/CSVBuilder.js:66-78 | appends one row per record after the existing rows; at the first null or undefined record (or column) it stops with a TypeError, keeping the rows written before |
| CsvBuilder.Builder.Build | portfolio-react/public/projects/fioriApp/resources/sap/ui/export/js/CSVBuilder.js:172-198 | the blob is the byte order mark and the UTF-8 of header, CRLF and rows joined by CRLF, typed text/csv;charset=utf-8; a Blob failure gives "Failed to create CSV Blob" |
| CommaSeparatedValues.ProcessDataSource | portfolio-react/public/projects/fioriApp/resources/sap/ui/export/CommaSeparatedValues-dbg.js:75-114 | null exactly for a falsy source, a non-object or a truthy dataUrl; an array is taken as it is, a binding gives its current objects in order, another object an empty array |
| CommaSeparatedValues.ExportParameters.constructor | portfolio-react/public/projects/fioriApp/resources/sap/ui/export/CommaSeparatedValues-dbg.js:127-137 | the export parameters as given |
| CommaSeparatedValues.DefaultedWorkbook | portfolio-react/public/projects/fioriApp/resources/sap/ui/export/CommaSeparatedValues-dbg.js:132-134 | a falsy separator becomes ",", a truthy one is kept, the columns are kept |
| CommaSeparatedValues.DefaultedWorkbookIdempotent | portfolio-react/public/projects/fioriApp/resources/sap/ui/export/CommaSeparatedValues-dbg.js:132-134 | applying the defaults twice changes nothing more |
| CommaSeparatedValues.SetDefaultExportSettings | portfolio-react/public/projects/fioriApp/resources/sap/ui/export/CommaSeparatedValues-dbg.js:127-137 | fills in the file type and the separator where falsy; a missing workbook throws after the file type was set |
| CommaSeparatedValues.SavedFileIsPayload | portfolio-react/public/projects/fioriApp/resources/sap/ui/export/CommaSeparatedValues-dbg.js:160-166 | a saved file is a text/csv blob: the byte order mark, then UTF-8 of the header, CRLF and one row per record |
| CommaSeparatedValues.CommaSeparatedValues.constructor | portfolio-react/public/projects/fioriApp/resources/sap/ui/export/CommaSeparatedValues-dbg.js:43 | no builder, not cancelled, nothing saved |
| CommaSeparatedValues.CommaSeparatedValues.Cancel | portfolio-react/public/projects/fioriApp/resources/sap/ui/export/CommaSeparatedValues-dbg.js:52-58 | sets the cancel flag and returns the same instance; nothing else changes |
| CommaSeparatedValues.CommaSeparatedValues.GetMimeType | portfolio-react/public/projects/fioriApp/resources/sap/ui/export/CommaSeparatedValues-dbg.js:183-185 | "text/csv", the MIME type part of the blob's type |
| CommaSeparatedValues.CommaSeparatedValues.CreateBuildPromise | portfolio-react/public/projects/fioriApp/resources/sap/ui/export/CommaSeparatedValues-dbg.js:151-175 | rejects without change while a builder is stored; otherwise resets the flag, stores a builder, appends, builds, saves and clears the slot, or rejects with the error (keeping the builder when append, build or saveAsFile threw) |
| CommaSeparatedValues.FailedBuildBlocksLaterBuilds | portfolio-react/public/projects/fioriApp/resources/sap/ui/export/CommaSeparatedValues-dbg.js:153-171 | after a build that throws in append, build or saveAsFile, every later build is rejected as already running |
| CommaSeparatedValues.CancelBeforeBuildDoesNotPreventSave | portfolio-react/public/projects/fioriApp/resources/sap/ui/export/CommaSeparatedValues-dbg.js:159-166 | a cancel before a build is undone by the build itself, so a successful build saves exactly once |
| Dashboard.Sort | portfolio-react/public/projects/fioriApp/controller/Dashboard-dbg.controller.js:103-107 | Array.prototype.sort: neighbours in comparator order, and a permutation of the input |
| Dashboard.SwapDown | portfolio-react/public/projects/fioriApp/controller/Dashboard-dbg.controller.js:103-107 | one swap of the insertion step keeps its partial order, the elements and what lies beyond |
| Dashboard.InsertDone | portfolio-react/public/projects/fioriApp/controller/Dashboard-dbg.controller.js:103-107 | when the inserted element has nothing left to pass, the prefix is sorted |
| Dashboard.Insert | portfolio-react/public/projects/fioriApp/controller/Dashboard-dbg.controller.js:103-107 | inserting element i keeps the first i + 1 elements sorted, the rest unchanged, and the elements the same |
| Dashboard.AdjacentToGlobal | portfolio-react/public/projects/fioriApp/controller/Dashboard-dbg.controller.js:75 | a key that never decreases between neighbours never decreases at all |
| Dashboard.LowStock | portfolio-react/public/projects/fioriApp/controller/Dashboard-dbg.controller.js:69-71 | the filter of filterStock: exactly the products whose availability is "Low Stock" |
| Dashboard.SortData | portfolio-react/public/projects/fioriApp/controller/Dashboard-dbg.controller.js:74-76 | sorts in place, largest stock first, a permutation of the input |
| Dashboard.FilterStock | portfolio-react/public/projects/fioriApp/controller/Dashboard-dbg.controller.js:68-73 | exactly the low-stock products, as a permutation of the filtered list, largest stock first |
| Dashboard.RangeLabelBounds | portfolio-react/public/projects/fioriApp/controller/Dashboard-dbg.controller.js:86-90 | a positive stock lies in its bucket, which starts at 1 or more, holds exactly `size` values and starts on the grid 1, size + 1, 2 * size + 1, ... (its start is 1 modulo size) |
| Dashboard.InBucketIff | portfolio-react/public/projects/fioriApp/controller/Dashboard-dbg.controller.js:86-89 | a positive stock is in the bucket of v exactly when it has v's bucket index |
| Dashboard.SameLabelSameBucket | portfolio-react/public/projects/fioriApp/controller/Dashboard-dbg.controller.js:83-90 | two positive stocks have the same label exactly when they share a bucket |
| Dashboard.Labels | portfolio-react/public/projects/fioriApp/controller/Dashboard-dbg.controller.js:80-91 | one label per product, the label of its stock |
| Dashboard.Tally | portfolio-react/public/projects/fioriApp/controller/Dashboard-dbg.controller.js:99-102 | one bar per key, holding its number of occurrences |
| Dashboard.RangeOfLabel | portfolio-react/public/projects/fioriApp/controller/Dashboard-dbg.controller.js:104-105 | a numeric label reads back as its bucket's first and last value |
| Dashboard.OutOfStockHasNoRange | portfolio-react/public/projects/fioriApp/controller/Dashboard-dbg.controller.js:118-119 | "Out of stock" has no numeric start or end (both parse as NaN) |
| Dashboard.CountMapCounts | portfolio-react/public/projects/fioriApp/controller/Dashboard-dbg.controller.js:92-96 | the dictionary has a key exactly for each label that occurs, holding its number of occurrences |
| Dashboard.CountStep | portfolio-react/public/projects/fioriApp/controller/Dashboard-dbg.controller.js:92-96 | counting one more label lists a new key at the end and raises the label's count by one |
| Dashboard.CountLabels | portfolio-react/public/projects/fioriApp/controller/Dashboard-dbg.controller.js:78-102 | the keys are the distinct labels in first-occurrence order, and each key's count is its number of occurrences |
| Dashboard.FilterRange | portfolio-react/public/projects/fioriApp/controller/Dashboard-dbg.controller.js:77-110 | the bars are a permutation of one bar per distinct label with its count, sorted by range start when every stock is positive |
| Dashboard.SortedBarsAscend | portfolio-react/public/projects/fioriApp/controller/Dashboard-dbg.controller.js:103-107 | with positive stocks every bar has a numeric start, so the sorted bars ascend by start |
| Dashboard.TotalCountAppend | portfolio-react/public/projects/fioriApp/controller/Dashboard-dbg.controller.js:99-102 | the total of two lists of bars is the sum of their totals |
| Dashboard.TotalCountRemove | portfolio-react/public/projects/fioriApp/controller/Dashboard-dbg.controller.js:99-102 | taking one bar out of a list takes its count off the total |
| Dashboard.TotalCountPermutation | portfolio-react/public/projects/fioriApp/controller/Dashboard-dbg.controller.js:103-107 | the total count does not depend on the order of the bars |
| Dashboard.TallyAddOne | portfolio-react/public/projects/fioriApp/controller/Dashboard-dbg.controller.js:92-96 | counting one more occurrence of x adds one to the total exactly when x is a key |
| Dashboard.TallyTotal | portfolio-react/public/projects/fioriApp/controller/Dashboard-dbg.controller.js:78-102 | the counts of the distinct labels add up to the number of labels |
| Dashboard.FilterRangeCountsAll | portfolio-react/public/projects/fioriApp/controller/Dashboard-dbg.controller.js:77-110 | the bar counts add up to the number of products, and every product's label has a bar |
| Dashboard.EntriesDistinct | portfolio-react/public/projects/fioriApp/controller/Dashboard-dbg.controller.js:99-102 | the bars carry distinct labels |
| Dashboard.InRangeMembers | portfolio-react/public/projects/fioriApp/controller/Dashboard-dbg.controller.js:122-126 | a product is listed for a bar exactly when it is one of the products and passes the bar's filter |
| Dashboard.ListedAt | portfolio-react/public/projects/fioriApp/controller/Dashboard-dbg.controller.js:111-129 | one list per selected bar, list k holding the products of bar k |
| Dashboard.TableShowByRange | portfolio-react/public/projects/fioriApp/controller/Dashboard-dbg.controller.js:111-130 | for each selected bar, in order, the products it stands for |
| Dashboard.NumericLabelNotOutOfStock | portfolio-react/public/projects/fioriApp/controller/Dashboard-dbg.controller.js:83-90 | a numeric label is never "Out of stock" |
| Dashboard.ShownInBucket | portfolio-react/public/projects/fioriApp/controller/Dashboard-dbg.controller.js:118-126 | a numeric bar lists the products whose stock lies in its bucket |
| Dashboard.ShownOutOfStock | portfolio-react/public/projects/fioriApp/controller/Dashboard-dbg.controller.js:121-126 | the "Out of stock" bar lists the products of zero stock |
| Dashboard.ShownIffSameLabel | portfolio-react/public/projects/fioriApp/controller/Dashboard-dbg.controller.js:83-126 | for non-negative stocks, a bar lists a product exactly when the product's own label is the bar's label |
| Dashboard.FoundUnderOwnLabel | portfolio-react/public/projects/fioriApp/controller/Dashboard-dbg.controller.js:83-126 | every product of non-negative stock is listed under its own bar |
| SpreadsheetExport.Unwrap | portfolio-react/public/projects/fioriApp/resources/sap/ui/export/SpreadsheetExport-dbg.js:34-39 | a worker MessageEvent with truthy data is replaced by that data, and any other message is left as it is; no event with truthy data survives |
| SpreadsheetExport.OrZero | portfolio-react/public/projects/fioriApp/resources/sap/ui/export/SpreadsheetExport-dbg.js:49-50 | `v || 0`: a truthy count is kept, and a falsy one becomes 0 |
| SpreadsheetExport.ErrorText | portfolio-react/public/projects/fioriApp/resources/sap/ui/export/SpreadsheetExport-dbg.js:54-56 | the message of an error when it is truthy, otherwise the error itself; reading it throws exactly for null and undefined |
| SpreadsheetExport.SelectStrategy | portfolio-react/public/projects/fioriApp/resources/sap/ui/export/SpreadsheetExport-dbg.js:209-215 | an "array" data source is exported directly whatever the worker flag says; otherwise a worker flag of exactly false means in process and anything else means a worker; a missing data source throws |
| SpreadsheetExport.Channel.constructor | portfolio-react/public/projects/fioriApp/resources/sap/ui/export/SpreadsheetExport-dbg.js:32-44 | the callback is recorded as a function or not, and nothing has been delivered yet |
| SpreadsheetExport.Channel.Delivery | portfolio-react/public/projects/fioriApp/resources/sap/ui/export/SpreadsheetExport-dbg.js:41-43 | a message reaches the callback, unwrapped, exactly when the callback is a function |
| SpreadsheetExport.Channel.PostMessage | portfolio-react/public/projects/fioriApp/resources/sap/ui/export/SpreadsheetExport-dbg.js:34-44 | the delivered messages grow by exactly this message's delivery |
| SpreadsheetExport.Channel.OnProgress | portfolio-react/public/projects/fioriApp/resources/sap/ui/export/SpreadsheetExport-dbg.js:46-52 | posts one progress message whose fetched and total counts default to 0 |
| SpreadsheetExport.Channel.OnError | portfolio-react/public/projects/fioriApp/resources/sap/ui/export/SpreadsheetExport-dbg.js:54-56 | posts one error message with the error's text; a null or undefined error throws and posts nothing |
| SpreadsheetExport.Channel.OnFinish | portfolio-react/public/projects/fioriApp/resources/sap/ui/export/SpreadsheetExport-dbg.js:58-60 | posts one finished message carrying the spreadsheet, or none on cancel |
| SpreadsheetExport.CountProgressReadsBack | portfolio-react/public/projects/fioriApp/resources/sap/ui/export/SpreadsheetExport-dbg.js:73-77 | the array export reports fetched equal to total, and both read back as the number of records |
| SpreadsheetExport.ArrayExport.constructor | portfolio-react/public/projects/fioriApp/resources/sap/ui/export/SpreadsheetExport-dbg.js:64-85 | exportArray only requests the libraries: nothing is started, appended or posted yet |
| SpreadsheetExport.ArrayExport.Start | portfolio-react/public/projects/fioriApp/resources/sap/ui/export/SpreadsheetExport-dbg.js:68-79 | all converted rows go to the builder in one append, then exactly one progress message with fetched = total = the record count (0 without data), then the build is requested |
| SpreadsheetExport.ArrayExport.BuildResolved | portfolio-react/public/projects/fioriApp/resources/sap/ui/export/SpreadsheetExport-dbg.js:78 | the resolved build posts finished with the spreadsheet and changes nothing else |
| SpreadsheetExport.ArrayExport.Cancel | portfolio-react/public/projects/fioriApp/resources/sap/ui/export/SpreadsheetExport-dbg.js:84 | the array export's cancel is onFinish itself: it posts finished without a spreadsheet |
| SpreadsheetExport.InProcessExport.constructor | portfolio-react/public/projects/fioriApp/resources/sap/ui/export/SpreadsheetExport-dbg.js:87-122 | exportInProcess starts with no builder rows, no pending build and no cancelled request |
| SpreadsheetExport.InProcessExport.Start | portfolio-react/public/projects/fioriApp/resources/sap/ui/export/SpreadsheetExport-dbg.js:90-96 | start creates the builder and makes the provider request, and appends and posts nothing |
| SpreadsheetExport.InProcessExport.ProcessCallback | portfolio-react/public/projects/fioriApp/resources/sap/ui/export/SpreadsheetExport-dbg.js:98-111 | a message with an error (truthy, or any string) is reported and appends nothing; any other message appends its rows, posts its progress, and requests the build exactly when flagged finished; a null message throws |
| SpreadsheetExport.InProcessExport.BuildResolved | portfolio-react/public/projects/fioriApp/resources/sap/ui/export/SpreadsheetExport-dbg.js:109 | one pending build resolves and posts finished with the spreadsheet |
| SpreadsheetExport.InProcessExport.Cancel | portfolio-react/public/projects/fioriApp/resources/sap/ui/export/SpreadsheetExport-dbg.js:113-116 | cancels the provider request once and then posts finished without a spreadsheet; before start has run it throws and nothing happens |
| SpreadsheetExport.WorkerExport.constructor | portfolio-react/public/projects/fioriApp/resources/sap/ui/export/SpreadsheetExport-dbg.js:124-207 | exportInWorker begins with the direct worker about to be constructed, nothing tried, failed or posted |
| SpreadsheetExport.WorkerExport.NoWorker | portfolio-react/public/projects/fioriApp/resources/sap/ui/export/SpreadsheetExport-dbg.js:185-188 | noWorker starts a fresh in-process export on the same callback, which takes over cancel |
| SpreadsheetExport.WorkerExport.Rejected | portfolio-react/public/projects/fioriApp/resources/sap/ui/export/SpreadsheetExport-dbg.js:173-196 | a failed direct worker leads to the blob worker; a failed blob worker leads to the in-process export |
| SpreadsheetExport.WorkerExport.Construct | portfolio-react/public/projects/fioriApp/resources/sap/ui/export/SpreadsheetExport-dbg.js:133-155 | constructing the current candidate records it as tried; success waits for its "initialized" message, failure moves on to the next candidate |
| SpreadsheetExport.WorkerExport.WorkerMessage | portfolio-react/public/projects/fioriApp/resources/sap/ui/export/SpreadsheetExport-dbg.js:140-149 | a pending worker is accepted only on a truthy "initialized" and is then handed the export parameters, falling back in process when that post throws; messages from the accepted worker are passed to the callback |
| SpreadsheetExport.WorkerExport.WorkerError | portfolio-react/public/projects/fioriApp/resources/sap/ui/export/SpreadsheetExport-dbg.js:136-146 | an error before "initialized" terminates and rejects the candidate; an error from the accepted worker goes to onError |
| SpreadsheetExport.WorkerExport.Cancel | portfolio-react/public/projects/fioriApp/resources/sap/ui/export/SpreadsheetExport-dbg.js:128-131 | cancel posts {cancel: true} to the accepted worker and then finished; with no accepted worker it throws; after the fallback it is the in-process cancel |
| SpreadsheetExport.FallbackOnlyAfterWorkersFail | portfolio-react/public/projects/fioriApp/resources/sap/ui/export/SpreadsheetExport-dbg.js:173-196 | the in-process fallback runs only after both workers failed, or after the accepted worker could not be handed the parameters |
| SpreadsheetExport.BlobAfterDirectFailed | portfolio-react/public/projects/fioriApp/resources/sap/ui/export/SpreadsheetExport-dbg.js:173-183 | the blob worker is tried only after the direct worker was tried and failed |
| SpreadsheetExport.Execute | portfolio-react/public/projects/fioriApp/resources/sap/ui/export/SpreadsheetExport-dbg.js:209-215 | returns a fresh export of the strategy SelectStrategy picks, wired to the callback and not yet started; a missing data source throws |
| ExcelFileControl.GetConfig | portfolio-react/public/projects/fioriApp/utils/ExcelFileControl-dbg.js:270 | "Products" selects the product table and every other name the employee table |
| ExcelFileControl.ConfigLabelsAreFields | portfolio-react/public/projects/fioriApp/utils/ExcelFileControl-dbg.js:5-268 | in both tables the export column labels are exactly the upload fields, in order |
| ExcelFileControl.Mismatches | portfolio-react/public/projects/fioriApp/utils/ExcelFileControl-dbg.js:279-287 | the positions of wrong header cells, all below the number of fields checked |
| ExcelFileControl.MismatchesAreWrong | portfolio-react/public/projects/fioriApp/utils/ExcelFileControl-dbg.js:279-280 | every listed position has a header cell other than its expected field |
| ExcelFileControl.MismatchesComplete | portfolio-react/public/projects/fioriApp/utils/ExcelFileControl-dbg.js:279-280 | every position with a wrong header cell is listed |
| ExcelFileControl.MismatchesEmptyIff | portfolio-react/public/projects/fioriApp/utils/ExcelFileControl-dbg.js:279-288 | nothing is listed exactly when every header cell matches |
| ExcelFileControl.MismatchesAscending | portfolio-react/public/projects/fioriApp/utils/ExcelFileControl-dbg.js:279-287 | the wrong positions are listed in ascending column order |
| ExcelFileControl.MismatchErrors | portfolio-react/public/projects/fioriApp/utils/ExcelFileControl-dbg.js:281-285 | one message per wrong position |
| ExcelFileControl.MismatchErrorsAt | portfolio-react/public/projects/fioriApp/utils/ExcelFileControl-dbg.js:281-285 | message k names the expected field, the cell found (empty when falsy) and the 1-based column of the k-th wrong position |
| ExcelFileControl.MismatchErrorsStep | portfolio-react/public/projects/fioriApp/utils/ExcelFileControl-dbg.js:279-287 | checking one more position appends its message exactly when its header cell is wrong |
| ExcelFileControl.CollectErrors | portfolio-react/public/projects/fioriApp/utils/ExcelFileControl-dbg.js:277-287 | the forEach collects one message per wrong header cell, in column order |
| ExcelFileControl.ValidateData | portfolio-react/public/projects/fioriApp/utils/ExcelFileControl-dbg.js:272-289 | a missing or empty sheet gives the single "File is empty." error; otherwise the collected errors, or "Success" when there are none |
| ExcelFileControl.ValidateSuccessIff | portfolio-react/public/projects/fioriApp/utils/ExcelFileControl-dbg.js:276-288 | a non-empty sheet validates exactly when each expected field is the header cell at its position |
| ExcelFileControl.MismatchesIff | portfolio-react/public/projects/fioriApp/utils/ExcelFileControl-dbg.js:279-286 | a position gets an error exactly when its header cell differs from the expected field |
| ExcelFileControl.ExtraHeaderCellsIgnored | portfolio-react/public/projects/fioriApp/utils/ExcelFileControl-dbg.js:279-280 | header cells past the last expected field never cause an error |
| ExcelFileControl.LabelHeaderValidates | portfolio-react/public/projects/fioriApp/utils/ExcelFileControl-dbg.js:5-289 | a sheet whose header row is the table's column labels passes validation |
| ExcelFileControl.CellAt | portfolio-react/public/projects/fioriApp/utils/ExcelFileControl-dbg.js:298 | `row[i] ?? ""` is never null or undefined |
| ExcelFileControl.RowObject | portfolio-react/public/projects/fioriApp/utils/ExcelFileControl-dbg.js:297-300 | the reduce over the keys builds an object whose keys are exactly those keys |
| ExcelFileControl.RowObjectValue | portfolio-react/public/projects/fioriApp/utils/ExcelFileControl-dbg.js:297-300 | with distinct keys, key i holds cell i of the row |
| ExcelFileControl.EmployeeKeysApart | portfolio-react/public/projects/fioriApp/utils/ExcelFileControl-dbg.js:7-24 | the employee fields and isDeleted are pairwise different |
| ExcelFileControl.ProductKeysApart | portfolio-react/public/projects/fioriApp/utils/ExcelFileControl-dbg.js:110-132 | the product fields and isDeleted are pairwise different |
| ExcelFileControl.RecordKeysDistinct | portfolio-react/public/projects/fioriApp/utils/ExcelFileControl-dbg.js:294 | the record keys of either table have no repeats |
| ExcelFileControl.FormattedRecordShape | portfolio-react/public/projects/fioriApp/utils/ExcelFileControl-dbg.js:294-300 | a formatted record has exactly the fields and isDeleted as keys, each holding its cell, or "" for a missing one |
| ExcelFileControl.BuildRecord | portfolio-react/public/projects/fioriApp/utils/ExcelFileControl-dbg.js:297-300 | the reduce's loop yields the row object for the keys |
| ExcelFileControl.FormatData | portfolio-react/public/projects/fioriApp/utils/ExcelFileControl-dbg.js:291-302 | the header row is dropped and each following row becomes its record, in order, one per row |
| Formatter.StockStatusString | portfolio-react/public/projects/fioriApp/model/Formatter-dbg.js:6-22 | Low Stock is Warning, In Stock is Success, Out of Stock is Error, anything else is None, each in both directions |
| Formatter.StockStatusThresholds | portfolio-react/public/projects/fioriApp/model/Formatter-dbg.js:73-89 | a stock above 30 is Success, strictly between 10 and 30 Warning, at most 10 Error, and exactly 30 None |
| Formatter.StockStatusMonotone | portfolio-react/public/projects/fioriApp/model/Formatter-dbg.js:73-89 | away from 30, a larger stock never gets a more severe state; NaN gets None |
| Formatter.RatingStatusThresholds | portfolio-react/public/projects/fioriApp/model/Formatter-dbg.js:54-72 | a rating above 3.5 is Success, strictly between 2 and 3.5 Warning, below 2 Error, and exactly 2 or 3.5 None |
| Formatter.RatingStatusMonotone | portfolio-react/public/projects/fioriApp/model/Formatter-dbg.js:54-72 | away from 2 and 3.5, a higher rating never gets a more severe state |
| Formatter.FirstLetterCaps | portfolio-react/public/projects/fioriApp/model/Formatter-dbg.js:33-35 | "" for a falsy value; a string keeps its length, its first character is upper-cased and the rest is unchanged; a truthy non-string throws |
| Formatter.FirstLetterCapsIdempotent | portfolio-react/public/projects/fioriApp/model/Formatter-dbg.js:33-35 | capitalising an already capitalised string changes nothing |
| Formatter.ConvertJoinToList | portfolio-react/public/projects/fioriApp/model/Formatter-dbg.js:36-38 | "" for a falsy value; a truthy non-string throws |
| Formatter.ConvertJoinToListLeavesNone | portfolio-react/public/projects/fioriApp/model/Formatter-dbg.js:37 | no "; " is left after the replacement |
| Formatter.ConvertJoinToListInverse | portfolio-react/public/projects/fioriApp/model/Formatter-dbg.js:37 | a text without line breaks is recovered from its list form by turning line breaks back into "; " |
| Formatter.PadTwo | portfolio-react/public/projects/fioriApp/model/Formatter-dbg.js:94-98 | a one-character day or month gets a leading zero, any other is kept |
| Formatter.DateFormatter | portfolio-react/public/projects/fioriApp/model/Formatter-dbg.js:90-104 | "" for a falsy value |
| Formatter.DateFormatterReorders | portfolio-react/public/projects/fioriApp/model/Formatter-dbg.js:90-104 | "Y-M-D" becomes the padded day, the padded month and the year, joined by dashes |
| Formatter.DateFormatterTwice | portfolio-react/public/projects/fioriApp/model/Formatter-dbg.js:90-104 | formatting a formatted date again gives the year first with the day and month padded |
| Formatter.TextOrEmpty | portfolio-react/public/projects/fioriApp/model/Formatter-dbg.js:107 | `v ?? ""`: null and undefined read as "", a string as itself, and anything else throws on trim |
| Formatter.ValidateStringAgrees | portfolio-react/public/projects/fioriApp/model/Formatter-dbg.js:105-116 | validateString is Error exactly for a missing or all-whitespace value, and validateStringText shows its message exactly then |
| Formatter.ValidateStateCodeAgrees | portfolio-react/public/projects/fioriApp/model/Formatter-dbg.js:117-132 | validateStateCode is Error exactly when the trimmed length is not 2, and validateStateCodeText shows its message exactly then |
| Formatter.ValidatePincode | portfolio-react/public/projects/fioriApp/model/Formatter-dbg.js:134-140 | the state is always Error or None |
| Formatter.ValidatePincodeAgrees | portfolio-react/public/projects/fioriApp/model/Formatter-dbg.js:134-150 | validatePincode is Error exactly when validatePincodeText shows a message |
| Formatter.ValidatePincodeAcceptsNonIntegers | portfolio-react/public/projects/fioriApp/model/Formatter-dbg.js:137 | "abcde" (Number gives NaN) and "12.50" pass validatePincode |
| Formatter.PincodeInvalidCorrectsValidatePincode | portfolio-react/public/projects/fioriApp/model/Formatter-dbg.js:134-150 | the corrected check rejects NaN and fractions, and agrees with validatePincode wherever the number is an integer |
| Employee.RawValue | portfolio-react/public/projects/fioriApp/controller/Employee-dbg.controller.js:101 | with f2 the nested field f1.f2 (undefined when f1 is missing or nullish), without it the field f1 |
| Employee.KeyOf | portfolio-react/public/projects/fioriApp/controller/Employee-dbg.controller.js:101-103 | an employee contributes a key exactly when its value is a non-empty string, and the key is that string capitalised |
| Employee.Items | portfolio-react/public/projects/fioriApp/controller/Employee-dbg.controller.js:106 | one item per key, with the key as both key and text |
| Employee.GetEmpProperties | portfolio-react/public/projects/fioriApp/controller/Employee-dbg.controller.js:94-111 | the loop with its Set of seen keys stores one item per distinct key, in first-occurrence order |
| Employee.KeysSound | portfolio-react/public/projects/fioriApp/controller/Employee-dbg.controller.js:100-108 | every key collected comes from some employee |
| Employee.KeysComplete | portfolio-react/public/projects/fioriApp/controller/Employee-dbg.controller.js:100-108 | the key of every employee that has one is collected |
| Employee.KeysMembers | portfolio-react/public/projects/fioriApp/controller/Employee-dbg.controller.js:100-108 | a key is collected exactly when some employee contributes it |
| Employee.PropertiesDistinct | portfolio-react/public/projects/fioriApp/controller/Employee-dbg.controller.js:104-107 | no key appears twice in a filter box |
| Employee.PropertiesSound | portfolio-react/public/projects/fioriApp/controller/Employee-dbg.controller.js:102-106 | every item is the capitalised non-empty value of some employee, as both key and text |
| Employee.PropertiesComplete | portfolio-react/public/projects/fioriApp/controller/Employee-dbg.controller.js:100-108 | every employee with a non-empty string in the field is represented by an item |
| Employee.PropertiesInFirstOccurrenceOrder | portfolio-react/public/projects/fioriApp/controller/Employee-dbg.controller.js:100-108 | items come in the order in which their keys first occur among the employees |
| Employee.KeyFilters | portfolio-react/public/projects/fioriApp/controller/Employee-dbg.controller.js:125-168 | one EQ filter on the path per selected key, in selection order |
| Employee.PushKeyFilters | portfolio-react/public/projects/fioriApp/controller/Employee-dbg.controller.js:126-134 | the map's pushes append exactly those filters to the list |
| Employee.FilterSearch | portfolio-react/public/projects/fioriApp/controller/Employee-dbg.controller.js:124-177 | the filter list is designation, department, role and organisation filters, then the gender filter |
| Employee.SearchFiltersCount | portfolio-react/public/projects/fioriApp/controller/Employee-dbg.controller.js:124-177 | one filter per selected key plus one for a nonzero gender, and every filter is an equality |
| Employee.SearchFiltersGroups | portfolio-react/public/projects/fioriApp/controller/Employee-dbg.controller.js:124-177 | the filters come grouped: designation, department, role, organisation, each in selection order, then gender |
| Employee.SearchFiltersGender | portfolio-react/public/projects/fioriApp/controller/Employee-dbg.controller.js:169-177 | there is a gender filter exactly for a nonzero selection, and it asks for "male" exactly for 1 |
| Employee.SortPath | portfolio-react/public/projects/fioriApp/controller/Employee-dbg.controller.js:212-227 | "Name" sorts by firstName and every other item by a path under "company/" |
| Employee.HandleConfirm | portfolio-react/public/projects/fioriApp/controller/Employee-dbg.controller.js:204-231 | a sorter exists exactly when an item is selected, with the item's path and the dialog's direction |
| Employee.SortPathOtherLabels | portfolio-react/public/projects/fioriApp/controller/Employee-dbg.controller.js:224-226 | any item other than the three named ones sorts by its lower-cased text under "company/" |
| Master.LiveRows | portfolio-react/public/projects/fioriApp/controller/Master-dbg.controller.js:127-133 | the rows not marked deleted: a row is kept exactly when it is in the table and live |
| Master.LiveRowsEmptyIff | portfolio-react/public/projects/fioriApp/controller/Master-dbg.controller.js:98-102 | the save finds remaining records exactly when some row is live |
| Master.LiveRowsShrink | portfolio-react/public/projects/fioriApp/controller/Master-dbg.controller.js:119-131 | when no row becomes live, the live count does not grow |
| Master.MarkDeleted | portfolio-react/public/projects/fioriApp/controller/Master-dbg.controller.js:120 | a marked row is not live, gains the isDeleted key and keeps every other cell |
| Master.TrimValues | portfolio-react/public/projects/fioriApp/controller/Master-dbg.controller.js:331-337 | same keys, string values trimmed, all other values unchanged |
| Master.TrimValuesIdempotent | portfolio-react/public/projects/fioriApp/controller/Master-dbg.controller.js:331-337 | trimming a trimmed row changes nothing |
| Master.GetTableId | portfolio-react/public/projects/fioriApp/controller/Master-dbg.controller.js:364-366 | key "E" selects the employee table and every other key the product table |
| Master.RowPathIndex | portfolio-react/public/projects/fioriApp/controller/Master-dbg.controller.js:423 | the path built for row n designates row n |
| Master.NewRowsAreLive | portfolio-react/public/projects/fioriApp/controller/Master-dbg.controller.js:372-416 | a blank row is live, stays live after trimming, and the employee row carries the ID it was given |
| Master.MasterModel.constructor | portfolio-react/public/projects/fioriApp/controller/Master-dbg.controller.js:31-50 | the default data: filter shown, no key, upload hidden, empty hidden table, count 0, empty dialog fields |
| Master.MasterModel.ResetTableSection | portfolio-react/public/projects/fioriApp/controller/Master-dbg.controller.js:51-56 | an empty, hidden table with count 0; nothing else changes |
| Master.MasterModel.ResetUploadSection | portfolio-react/public/projects/fioriApp/controller/Master-dbg.controller.js:57-62 | the uploader is shown with no file and the upload button off; nothing else changes |
| Master.MasterModel.ResetBoth | portfolio-react/public/projects/fioriApp/controller/Master-dbg.controller.js:63-66 | both resets, and nothing else changes |
| Master.MasterModel.UpdateCount | portfolio-react/public/projects/fioriApp/controller/Master-dbg.controller.js:127-133 | the count becomes the number of rows not marked deleted |
| Master.MasterModel.DeletePress | portfolio-react/public/projects/fioriApp/controller/Master-dbg.controller.js:110-126 | without a selection only the "nothing selected" toast; otherwise exactly the selected rows are marked deleted and the count is refreshed |
| Master.MasterModel.RecordSavePress | portfolio-react/public/projects/fioriApp/controller/Master-dbg.controller.js:94-109 | a success box exactly when some row is live, the error box otherwise, and both sections are reset on close |
| Master.MasterModel.AddPress | portfolio-react/public/projects/fioriApp/controller/Master-dbg.controller.js:367-426 | a blank row of the selected kind, with Employee ID one past the row count, is aimed at the path one past the last row |
| Master.MasterModel.SaveEditDialog | portfolio-react/public/projects/fioriApp/controller/Master-dbg.controller.js:277-288 | the trimmed dialog row replaces the row at its path, or is appended at the path one past the end; the count is not refreshed |
| Master.DeletionCounts | portfolio-react/public/projects/fioriApp/controller/Master-dbg.controller.js:119-131 | after a deletion every selected row is out of the live rows and the count has not grown |
| Master.TrimKeepsDeleted | portfolio-react/public/projects/fioriApp/controller/Master-dbg.controller.js:331-337 | trimming keeps a deleted row deleted |
| EmpDetails.PropertyOfField | portfolio-react/public/projects/fioriApp/controller/EmpDetails-dbg.controller.js:132-136 | a top-level field path edits that field |
| EmpDetails.PropertyOfGroupField | portfolio-react/public/projects/fioriApp/controller/EmpDetails-dbg.controller.js:132-136 | a field under "company" or "address" edits the field itself |
| EmpDetails.PropertyOfCompanyAddressField | portfolio-react/public/projects/fioriApp/controller/EmpDetails-dbg.controller.js:132-136 | a field of the company's address edits the field itself |
| EmpDetails.StreetHasNoPropertyName | portfolio-react/public/projects/fioriApp/controller/EmpDetails-dbg.controller.js:132-144 | the personal street path has no property name, so the default rule applies to it |
| EmpDetails.IndexFrom | portfolio-react/public/projects/fioriApp/controller/EmpDetails-dbg.controller.js:129 | the first occurrence of the pattern at or after the start, or none at all |
| EmpDetails.DetailPathOfEditPath | portfolio-react/public/projects/fioriApp/controller/EmpDetails-dbg.controller.js:129 | an edit path under /newDetails names the same field under /details |
| EmpDetails.DetailPathOfFieldPath | portfolio-react/public/projects/fioriApp/controller/EmpDetails-dbg.controller.js:129 | the saved copy of "/newDetails/rest" is "/details/rest" |
| EmpDetails.Lookup | portfolio-react/public/projects/fioriApp/controller/EmpDetails-dbg.controller.js:153 | reading a path stops at an empty segment or a falsy value, which is then the value read |
| EmpDetails.SavedValueOfEditPath | portfolio-react/public/projects/fioriApp/controller/EmpDetails-dbg.controller.js:129-153 | for an edit path "/newDetails/k1/.../kn", the value read at its saved copy is the value at k1/.../kn inside the saved details |
| EmpDetails.ModifiedAgainstSavedField | portfolio-react/public/projects/fioriApp/controller/EmpDetails-dbg.controller.js:129-153 | for a top-level text field of the saved details, the compared value differs exactly when the typed text differs from the saved text |
| EmpDetails.RuleFor | portfolio-react/public/projects/fioriApp/controller/EmpDetails-dbg.controller.js:138-144 | postalCode and stateCode get their own rules and every other property the default rule |
| EmpDetails.ValidationRules | portfolio-react/public/projects/fioriApp/controller/EmpDetails-dbg.controller.js:138-143 | a postal code is valid only as five characters reading as a positive integer, a state code only as two characters, anything else only when non-empty |
| EmpDetails.RemoveAll | portfolio-react/public/projects/fioriApp/controller/EmpDetails-dbg.controller.js:150 | the filter keeps exactly the other paths |
| EmpDetails.UpdateErrorsMembers | portfolio-react/public/projects/fioriApp/controller/EmpDetails-dbg.controller.js:145-151 | after the update the path is listed exactly when it has an error, and every other path as before |
| EmpDetails.RemoveAllDistinct | portfolio-react/public/projects/fioriApp/controller/EmpDetails-dbg.controller.js:150 | filtering keeps a list without repeats free of repeats |
| EmpDetails.RemoveAllAppend | portfolio-react/public/projects/fioriApp/controller/EmpDetails-dbg.controller.js:146-150 | removing a path from the list it was appended to undoes the append |
| EmpDetails.RemoveAllTwice | portfolio-react/public/projects/fioriApp/controller/EmpDetails-dbg.controller.js:150 | filtering twice is filtering once |
| EmpDetails.UpdateErrorsShape | portfolio-react/public/projects/fioriApp/controller/EmpDetails-dbg.controller.js:145-151 | a path is never listed twice, and the other paths keep their order |
| EmpDetails.DetailsModel.constructor | portfolio-react/public/projects/fioriApp/controller/EmpDetails-dbg.controller.js:24-36 | the default data: empty details, not editing, not modified, no errors |
| EmpDetails.DetailsModel.ClickEdit | portfolio-react/public/projects/fioriApp/controller/EmpDetails-dbg.controller.js:65-70 | editing starts on a copy of the saved details |
| EmpDetails.DetailsModel.ClickSave | portfolio-react/public/projects/fioriApp/controller/EmpDetails-dbg.controller.js:71-103 | with errors listed only a warning and nothing changes; otherwise, once the request succeeds, editing ends and the edited copy becomes the saved details |
| EmpDetails.DetailsModel.ClickCancel | portfolio-react/public/projects/fioriApp/controller/EmpDetails-dbg.controller.js:104-121 | with unsaved changes, editing ends only once the user confirms; without, at once; the saved details stay |
| EmpDetails.DetailsModel.ValueChange | portfolio-react/public/projects/fioriApp/controller/EmpDetails-dbg.controller.js:122-155 | the error list is updated for the path by its rule on the trimmed value, and the page becomes modified when the trimmed value differs from the value the model holds at the saved copy of the path, read after the error list was stored |
| EmpDetails.ValueChangeErrors | portfolio-react/public/projects/fioriApp/controller/EmpDetails-dbg.controller.js:145-152 | after a change the path is listed exactly when its rule fails, and never twice |
| ProdDetails.FindAnonymous | portfolio-react/public/projects/fioriApp/controller/ProdDetails-dbg.controller.js:187-189 | the first review by "Anonymous User", or none when there is none |
| ProdDetails.UpsertUpdatesFirstAnonymous | portfolio-react/public/projects/fioriApp/controller/ProdDetails-dbg.controller.js:187-195 | an existing anonymous review gets the new rating, comment and date where it stands; nothing else changes |
| ProdDetails.UpsertPrependsNew | portfolio-react/public/projects/fioriApp/controller/ProdDetails-dbg.controller.js:196-204 | without an anonymous review, a new one heads the list and the old reviews follow unchanged |
| ProdDetails.UpsertAnonymousCount | portfolio-react/public/projects/fioriApp/controller/ProdDetails-dbg.controller.js:187-204 | after a save there is at least one anonymous review, and no more than before unless there were none |
| ProdDetails.UpsertThenFind | portfolio-react/public/projects/fioriApp/controller/ProdDetails-dbg.controller.js:175-225 | the saved review is the one the dialog loads next time, with the saved rating and comment |
| ProdDetails.ReviewModel.constructor | portfolio-react/public/projects/fioriApp/controller/ProdDetails-dbg.controller.js:57-63 | the added fields: rating 0, empty comment, no review present |
| ProdDetails.ReviewModel.CheckUserReview | portfolio-react/public/projects/fioriApp/controller/ProdDetails-dbg.controller.js:214-225 | the anonymous user's earlier review, if any, is loaded into the dialog; otherwise nothing changes |
| ProdDetails.ReviewModel.CancelReviewDialog | portfolio-react/public/projects/fioriApp/controller/ProdDetails-dbg.controller.js:137-142 | the dialog's rating and comment are cleared |
| ProdDetails.ReviewModel.SaveReviewDialog | portfolio-react/public/projects/fioriApp/controller/ProdDetails-dbg.controller.js:175-213 | a falsy rating is refused; otherwise the trimmed comment is saved as the anonymous review and reviewPresent is set; a missing review list throws |

## Left out

- Strings are sequences of Unicode characters, not UTF-16 code units. Lone surrogates, which TextEncoder replaces by U+FFFD, are not modelled.
- toUpperCase and toLowerCase map ASCII letters only. Full Unicode case mapping is not modelled.
- Property lookup sees own properties only: an object's keys, and an array's or a string's length and index keys. Inherited names such as `toString` or `map` read as undefined.
- `JSONModel.getProperty` is not part of this model's sources. `EmpDetails.GetProperty` reads a path the way it does without a binding context: an absolute path segment by segment from the data, stopping at an empty segment or a falsy value, and a relative path as null.
- JavaScript's `Number()` text conversion is not modelled. Where the code calls it (validatePincode, validatePincodeText, the postalCode rule of onValueChange), its result is a parameter of the model.
- `new Date().toISOString()` is a parameter of the review save. Locale date formatting (`formatDate`) is left out.
- Floating-point arithmetic and number formatting are left out: `showPrice`, `bindDimensions`, `rating.toFixed`, and the scroll heights.
- The XLSX builder, the data provider and its data converter, JSZip, XLSX.read and sheet_to_json are left out. They are foreign libraries, so the model keeps only the calls made to them and their outcomes.
- `ExportUtils.saveAsFile` and `normalizeUrl`, `Log`, Blob URLs and `importScripts` are left out for the same reason. A saved file is recorded, not written. Whether `saveAsFile` throws, and what, is a parameter of `CommaSeparatedValues.CommaSeparatedValues.CreateBuildPromise`.
- `downloadSpreadsheet` is left out. It only hands the table's columns to the spreadsheet library.
- Web workers do not run concurrently in the model. Their construction, messages and error events are a sequence of method calls.
- Network requests are left out: the employee and product loaders and the PUT of onClickSave. The PUT's outcome is the `requestSucceeded` parameter of `EmpDetails.DetailsModel.ClickSave`.
- UI plumbing is left out: views, fragments, dialogs, message boxes, toasts, busy indicators, charts, tokens and navigation. The model keeps the text of messages, not how they are shown.
- Master's `handleUploadedFile`, `onFileUploadEvent`, `onEditPress`, `onToggleFilterVisible` and the rich-content dialog are left out. They are glue between the file reader, the upload helpers and the UI.
- ProdDetails' `bindTags`, `showBarcode`, `showQrcode`, `onImagePress` and `setDefautImg` are left out. They only create controls or canvases.
- Master.MasterModel.DeletePress: rows are values in a sequence. The source sets isDeleted on the row objects themselves, so other references to a row would see the change; that sharing is not modelled.
- Master.MasterModel.SaveEditDialog: it requires the dialog's path to name a row, or the slot one past the last row. onAddPress and onEditPress only ever set such paths. Like the source, it does not refresh the count.
- Dashboard.FilterRange: states sortedness only when every stock is positive. With an "Out of stock" bar the comparator returns NaN, and the order that Array.prototype.sort then produces is implementation-defined.
- Dashboard.FilterRange: also requires a bucket size of at least 1. The only caller passes 10.
- Dashboard.ShownIffSameLabel: stated for non-negative stocks only, as is Dashboard.FoundUnderOwnLabel. A negative stock gets a label such as "-9-0", which tableShowByRange does not read back as a range.
- ExcelFileControl.FormatData: takes the sheet as a list. When the raw data is null or undefined, the source throws on `slice`; that case is not modelled.
- Employee.FilterSearch: takes the four selections as lists of strings and the gender selection as an integer, as the page model stores them. A selection that is not an array, which would throw, is not modelled.
- Formatter.ValidatePincode: its own contract states only that the result is one of the two states. Its meaning is stated by `Formatter.ValidatePincodeAgrees`, `Formatter.ValidatePincodeAcceptsNonIntegers` and `Formatter.PincodeInvalidCorrectsValidatePincode`.
- Formatter.DateFormatter: its own contract states only the falsy case. The reordering is stated by Formatter.DateFormatterReorders.
- Formatter.ConvertJoinToList: its own contract states only the falsy case and the TypeError. The replacement is stated by Formatter.ConvertJoinToListLeavesNone and Formatter.ConvertJoinToListInverse.
- CsvBuilder.EscapeContent: its own contract states only the empty case. The escaping is stated by `CsvBuilder.PreQuoteShape`, `CsvBuilder.QuoteIfNeeded` and `CsvBuilder.EscapedCellEncodes`.
- CsvBuilder.RowReadsBack: requires a separator other than '"', as does CsvBuilder.EscapedCellEncodes. The builder accepts '"', but the rows are then ambiguous (see `Rfc4180.QuoteSeparatorBreaksRecords`).

## Findings

| source | as written | input that shows it | evidently intended | confidence | as-written member | corrected member |
|---|---|---|---|---|---|---|
| portfolio-react/public/projects/fioriApp/model/Formatter-dbg.js:134-150 | validatePincode rejects only 0, negative numbers and a length other than 5. A five-character text whose `Number()` is NaN or a fraction passes with state None and no message. | "abcde" (Number gives NaN) and "12.50" (12.5) both give "None" and "" | a pincode is valid only as five characters reading as a positive integer. The message "Code should be 5 digits only." and the postalCode rule of the employee details page (`!Number.isInteger(iValue) \|\| iValue <= 0 \|\| sValue.length !== 5`) say so. | not executed | Formatter.ValidatePincodeAcceptsNonIntegers | Formatter.PincodeInvalidCorrectsValidatePincode |
