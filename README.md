# CSV / JSON user reconciliation, modelled in Dafny

The modelled program is a small browser tool. It takes one CSV file and a batch of JSON
files and reports which JSON files name a user that the CSV does not know.

- **The reference set.** One column of the CSV holds, per row, either a plain user
  name or a JSON blob. The identifiers in that column form the reference set.
- **The scan.** Each JSON file carries an identifier under a configurable key. A file
  whose identifier is in the reference set is counted as matching. The other files are
  grouped by identifier.
- **The export.** The groups can be exported as a summary CSV.

The model covers the engine in `project/src/utils/fileParser.ts` and the result
assembly in `handleProcess` (`project/src/App.tsx`):

| module | file | models |
|---|---|---|
| `Text` | `text.dfy` | `String.prototype.trim`, `Array.prototype.join`, `Number.prototype.toString` for counts |
| `Json` | `json.dfy` | the view of a parsed JSON document the engine uses: the value under a key, its truthiness, `String(value)` |
| `Tokenizer` | `tokenizer.dfy` | `parseRfc4180Csv`: the `while` loop as a method, proved equal to a step-by-step specification `Tokenize` |
| `Rfc4180` | `rfc4180.dfy` | the writing side of section 2 of RFC 4180 (bare and quoted cells, the three line terminators), used to state what the tokenizer reads back |
| `ReferenceSet` | `reference_set.dfy` | `parseCsvFile`: its two errors, the header lookup and the `for` loop that collects the set |
| `Scanner` | `scanner.dfy` | `parseJsonFiles`: the `for` loop with the matching count and the insertion-ordered `Map` of missing users |
| `Comparison` | `comparison.dfy` | `handleProcess`: the missing-input check, error propagation and the result object |
| `Export` | `export.dfy` | the `csvContent` string of `exportToCsv` |

Each loop of the source is a method whose `ensures` ties its result to a specification
function. Lemmas then prove, about those functions, what the program promises:
- blank rows are dropped;
- quoting follows RFC 4180;
- a table written under RFC 4180 reads back as its rows;
- the reference set's errors and bound;
- the scan's accounting, grouping and ordering;
- the export round trip.

Files and `JSON.parse` are not modelled as such:
- A CSV or JSON file is given as its text, and a JSON file also by its name.
- `JSON.parse` is a parameter `parse: string -> Option<Document>`. It returns `None`
  where the source's `try` block throws. That covers text that is not JSON, and also
  the JSON value `null`, because reading a property of `null` throws inside the same
  `try`.

Two details of the code that the model keeps:
- Blank cells are skipped (`fileParser.ts:79`). A JSON cell whose value under the key
  is truthy but all white space, such as `" "`, still adds `""` to the set
  (`fileParser.ts:83-84`). `ReferenceSet.EmptyIdentifier` states exactly when `""` is a
  member.
- The result object carries `csvCount` (`App.tsx:41`), but the `ComparisonResult`
  interface in `types.ts` does not declare it. The model's `ComparisonResult` has the
  field.

## Model

| member | source | states |
|---|---|---|
| Text.TrimBounds | project/src/utils/fileParser.ts:78 | `trim` returns a slice `s[a..b]` of its input. The slice neither starts nor ends with white space, and everything cut away before `a` and from `b` on is white space (ECMAScript WhiteSpace and LineTerminator). |
| Text.TrimIdempotent | project/src/utils/fileParser.ts:84-87 | Trimming an already trimmed string changes nothing, so the second `trim()` on the plain-cell path is a no-op. |
| Text.TrimNoop | project/src/utils/fileParser.ts:87 | A string with no white space at either end is its own trim. |
| Text.Decimal | project/src/utils/fileParser.ts:131 | `count.toString()` is non-empty, made of decimal digits, and has no leading zero unless it is `0`. |
| Text.DecimalRoundTrip | project/src/utils/fileParser.ts:131 | Reading the decimal form of a count back gives the count. |
| Tokenizer.ParseRfc4180Csv | project/src/utils/fileParser.ts:1-51 | The `while` loop and the final flush return exactly `Tokenize(text)`, the state the step function reaches over the whole text, then flushed. Every returned row has a non-empty field. |
| Tokenizer.Step | project/src/utils/fileParser.ts:9-40 | Each iteration consumes one or two characters and never reads past the end, so the loop terminates. |
| Tokenizer.EndRowKeepsNonBlankRows | project/src/utils/fileParser.ts:24-31 | The guard before a flush changes nothing: a flush appends the pending field and keeps the row exactly when one of its fields is non-empty. |
| Tokenizer.EndRowIdempotent | project/src/utils/fileParser.ts:23-31 | A terminator right after another adds nothing: blank lines are dropped. |
| Tokenizer.RunKeepsContent | project/src/utils/fileParser.ts:26-27 | The loop never loses a row it has emitted and emits only rows with a non-empty field. |
| Tokenizer.TokenizeRowsHaveContent | project/src/utils/fileParser.ts:43-48 | Every row of the result, the last one flushed after the loop included, has a non-empty field. |
| Tokenizer.DoubledQuoteInsideQuotes | project/src/utils/fileParser.ts:12-14 | Inside quotes, `""` adds one quote to the field and consumes both characters. |
| Tokenizer.OpenQuote | project/src/utils/fileParser.ts:15-17 | Outside quotes, a quote switches to quoted mode and adds nothing to the field. |
| Tokenizer.LiteralInsideQuotes | project/src/utils/fileParser.ts:37-39 | Inside quotes, every character other than a quote is appended to the field, commas, `\n` and `\r` included. |
| Tokenizer.CommaEndsField | project/src/utils/fileParser.ts:19-22 | Outside quotes, a comma appends the field to the row and starts an empty one. |
| Tokenizer.TerminatorsEndRow | project/src/utils/fileParser.ts:23-36 | Outside quotes, `\r\n`, a lone `\r` and `\n` each end the row once, so `\r\n` is one terminator, not two. |
| Tokenizer.UnclosedQuoteAbsorbsRest | project/src/utils/fileParser.ts:8-41 | A quote that is never closed takes the rest of the input, commas and line terminators included, into the current field. |
| Rfc4180.RunQuotedBody | project/src/utils/fileParser.ts:11-18 | An escaped text followed by a closing quote is read back as the text itself, and quoted mode ends. |
| Rfc4180.RunCell | project/src/utils/fileParser.ts:8-41 | A valid bare or quoted cell, followed by a separator, a terminator or the end, is read back as its text. |
| Rfc4180.RunTable | project/src/utils/fileParser.ts:8-48 | Reading a whole table from any list of finished rows appends the table's rows, less those whose fields are all empty. |
| Rfc4180.TokenizeTable | project/src/utils/fileParser.ts:1-51 | Any table written under section 2 of RFC 4180 is tokenized back to its rows minus the blank ones. This holds for any mix of bare and quoted cells and of `\n`, `\r` and `\r\n` terminators. |
| Rfc4180.SplitFieldsRoundTrip | project/src/utils/fileParser.ts:19-22 | A line without quotes or terminators has one more piece than it has commas, and writing the pieces back bare gives the line. |
| Rfc4180.TokenizeUnquotedLine | project/src/utils/fileParser.ts:19-48 | Such a line is tokenized to one row of commas+1 fields, or to no row when every field is empty. |
| ReferenceSet.Headers | project/src/utils/fileParser.ts:65 | Each header is the trimmed header field at the same position. |
| ReferenceSet.IndexOf | project/src/utils/fileParser.ts:66 | `indexOf` is -1 exactly when the name is absent. Otherwise it is the first position holding exactly that name. |
| ReferenceSet.CollectIdentifiers | project/src/utils/fileParser.ts:72-91 | The `for` loop over the data rows builds exactly `Identifiers(rows[1..])`, the union of what each row yields. |
| ReferenceSet.ParseCsvFile | project/src/utils/fileParser.ts:53-92 | `parseCsvFile` returns `ReferenceSetOf(Tokenize(text), ...)`: an error for no rows or a missing column, otherwise the data rows' identifiers. |
| ReferenceSet.ReferenceSetErrors | project/src/utils/fileParser.ts:61-70 | "CSV file is empty" exactly when there are no rows. The column error comes exactly when no trimmed header equals the name, and it lists the trimmed headers. |
| ReferenceSet.ReferenceSetSuccess | project/src/utils/fileParser.ts:65-91 | Otherwise the column is the first exact match and the set is what the data rows yield there. It has at most one member per data row. |
| ReferenceSet.IdentifiersMembership | project/src/utils/fileParser.ts:74-89 | An identifier is in the set exactly when some data row yields it. |
| ReferenceSet.IdentifiersBound | project/src/utils/fileParser.ts:72-89 | The set has no more members than there are data rows. |
| ReferenceSet.PlainCellIsKept | project/src/utils/fileParser.ts:86-88 | A non-blank cell that is not JSON always puts its trimmed text in the set. |
| ReferenceSet.StructuredCellNeverFallsBack | project/src/utils/fileParser.ts:81-85 | A JSON cell yields the trimmed value under the key when that value is truthy, and otherwise nothing; its text is never used. |
| ReferenceSet.IdentifiersAreTrimmed | project/src/utils/fileParser.ts:78-88 | Every member is trimmed. `""` is a member only if some non-blank JSON cell has a truthy, all-white-space value under the key. |
| ReferenceSet.RowYieldsEmpty | project/src/utils/fileParser.ts:79-88 | A row yields `""` if and only if its cell is non-blank JSON whose value under the key is truthy and all white space; a plain cell never does. |
| ReferenceSet.EmptyIdentifier | project/src/utils/fileParser.ts:74-89 | `""` is in the set if and only if some data row has such a cell. |
| Scanner.StoreKeys | project/src/utils/fileParser.ts:115-117 | `Map.set` keeps the place of an existing key and appends a new key last. |
| Scanner.StoreLookup | project/src/utils/fileParser.ts:115-117 | `Map.set` changes what its key reads and nothing else. |
| Scanner.StoreTotal | project/src/utils/fileParser.ts:115-117 | Setting a key replaces the names it held, so the number of names changes by the difference. |
| Scanner.ParseJsonFiles | project/src/utils/fileParser.ts:94-125 | The `for` loop returns exactly `ScanFiles(files)`: each file folded in by one iteration, in order. |
| Scanner.ScanMatching | project/src/utils/fileParser.ts:110-113 | `matching` is the number of files whose identifier is in the reference set. |
| Scanner.ScanAccounting | project/src/utils/fileParser.ts:102-122 | `matching` plus the number of names in the map is the number of files with a non-empty identifier. |
| Scanner.IdentifiedBound | project/src/utils/fileParser.ts:102-110 | At most every file has an identifier. |
| Scanner.ScanGroups | project/src/utils/fileParser.ts:112-118 | An identifier reads as the names of all files with that identifier, in input order and with repeats, when it is outside the reference set and some file has it. Otherwise it is not a key. |
| Scanner.ScanOrder | project/src/utils/fileParser.ts:114-117 | The keys are the missing identifiers in the order they were first met. |
| Scanner.ScanEntries | project/src/utils/fileParser.ts:112-118 | Every key appears once and is not in the reference set. Each entry holds all files with that identifier, and is never empty. |
| Scanner.ScanMissingKeys | project/src/utils/fileParser.ts:108-118 | An identifier is a key exactly when some file has it and the reference set does not. |
| Comparison.HandleProcess | project/src/App.tsx:17-44 | Without a CSV or with no JSON files, the result is the "Please select both CSV file and JSON files" error. A reference-set error becomes its message. Otherwise the result is assembled from the set and the scan. |
| Comparison.SumCountsTotal | project/src/App.tsx:31-35 | The `count` fields add up to the number of names in the map. |
| Comparison.ResultAccounting | project/src/App.tsx:31-42 | The result's matching count plus the counts of its missing users equals the number of identified files, at most `totalJsonFiles`. Each missing user appears once, is outside the reference set, lists every file with it in input order, and has `count` equal to that list's non-zero length. `csvCount` is the set's size. |
| Export.HeaderLine | project/src/utils/fileParser.ts:128-136 | The header line `currentUser,count,files` is a line of three bare cells. |
| Export.SummaryRowsHaveContent | project/src/utils/fileParser.ts:128-133 | Every summary row has a non-empty field: the header's names and each user's count. |
| Export.EscapedRoundTrip | project/src/utils/fileParser.ts:127-138 | The summary written with quotes doubled tokenizes back to the header and one row per missing user, each cell exactly as it was. |
| Export.WrittenRoundTrip | project/src/utils/fileParser.ts:127-138 | When no identifier or file name holds a quote, the summary as written equals the escaped one and reads back exactly. |
| Export.QuoteBreaksRoundTrip | project/src/utils/fileParser.ts:134-137 | For a missing user named `"` with no files and any count `n`, the summary as written reads back as a single field `",n,"`, not as that user's row. |

## Left out

- Reading files (`file.text()`, `async`/`await`): the CSV file and every JSON file are
  given as their text. A JSON file that cannot be read is skipped by the same `catch`
  as one that does not parse, so `parse` returning `None` covers it. A CSV read failure
  is not modelled.
- `JSON.parse` itself: it is the parameter `parse`. What `String(value)` gives for a
  non-string value (a number, an object, an array) is carried by that value in `Json.Value`.
  `String(value)` is assumed not to throw. In JavaScript it throws for an object whose
  `toString` is not callable, and the `catch` would then add the raw cell in
  `parseCsvFile` and skip the file in `parseJsonFiles`; the model does neither.
  Property lookup on primitives (for instance `length` on a string) is whatever the
  parser puts in the document.
- The `console.error` call for a file that fails to parse: the file is skipped, and
  the log line is not modelled.
- The download in `exportToCsv` (the `Blob`, the object URL and the hidden link,
  `fileParser.ts:140-150`): the model stops at the `csvContent` string.
- The React state around `handleProcess` (`isProcessing`, clearing the error, the
  generic message for a thrown value that is not an `Error`): nothing the model throws is
  anything but the two reference-set errors.
- `FileUpload.tsx` and `ResultsDisplay.tsx`: user interface only.
- Strings are sequences of Unicode scalar values, where JavaScript uses UTF-16 code
  units. The tokenizer only compares characters with ASCII quotes, commas and
  terminators, so the two agree on every split it makes.
- Update in place: the source mutates `rows`, `currentRow` and `currentField` in
  `parseRfc4180Csv`, the `Set` of identifiers in `parseCsvFile`, and the `Map` in
  `parseJsonFiles`, whose name arrays it pushes to in place (`fileParser.ts:115-117`).
  The model reassigns sequence, set and association-list values instead. Nothing else
  holds a reference to these structures, so no aliasing is lost; the order of keys in
  the `Map` is kept by the association list.

## Findings

| source | as written | input that shows it | evidently intended | confidence | as-written member | corrected member |
|---|---|---|---|---|---|---|
| project/src/utils/fileParser.ts:134-137 | Every data cell is written as `"${cell}"`, without doubling the quotes inside it, so the summary is not valid RFC 4180. | A missing user whose identifier is `"`, with no files and any count `n`. The line `""","n",""` tokenizes to the single field `",n,"`. | Double every quote inside a cell (section 2, rule 7 of RFC 4180), so that the summary reads back as its rows. | not executed | Export.QuoteBreaksRoundTrip | Export.EscapedRoundTrip |
