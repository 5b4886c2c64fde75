# google-spreadsheet-report, modelled in Dafny

The library appends records (objects of named fields) as rows to a Google Sheets
spreadsheet. It can also upsert a row by a key column. Along the way it:

- creates the target tab if it is missing;
- adds header columns that are not there yet;
- in the date-stamped mode, deletes rows older than a retention window.

This project models the logic of the library that is not plumbing:

- **Column codec.** Spreadsheet column names are bijective base 26 (1 is A, 26 is Z,
  27 is AA). The codec converts a column number to its name and back. The number-to-name
  conversion exists twice, as a TypeScript loop and as a JavaScript loop that mutates its
  parameter. Each copy is a `method` with a loop, proved equal to the recursive
  specification `ColumnCodec.Name`. The reverse conversion is a left fold over the
  letters.
- **Value projector.** `valueArray` lines a record up with a header row.
- **Option validator.** `validateOptions` checks email, key and spreadsheetId in that
  order and reports the first one missing.
- **Workflows.** `appendData` (the TypeScript and the JavaScript builds) and
  `setKeyValues`. They:
  - make sure the tab exists;
  - reconcile the header row with the headers the record requires;
  - check the first header;
  - write the projected row;
  - purge stale rows, or update the row that holds the key.

The spreadsheet service is modelled as a trace. Every request the client issues is one
`SheetRequests.Request` value, and each workflow returns its outcome together with the
requests it issued, in order. Reads are in the trace too, so "no metadata lookup" can be
stated. What a read answers is an input: the tabs' metadata, the id the service gives a
new tab, the header row, and column A of the data rows.

One behaviour of the service is assumed rather than taken from the client:
`SheetRequests.ApplyDeletes` says what a `batchUpdate` of row deletions does to the rows of
the tab with a given id. It applies the deletions in request order, each to the rows left by
the previous ones. The batch takes effect as a whole or not at all. A deletion aimed at
another tab, or one whose range does not lie within the rows, rejects it. `Purge.PurgeDeletesExactlyStaleRows` is stated over this behaviour.

Clock and date parsing are parameters:

- `parseDate: string -> Option<int>` turns a cell into an instant, or `None` when the
  cell is not a valid date;
- `Clock(now, stamp)` holds two readings of the clock: `stamp`, the formatted text that
  dates a record, and `now`, the instant the purge limit is taken from;
- the purge limit is `now - retention * 86 400 000` milliseconds, a day being taken as 24 hours.

The deletion plan of the purge is a `method` with the loop of the source, proved equal to
`Purge.PurgeRequests`. Its batch, applied to the sheet's rows, removes exactly the stale
rows (`Purge.PurgeDeletesExactlyStaleRows`).

## Model

| member | source | states |
|---|---|---|
| ColumnCodec.Name | src/column_number_to_name.ts:8-13 | every column number from 1 up has a name that is non-empty and made only of 'A'..'Z'; the name of n is the name of (n-1) div 26 followed by the letter of (n-1) mod 26, or that letter alone when the quotient is 0 |
| ColumnCodec.Letter | src/column_number_to_name.ts:11 | a digit 0..25 becomes a letter 'A'..'Z' |
| ColumnNumberToName.ColumnNumberToName | src/column_number_to_name.ts:4-16 | the do-while loop ends for every n >= 1 and returns `Name(n)`, a non-empty name over 'A'..'Z' |
| UtilsColumnNumberToName.ColumnNumberToName | utils/columnNumberToName.js:4-14 | the copy that decrements and divides its own parameter also returns `Name(n)`, so both copies agree on every n >= 1 |
| ColumnCodec.Digit | utils/columnNameToNumber.js:2 | `parseInt(c, 36) - 9` of a letter 'A'..'Z' is in 1..26 |
| ColumnCodec.ColumnNameToNumber | utils/columnNameToNumber.js:1-3 | the fold is never negative, and is at least 1 on a non-empty name |
| ColumnCodec.HornerStep | utils/columnNameToNumber.js:2 | appending a letter multiplies the value by 26 and adds the letter's digit |
| ColumnCodec.DigitOfLetter | utils/columnNameToNumber.js:2 | the digit of the letter for d is d + 1 |
| ColumnCodec.LetterOfDigit | utils/columnNameToNumber.js:2 | the letter for a letter's digit minus one is that letter |
| ColumnCodec.NumberNameRoundTrip | utils/columnNumberToName.js:7-11 | name-to-number undoes number-to-name for every n >= 1 |
| ColumnCodec.NameNumberRoundTrip | utils/columnNameToNumber.js:2 | number-to-name undoes name-to-number for every non-empty name over 'A'..'Z' |
| ColumnCodec.NameInjective | src/column_number_to_name.ts:4-16 | distinct column numbers have distinct names |
| ColumnCodec.SingleLetterNames | src/column_number_to_name.ts:9-13 | the name has one letter exactly when n <= 26 |
| ColumnCodec.NameExamples | src/column_number_to_name.test.ts:5-12 | 1, 26, 51, 52, 80, 676, 702 and 705 name A, Z, AY, AZ, CB, YZ, ZZ and AAC, and column 100 (the header read's last column) is CV |
| ColumnCodec.ColumnNameToNumberExamples | utils/columnNameToNumber.test.js:5-12 | A, Z, AY, AZ, CB, YZ, ZZ and AAC read back as 1, 26, 51, 52, 80, 676, 702 and 705 |
| Records.Keys | src/index.ts:45 | the record's field names, in record order |
| Records.Get | src/value_array.ts:4 | `data[h]` over the record's own fields: undefined for a name the record lacks, the field's value when the record has it |
| Records.Truthy | src/index.ts:230 | `!key`: undefined, the empty text and 0 are falsy, every other value is truthy |
| Records.ValueArray | src/value_array.ts:3-4 | the row has one cell per header, and cell i is the record's value under header i |
| Records.MissingFieldIsEmptyCell | src/value_array.ts:4 | a header the record lacks gives an undefined cell, not an error |
| Records.ValueArrayAppend | src/value_array.ts:4 | projecting onto headers extended on the right extends the row on the right and leaves the earlier cells alone |
| Records.ValueArrayIgnoresKeyOrder | src/value_array.test.ts:6-16 | the row follows the headers' order, not the record's field order: records with the same fields in any order give the same row |
| Records.SameGet | src/value_array.ts:4 | records with the same fields answer every lookup alike |
| Records.ValueArrayExample | src/value_array.test.ts:6-16 | {date, val1, val2} onto ["date","val2","val1"] gives ["2000-01-01", 2, "1"] |
| OptionsCheck.ValidateOptions | src/validate_options.ts:10-15 | the field reported is missing or empty; validation passes exactly when email, key and spreadsheetId are all non-empty |
| OptionsCheck.MissingMessage | src/validate_options.ts:11-14 | the message of a missing option starts with `parameter "`, then the option's name and a closing quote |
| OptionsCheck.MissingMessagesDiffer | src/validate_options.ts:11-14 | the messages for email, key and spreadsheetId are pairwise different |
| OptionsCheck.MissingFields | src/validate_options.ts:11-14 | the fields among those given that are missing or empty |
| OptionsCheck.ReportsFirstMissing | src/validate_options.ts:11-14 | when several fields are missing, the first in the order email, key, spreadsheetId is reported |
| OptionsCheck.IgnoresOtherOptions | lib/validateOptions.js:1-6 | sheet, retention and keyName do not affect the verdict |
| OptionsCheck.ValidateOptionsExamples | src/validate_options.test.ts:5-37 | a missing email, key or spreadsheetId is reported by name, an empty email counts as missing, and all three present pass |
| Sequences.Except | src/index.ts:130 | `filter(h => !sheetHeaders.includes(h))`: keeps exactly the elements not dropped, in their order, and is no longer than its input |
| Sequences.ExceptCounts | src/index.ts:130 | a dropped element occurs no more in the result; every other element occurs as often as in the input |
| Sequences.ExceptKeepsDistinct | src/index.ts:130 | filtering keeps a list free of duplicates |
| Sequences.DisjointConcatDistinct | src/index.ts:146 | two duplicate-free lists with no common element concatenate to a duplicate-free list |
| Sequences.Reverse | src/index.ts:210 | `reverse()`: element i of the result is element n-1-i of the input |
| Sequences.ReverseSnoc | src/index.ts:210 | reversing a list with one more element on the right puts that element first |
| SheetRequests.DeleteRequests | src/index.ts:192-201 | one row-deletion request per span, in the same order |
| SheetRequests.Texts | src/index.ts:141 | the header names as text cells, in order |
| SheetRequests.HeaderRange | src/index.ts:119-125 | the header read covers row 1 of the tab from column A to column CV, whose name reads back as 100 |
| SheetRequests.DataColumnRange | src/index.ts:175-180 | the data read covers column A only, from the first row below the header through 1000 data rows |
| SheetRequests.RowRange | src/index.ts:159 | a row is appended from the single anchor cell A1 of the tab, with no end cell |
| SheetRequests.ApplyFirstDelete | src/index.ts:209-216 | the service applies the first deletion of a batch to the rows of its tab and then the rest of the batch to what remains |
| SheetRequests.ApplyDeletesOtherTab | src/index.ts:193-197 | a batch whose first deletion names another tab id is rejected and changes nothing on this tab |
| Headers.DateHeaders | src/index.ts:45-48 | "date" comes first and appears once; the rest are the record's keys other than "undefined" and "date", in record order |
| Headers.KeyValueHeaders | src/index.ts:74 | the record's keys other than "undefined", in record order |
| Headers.DateHeadersDistinct | lib/index.js:68-69 | record keys without duplicates give a date header list without duplicates |
| Headers.MakeSureHeadersExist | src/index.ts:113-147 | reads the header row first, then: existing headers keep their positions; every required header is present; the added ones are exactly the required ones not in the row, each as often as required, in required order; a write follows exactly when a header was missing, and it holds the added headers |
| Headers.HeaderAppend | src/index.ts:133-144 | the header write is one append to the sheet at row 1 of the column whose number is the header count plus one (its name reads back as that number), holding the missing headers as text |
| Headers.MakeSureHeadersExistDistinct | src/index.ts:130-146 | a header row without duplicates stays without duplicates |
| Headers.MakeSureHeadersExistIdempotent | src/index.ts:130-131 | a second reconciliation finds nothing missing, writes nothing and returns the row unchanged |
| Headers.MakeSureHeadersExistExample | src/index.ts:133-146 | headers ["date","a"] with ["date","a","b","c"] required: "b" and "c" are written from column C |
| SheetTabs.FindTab | src/index.ts:91 | the first tab with the title, or -1 when none has it |
| SheetTabs.MakeSureSheetExists | src/index.ts:83-111 | no tab name: id 0 and no request; a tab with the title: the first one's id (0 when absent) after one metadata read; otherwise the tab is created and its id is the one in the reply |
| SheetTabs.MakeSureSheetExistsIdempotent | lib/index.js:40-65 | once the tab has been created, a second call finds it and creates nothing |
| Purge.Stale | src/index.ts:191 | an empty first cell or one that is not a valid date is stale; a valid date is stale exactly when it is before the limit |
| Purge.Deletions | src/index.ts:186-205 | at most one deletion per row read |
| Purge.DeletionIsStale | src/index.ts:191-203 | every deletion is the span [i+1, i+2) of a stale row read at position i |
| Purge.DeletionsCoverStale | src/index.ts:191-203 | every stale row read at position i has its deletion span [i+1, i+2) |
| Purge.DeletionsAscending | src/index.ts:187 | the deletions are collected in ascending row order |
| Purge.NoDeletionsIffNoneStale | src/index.ts:207 | no deletion is planned exactly when no row read is stale |
| Purge.PurgeRequests | src/index.ts:169-217 | column A is read first; the batch deletion follows exactly when values were read and one of them is stale, and it sends the batch of `Purge.Batch` |
| Purge.PurgeRows | lib/index.js:122-166 | the loop that pushes one deletion per stale row and then reverses the list issues the requests of `PurgeRequests` |
| Purge.Batch | src/index.ts:209-211 | the reversed deletion list sent as one batch has at most one deletion per row read |
| Purge.BatchPlan | src/index.ts:183-211 | every op of the batch deletes the one sheet row of a stale row read; the ops go in strictly descending order of start index; the batch is empty exactly when no row read is stale |
| Purge.ReversedSpan | src/index.ts:210 | op k of the reversed batch deletes the span pushed k-th from the end |
| Purge.ReversedStaleSpans | src/index.ts:191-210 | reversing spans that each delete a stale row read keeps every op a deletion of a stale row read |
| Purge.DescendingSpans | src/index.ts:209-211 | spans in descending order of start index become deletion ops in the same order |
| Purge.BatchDescending | src/index.ts:209-211 | the batch is in strictly descending order of start index |
| Purge.KeptSamePrefix | src/index.ts:187-205 | which rows survive depends only on the rows that were read |
| Purge.PurgeDeletesExactlyStaleRows | src/index.ts:209-216 | applying the batch, deletion by deletion, to the tab whose id the deletions carry keeps the header row, removes exactly the stale rows read, and keeps every other row in order |
| Purge.PurgeBatchOtherTabRejected | src/index.ts:193-197 | when some row read is stale, the batch carries the resolved tab id, so applying it to any other tab is rejected |
| Purge.StaleRowStep | src/index.ts:191-203 | a stale last row read is removed by the batch, and the earlier rows are purged as before |
| Purge.BatchOfStaleLast | src/index.ts:203-210 | a stale last row read puts its deletion at the head of the batch, before the reversed deletions of the earlier rows |
| Purge.KeptLast | src/index.ts:191-203 | a last row read that is not stale adds no deletion to the batch and stays among the kept rows, after the earlier ones |
| Purge.KeptRowStep | src/index.ts:191-203 | a last row read that is not stale survives the batch |
| Purge.PurgeExample | src/index.ts:186-216 | rows read [empty, invalid, old, recent] on tab 7 give the batch deleting [3,4), [2,3), [1,2) |
| Upsert.Matches | src/index.ts:244-247 | `value === key`: a row matches exactly when it is non-empty and the key is the text of its first cell; a number key or a missing key matches no row |
| Upsert.FindKeyRow | src/index.ts:244-249 | `findIndex`: the first row whose first cell strictly equals the key, or -1 when none does |
| Upsert.RowUpdate | src/index.ts:251-260 | the update of the row read at position i writes the projected row to column A of sheet row i + 2, never the header row |
| Upsert.UpdateRowIfExists | src/index.ts:219-265 | a falsy key fails before any read; otherwise it reads column A and updates a row exactly when one holds the key: the first such row, at sheet row index + 2, with the projected record |
| Upsert.UpdateRowIfExistsExample | src/index.ts:244-262 | with two rows holding the key, the first is updated (sheet row 3); a number key matches no text cell |
| Index.Retention | src/index.ts:38 | a non-zero retention is kept as given; a retention of 0 or none becomes 14 days |
| Index.KeyName | src/index.ts:67 | a non-empty key name is kept as given; an empty or missing one becomes "key" |
| Index.SheetName | src/index.ts:37 | a non-empty sheet name is kept as given; an empty or missing one becomes "" |
| Index.SetField | src/index.ts:36 | after assignment the field holds the new value, every other field is unchanged, and a new field goes last |
| Index.WithDate | src/index.ts:36 | a truthy date is kept; otherwise the date becomes the clock's stamp; no other field changes |
| Index.AppendData | src/index.ts:29-57 | a missing option fails before any request; the only other failure is the first-header check |
| Index.AppendValid | src/index.ts:40-56 | with valid options, the only failure is the first-header check |
| Index.AppendRow | src/index.ts:49-56 | succeeds exactly when the reconciled header row starts with "date"; it then writes the projected row and purges, and otherwise fails with only the tab and header requests issued |
| Index.AppendDataRejectsIff | src/index.ts:49-52 | with valid options, the first-header check fails exactly when the sheet's header row as read is non-empty and does not start with "date" |
| Index.AppendHeadersCoverKeys | src/index.ts:45-49 | every record key other than "undefined" is a header after reconciliation |
| Index.DatedRowStartsWithDate | src/index.ts:36-54 | the row's first cell is the record's date, or the stamp when the record had none |
| Index.AppendDataWritesDatedRow | src/index.ts:29-57 | a successful append writes one row, projected onto headers that start with "date" and hold every key; its first cell is the date |
| Index.RejectedExampleDated | src/index.ts:36 | the record {a} without a date gains the stamp as a last field |
| Index.RejectedExampleKeys | src/index.ts:45 | its keys are ["a","date"], in record order |
| Index.RejectedExampleFilter | src/index.ts:45-47 | filtering out "undefined" and "date" leaves ["a"] |
| Index.RejectedExampleRequired | src/index.ts:36-48 | the record {a} gains the stamp and requires ["date","a"] |
| Index.RejectedExampleHeaders | src/index.ts:127-146 | on header row ["x"], "date" and "a" are written from column B |
| Index.AppendRefusalRequests | src/index.ts:40-52 | with valid options, on a header row whose first header is not "date", the append fails after exactly the tab requests and the header reconciliation's requests, header write included |
| Index.AppendDataWritesHeadersBeforeRejecting | src/index.ts:49-52 | on header row ["x"] the append fails only after the header write has been issued |
| Index.TabRequestsWriteNothing | src/index.ts:83-111 | resolving the tab issues at most a metadata read and the tab creation |
| Index.AppendDataChecked | src/index.ts:49-52 | the corrected append fails for the first header exactly when the header row as read is non-empty and does not start with "date" |
| Index.Refusal | lib/index.js:85-87 | the refusal of the corrected append ends with the header read, and none of its requests writes a header or a row |
| Index.CheckedRefusal | src/index.ts:49-52 | on a header row whose first header is not "date", both appends refuse, and the corrected one has issued no write |
| Index.AppendDataCheckedRefusesBeforeWriting | src/index.ts:29-57 | the corrected append has the same outcome as the as-written one and the same requests on success; on refusal it has written neither a header nor a row |
| Index.SetKeyValues | src/index.ts:59-81 | a missing option fails before any request; with valid options it fails exactly when the key is falsy, with the key-not-specified error, after exactly the tab requests and the header reconciliation's requests |
| Index.SetKeyValuesWritesBeforeKeyCheck | src/index.ts:72-77 | with valid options, tab "T" absent, an empty header row and the record {a: "1"}: the tab is created and header "a" written from column A, and only then does the key check fail |
| Index.SetKeyValuesChecked | src/index.ts:228-234 | the corrected upsert fails for the key exactly when the key is falsy, and then has issued no request |
| Index.SetKeyValuesCheckedFailsBeforeRequests | src/index.ts:59-81 | the corrected upsert has the as-written outcome and the same requests on success; when it fails it has issued no request |
| Index.UpsertRow | src/index.ts:77-80 | fails exactly when the key is falsy, and then issues nothing beyond the earlier requests |
| Index.UpsertWrite | src/index.ts:77-80 | the one row write of an upsert: an update of a data row (column A, row 2 or below) exactly when some row read holds the key, otherwise an append at A1; either way it carries the projected row |
| Index.UpsertRowWritesOneRow | src/index.ts:77-80 | with a truthy key: one read of column A, then one write: the update of the first row holding the key, or the append of a new row |
| Index.SetKeyValuesWritesOneRow | src/index.ts:59-81 | a successful upsert ends with the column-A read and exactly one row write of the projected record, onto headers holding every key |
| LibIndex.MakeSureHeadersExist | lib/index.js:67-105 | fails exactly when a header is missing and the row's first header is not "date", after the read and before any write; otherwise it reconciles exactly as the TypeScript build does |
| LibIndex.AppendData | lib/index.js:19-38 | a missing option fails before any request |
| LibIndex.AppendValid | lib/index.js:27-37 | with valid options, the only failure is the first-header check |
| LibIndex.RefusalWritesNothing | lib/index.js:85-87 | a refusal for the first header has written neither a header nor a row |
| LibIndex.AgreesWithTypeScript | lib/index.js:19-38 | on a header row that is empty or starts with "date", both builds give the same outcome and the same requests |
| LibIndex.CompleteHeadersOutOfOrder | lib/index.js:81-83 | on a complete header row ["a","date"], the lib build appends the row and the TypeScript build refuses |

## Left out

- Authorisation and the googleapis wrappers (src/spreadsheet_api.ts, lib/spreadsheetapi.js) are not part of this model. A remote or transport failure, which the workflows pass on to the caller unchanged, is not modelled either.
- The root index.js is an early prototype that only makes network calls. It is not part of this model.
- Date parsing and formatting, and the current time, are parameters. `parseDate` stands for the date parser and `Clock` for the two clock readings. Date formats are not modelled.
- The steps of each workflow are awaited in sequence. Concurrent calls on one sheet, and their races, are not modelled.
- ColumnCodec.Name: a column number below 1 is excluded by a precondition. The source emits characters outside 'A'..'Z' for such numbers.
- ColumnCodec.ColumnNameToNumber: lower-case and non-letter input is excluded by a precondition. The source relies on `parseInt` base 36 for those.
- Records.Keys: a record is a sequence of (name, value) pairs whose order is the key order. The JavaScript rule that integer-like keys come first is not modelled.
- Numbers are modelled as integers. Floating-point cell values are not modelled.
- Index.AppendData: the defaults are written back into the caller's `data` and `options` objects. The model computes them as values, so that visible mutation is not modelled.
- SheetTabs.MakeSureSheetExists: lib/index.js:46 and 64 return an undefined id where the metadata or the reply lacks one. The model uses 0 there, as src/index.ts:92 and 110 do.
- Range strings are reduced to the tab name and the cells. The 100-column and 1000-row read limits are kept as `NumberOfColumnsToCheck` and `NumberOfRowsToCheck`, but the bound they place on what the service returns is not enforced on the inputs.
- lib/index.js imports `valueArray` from utils/valueArray, which is not part of this model. Its projection is taken to be that of src/value_array.ts.
- lib/validateOptions.js has the same body as src/validate_options.ts. Both are modelled by the one function OptionsCheck.ValidateOptions.
- The error messages of `validateOptions` are modelled as text (`OptionsCheck.MissingMessage`). The other errors are modelled by their kind only, and the exception types (`TypeError`, `Error`) are not modelled.
- Records.Get: only the record's own fields are looked up. In JavaScript, `data[h]` also finds members inherited from `Object.prototype`. For example, with key name "toString" and no such field, `data[keyName]` is a function and is truthy, so src/index.ts:228-230 goes on to the upsert where the model reports a missing key. A header such as "constructor" likewise gets a non-undefined cell at src/value_array.ts:4.
- Index.Clock: the source reads the clock twice. The stamp comes from `dayjs()` at src/index.ts:36, before any request. The purge limit comes from `dayjs()` again at src/index.ts:185 (lib/index.js:23 and 134), after the tab, header and row requests. The model takes `stamp` and `now` as two independent inputs and does not relate them.
- Purge.PurgeDeletesExactlyStaleRows: the lemma holds for the tab whose id the batch carries. With no tab name, column A is read from the default (first) tab via the range `!A2:A1001`, but the deletions go to tab id 0 (src/index.ts:88, 179, 195; lib/index.js:42, 128, 144 likewise). The model does not capture whether the first tab has id 0, so it does not say that the rows read and the rows deleted are on the same tab in that case.
- Index.AppendValid: the purge limit takes a day as a fixed 86 400 000 ms. dayjs `subtract(retention, 'days')` (src/index.ts:185, lib/index.js:134) moves by calendar days in local time, so near a daylight-saving change the limit can differ by an hour, and a fractional retention is rounded by dayjs rather than scaled.

## Findings

| source | as written | input that shows it | evidently intended | confidence | as-written member | corrected member |
|---|---|---|---|---|---|---|
| src/index.ts:228-234 | `setKeyValues` checks the key inside `updateRowIfExists`, after `makeSureSheetExists` and `makeSureHeadersExist` (src/index.ts:72-75) have created the tab and written the missing headers | valid options with sheet "T", no tab "T", an empty header row, record {a: "1"}: the tab is created and header "a" written, and then the upsert fails with the missing-key error | treat a missing key as a configuration error raised before any request, as the missing options are | medium, not executed | Index.SetKeyValuesWritesBeforeKeyCheck | Index.SetKeyValuesChecked |
| src/index.ts:49-52 | `appendData` checks that the first header is "date" only after `makeSureHeadersExist` (src/index.ts:127-146) has already appended the missing headers | valid options, record {a: "1"}, sheet header row ["x"]: the headers "date" and "a" are written from column B, and then the append fails | refuse such a sheet after reading its header row and before writing anything, as the JavaScript build does at lib/index.js:85-87 | medium, not executed | Index.AppendDataWritesHeadersBeforeRejecting | Index.AppendDataChecked |
