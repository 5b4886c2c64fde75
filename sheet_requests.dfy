/** The requests the client sends to the spreadsheet service. The service itself is not
    modelled: a workflow's effect is the sequence of requests it issues, and what the
    service answers to a read is an input of the workflow. */
module SheetRequests {
  import opened Wrappers
  import opened Records
  import opened ColumnCodec
  import opened OptionsCheck

  /** A cell address such as `A2`: a column name and a 1-based row number. */
  datatype CellRef = CellRef(column: string, row: nat)

  /** `<sheet>!<start>` or `<sheet>!<start>:<end>`. */
  datatype Range = Range(sheet: string, start: CellRef, end: Option<CellRef>)

  /** The 0-based, half-open row range [startIndex, endIndex) of the tab `sheetId`. */
  datatype RowSpan = RowSpan(sheetId: int, startIndex: int, endIndex: int)

  /** Structural changes sent in one `batchUpdate`: `addSheet`, and `deleteDimension` over
      `ROWS`. */
  datatype Op =
    | AddSheet(title: string)
    | DeleteRows(span: RowSpan)

  /** One `deleteDimension` request per span, in the same order. */
  function DeleteRequests(spans: seq<RowSpan>): (ops: seq<Op>)
    ensures |ops| == |spans|
    ensures forall i :: 0 <= i < |spans| ==> ops[i] == DeleteRows(spans[i])
  {
    if spans == [] then [] else [DeleteRows(spans[0])] + DeleteRequests(spans[1..])
  }

  datatype Request =
    | GetSpreadsheet                              // spreadsheets.get: the tabs' metadata
    | ValuesGet(range: Range)                     // spreadsheets.values.get
    | ValuesAppend(range: Range, row: seq<Value>) // spreadsheets.values.append, RAW, one row
    | ValuesUpdate(range: Range, row: seq<Value>) // spreadsheets.values.update, RAW, one row
    | BatchUpdate(ops: seq<Op>)                   // spreadsheets.batchUpdate

  /** A row of header names as cell values. */
  function Texts(names: seq<string>): (row: seq<Value>)
    ensures |row| == |names|
    ensures forall i :: 0 <= i < |names| ==> row[i] == Text(names[i])
  {
    if names == [] then [] else [Text(names[0])] + Texts(names[1..])
  }

  /** The rows of the tab with id `tabId` after the service applies `ops` to them in
      request order. The batch is applied as a whole or not at all: an op that is not a
      row deletion, a deletion aimed at another tab, or a range that does not lie within
      the rows rejects the batch (`None`). */
  function ApplyDeletes<T>(rows: seq<T>, tabId: int, ops: seq<Op>): Option<seq<T>>
    decreases |ops|
  {
    if ops == [] then Some(rows)
    else match ops[0]
      case DeleteRows(RowSpan(id, startIndex, endIndex)) =>
        if id == tabId && 0 <= startIndex <= endIndex <= |rows|
        then ApplyDeletes(rows[..startIndex] + rows[endIndex..], tabId, ops[1..])
        else None
      case AddSheet(_) => None
  }

  /** The first deletion of a batch removes its rows from its tab, and the rest of the
      batch applies to what remains. */
  lemma ApplyFirstDelete<T>(rows: seq<T>, span: RowSpan, rest: seq<RowSpan>)
    requires 0 <= span.startIndex <= span.endIndex <= |rows|
    ensures ApplyDeletes(rows, span.sheetId, DeleteRequests([span] + rest))
         == ApplyDeletes(rows[..span.startIndex] + rows[span.endIndex..], span.sheetId,
                         DeleteRequests(rest))
  {
    var ops := DeleteRequests([span] + rest);
    assert ([span] + rest)[1..] == rest;
    assert ops[1..] == DeleteRequests(rest);
  }

  /** A batch whose first deletion is aimed at another tab changes nothing on this one: the
      whole batch is rejected. */
  lemma ApplyDeletesOtherTab<T>(rows: seq<T>, tabId: int, span: RowSpan, rest: seq<RowSpan>)
    requires span.sheetId != tabId
    ensures ApplyDeletes(rows, tabId, DeleteRequests([span] + rest)) == None
  {
    assert DeleteRequests([span] + rest)[0] == DeleteRows(span);
  }

  /** The header row is read over its first 100 columns. */
  const NumberOfColumnsToCheck: int := 100
  /** Purge and key lookup read column A of the first 1000 data rows. */
  const NumberOfRowsToCheck: int := 1000

  /** `<sheet>!A1:CV1`: the header row, up to column `Name(NumberOfColumnsToCheck)`. */
  function HeaderRange(sheet: string): (r: Range)
    // row 1 of the tab, from column A to column CV, the 100th column
    ensures r.sheet == sheet && r.start == CellRef("A", 1) && r.end == Some(CellRef("CV", 1))
    ensures ColumnNameToNumber(r.start.column) == 1
    ensures ColumnNameToNumber(r.end.value.column) == NumberOfColumnsToCheck
  {
    NameExamples();
    NumberNameRoundTrip(NumberOfColumnsToCheck);
    Range(sheet, CellRef("A", 1), Some(CellRef(Name(NumberOfColumnsToCheck), 1)))
  }

  /** `<sheet>!A2:A1001`: column A of the data rows. */
  function DataColumnRange(sheet: string): (r: Range)
    // column A only, starting below the header row and spanning the first 1000 data rows
    ensures r.sheet == sheet && r.start.column == "A" && r.end.Some? && r.end.value.column == "A"
    ensures r.start.row == 2 && r.end.value.row - r.start.row + 1 == NumberOfRowsToCheck
  {
    Range(sheet, CellRef("A", 2), Some(CellRef("A", NumberOfRowsToCheck + 1)))
  }

  /** `<sheet>!A1`: where a data row is appended (the service appends it after the table). */
  function RowRange(sheet: string): (r: Range)
    // a single anchor cell at the top left of the tab, with no end
    ensures r.sheet == sheet && r.start == CellRef("A", 1) && r.end.None?
  {
    Range(sheet, CellRef("A", 1), None)
  }

  /** The errors a workflow reports: a `TypeError` for a missing option, the header-layout
      error, and the missing upsert key. */
  datatype Error =
    | MissingParameter(field: Field)
    | FirstHeaderNotDate
    | KeyNotSpecified(keyName: string)

  /** A step that cannot fail: its value and the requests it issued, in order. */
  datatype Step<T> = Step(value: T, requests: seq<Request>)

  /** A step that can fail: its outcome and the requests it issued before that outcome. */
  datatype Run<T> = Run(result: Result<T, Error>, requests: seq<Request>)
}
