/** The JavaScript build of the date-stamped append (`appendData` in the lib directory). It
    differs from the TypeScript workflow in where the first header is checked: inside the
    header reconciliation, after the read and before the header write, and only when a
    header is missing. */
module LibIndex {
  import opened Wrappers
  import opened Sequences
  import opened Records
  import opened OptionsCheck
  import opened SheetRequests
  import opened SheetTabs
  import opened Headers
  import opened Purge
  import Index

  /** `makeSureHeadersExist` of the lib build: the required headers are derived from the
      record itself, and a header row whose first cell is not "date" is refused when it
      would have to be extended. */
  function MakeSureHeadersExist(sheet: string, data: Record, headerRow: seq<string>)
    : (r: Run<seq<string>>)
    // refused exactly when a header is missing and the row has a first header other than "date"
    ensures r.result.Err? <==>
              (exists h :: h in DateHeaders(Keys(data)) && h !in headerRow) &&
              headerRow != [] && headerRow[0] != DateHeader
    // a refusal follows the read and writes nothing
    ensures r.result.Err? ==>
              r.result.error == FirstHeaderNotDate && r.requests == [ValuesGet(HeaderRange(sheet))]
    // otherwise it reconciles exactly as the TypeScript build does
    ensures r.result.Ok? ==>
              Step(r.result.value, r.requests)
              == Headers.MakeSureHeadersExist(sheet, DateHeaders(Keys(data)), headerRow)
  {
    var required := DateHeaders(Keys(data));
    var missing := Except(required, headerRow);
    var read := [ValuesGet(HeaderRange(sheet))];
    if missing == [] then Run(Ok(headerRow), read)
    else if headerRow != [] && headerRow[0] != DateHeader then
      assert missing[0] in missing;
      Run(Err(FirstHeaderNotDate), read)
    else Run(Ok(headerRow + missing), read + [HeaderAppend(sheet, headerRow, missing)])
  }

  /** `appendData` of the lib build. */
  function AppendData(data: Record, options: Options, clock: Index.Clock,
                      parseDate: string -> Option<int>, answers: Index.Answers): (r: Run<()>)
    // a missing option fails before any request is sent
    ensures ValidateOptions(options).Missing? ==>
              r == Run(Err(MissingParameter(ValidateOptions(options).field)), [])
  {
    var v := ValidateOptions(options);
    if v.Missing? then Run(Err(MissingParameter(v.field)), [])
    else AppendValid(data, options, clock, parseDate, answers)
  }

  /** `appendData` of the lib build once the options are known to be valid. */
  function AppendValid(data: Record, options: Options, clock: Index.Clock,
                       parseDate: string -> Option<int>, answers: Index.Answers): (r: Run<()>)
    ensures r.result.Err? ==> r.result.error == FirstHeaderNotDate
  {
    var sheet := Index.SheetName(options);
    var dated := Index.WithDate(data, clock.stamp);
    var tab := MakeSureSheetExists(sheet, answers.tabs, answers.addSheetReply);
    var headers := MakeSureHeadersExist(sheet, dated, answers.headerRow);
    match headers.result
    case Err(e) => Run(Err(e), tab.requests + headers.requests)
    case Ok(h) =>
      var limit := clock.now - Index.Retention(options) * Index.MillisPerDay;
      Run(Ok(()), tab.requests + headers.requests + [ValuesAppend(RowRange(sheet), ValueArray(dated, h))] +
                  PurgeRequests(sheet, tab.value, answers.dataColumn, parseDate, limit))
  }

  /** A refusal for the first header writes neither a header nor a row. */
  lemma RefusalWritesNothing(data: Record, options: Options, clock: Index.Clock,
                             parseDate: string -> Option<int>, answers: Index.Answers)
    requires AppendData(data, options, clock, parseDate, answers).result == Err(FirstHeaderNotDate)
    ensures forall q :: q in AppendData(data, options, clock, parseDate, answers).requests ==>
              !q.ValuesAppend? && !q.ValuesUpdate?
  {
    assert ValidateOptions(options).Valid?;
    Index.TabRequestsWriteNothing(Index.SheetName(options), answers.tabs, answers.addSheetReply);
  }

  /** On a sheet whose header row is empty or starts with "date", both builds issue the
      same requests with the same outcome. */
  lemma AgreesWithTypeScript(data: Record, options: Options, clock: Index.Clock,
                             parseDate: string -> Option<int>, answers: Index.Answers)
    requires answers.headerRow == [] || answers.headerRow[0] == DateHeader
    ensures AppendData(data, options, clock, parseDate, answers)
         == Index.AppendData(data, options, clock, parseDate, answers)
  {
    if ValidateOptions(options).Valid? {
      var sheet := Index.SheetName(options);
      var dated := Index.WithDate(data, clock.stamp);
      var src := Headers.MakeSureHeadersExist(sheet, DateHeaders(Keys(dated)), answers.headerRow);
      var lib := MakeSureHeadersExist(sheet, dated, answers.headerRow);
      assert lib.result.Ok?;
      if answers.headerRow != [] {
        assert src.value[..|answers.headerRow|] == answers.headerRow;
      }
      assert src.value[0] == DateHeader;
    }
  }

  /** The builds part on a complete header row that does not start with "date": the lib
      build appends the row, the TypeScript build refuses. */
  lemma CompleteHeadersOutOfOrder()
    ensures var options := Options(Some("e"), Some("k"), Some("id"), None, None, None);
      var data := [("date", Text("2026-01-01 00:00")), ("a", Text("1"))];
      var clock := Index.Clock(0, "2026-01-01 00:00");
      var answers := Index.Answers([], None, ["a", "date"], None);
      AppendData(data, options, clock, ExampleParse, answers).result == Ok(()) &&
      Index.AppendData(data, options, clock, ExampleParse, answers).result == Err(FirstHeaderNotDate)
  {
    var data := [("date", Text("2026-01-01 00:00")), ("a", Text("1"))];
    assert Index.WithDate(data, "2026-01-01 00:00") == data;
    assert Keys(data) == ["date", "a"];
    assert Except(["date", "a"], [UndefinedKey, DateHeader]) == ["a"];
    assert DateHeaders(Keys(data)) == ["date", "a"];
    assert Except(["date", "a"], ["a", "date"]) == [];
  }
}
