/** The two workflows of the TypeScript client: the date-stamped append (`appendData`) and
    the key/value upsert (`setKeyValues`). Each returns its outcome and the requests it
    issued, in order; authorisation is not modelled. */
module Index {
  import opened Wrappers
  import opened Sequences
  import opened ColumnCodec
  import opened Records
  import opened OptionsCheck
  import opened SheetRequests
  import opened SheetTabs
  import opened Headers
  import opened Purge
  import opened Upsert

  const DefaultRetention: int := 14
  const DefaultKeyName: string := "key"
  const MillisPerDay: int := 86_400_000

  /** Two readings of the clock: `stamp`, the reading formatted as `YYYY-MM-DD HH:mm` that
      dates a record before any request, and `now` (milliseconds), the reading the purge
      limit is taken from after the row is written. The model does not relate the two. */
  datatype Clock = Clock(now: int, stamp: string)

  /** What the service answers to the workflow's reads: the tabs' metadata, the id in the
      reply to `addSheet`, the header row (empty when the read has no values) and column A
      of the data rows (`None` when the read has no values). */
  datatype Answers = Answers(
    tabs: seq<TabInfo>,
    addSheetReply: Option<int>,
    headerRow: seq<string>,
    dataColumn: Option<seq<seq<string>>>)

  /** `options.sheet || ''`: the tab name, or "" (the first tab) when it is missing or
      empty. */
  function SheetName(options: Options): (name: string)
    ensures Present(options.sheet) ==> name == options.sheet.value
    ensures !Present(options.sheet) ==> name == ""
  {
    if Present(options.sheet) then options.sheet.value else ""
  }

  /** `options.retention || 14`: a retention of 0 days also becomes 14. */
  function Retention(options: Options): (days: int)
    ensures options.retention.Some? && options.retention.value != 0 ==> days == options.retention.value
    ensures options.retention.None? || options.retention.value == 0 ==> days == DefaultRetention
  {
    if options.retention.Some? && options.retention.value != 0 then options.retention.value
    else DefaultRetention
  }

  /** `options.keyName || 'key'`. */
  function KeyName(options: Options): (name: string)
    ensures Present(options.keyName) ==> name == options.keyName.value
    ensures !Present(options.keyName) ==> name == DefaultKeyName
  {
    if Present(options.keyName) then options.keyName.value else DefaultKeyName
  }

  /** `data[key] = v`: an existing key keeps its place, a new key goes last. */
  function SetField(data: Record, key: string, v: Value): (r: Record)
    ensures Get(r, key) == v
    ensures forall k :: k != key ==> Get(r, k) == Get(data, k)
    ensures key in Keys(data) ==> Keys(r) == Keys(data)
    ensures key !in Keys(data) ==> Keys(r) == Keys(data) + [key]
  {
    if data == [] then [(key, v)]
    else if data[0].0 == key then [(key, v)] + data[1..]
    else [data[0]] + SetField(data[1..], key, v)
  }

  /** `data.date = data.date || stamp`. */
  function WithDate(data: Record, stamp: string): (r: Record)
    ensures Truthy(Get(data, DateHeader)) ==> r == data
    ensures !Truthy(Get(data, DateHeader)) ==> Get(r, DateHeader) == Text(stamp)
    ensures forall k :: k != DateHeader ==> Get(r, k) == Get(data, k)
  {
    if Truthy(Get(data, DateHeader)) then data else SetField(data, DateHeader, Text(stamp))
  }

  /** `appendData`. `parseDate` stands for the date parsing the purge uses. */
  function AppendData(data: Record, options: Options, clock: Clock,
                      parseDate: string -> Option<int>, answers: Answers): (r: Run<()>)
    // a missing option fails before any request is sent
    ensures ValidateOptions(options).Missing? ==>
              r == Run(Err(MissingParameter(ValidateOptions(options).field)), [])
    ensures r.result.Err? ==> r.result.error.MissingParameter? || r.result.error == FirstHeaderNotDate
  {
    var v := ValidateOptions(options);
    if v.Missing? then Run(Err(MissingParameter(v.field)), [])
    else AppendValid(data, options, clock, parseDate, answers)
  }

  /** `appendData` once the options are known to be valid. */
  function AppendValid(data: Record, options: Options, clock: Clock,
                       parseDate: string -> Option<int>, answers: Answers): (r: Run<()>)
    ensures r.result.Err? ==> r.result.error == FirstHeaderNotDate
  {
    var sheet := SheetName(options);
    var dated := WithDate(data, clock.stamp);
    var tab := MakeSureSheetExists(sheet, answers.tabs, answers.addSheetReply);
    var headers := MakeSureHeadersExist(sheet, DateHeaders(Keys(dated)), answers.headerRow);
    AppendRow(sheet, tab, headers, dated, answers.dataColumn, parseDate,
              clock.now - Retention(options) * MillisPerDay)
  }

  /** The part of `appendData` after the tab and the header row have been made sure of:
      the check of the first header, the row append and the purge of rows older than
      `limit`. */
  function AppendRow(sheet: string, tab: Step<int>, headers: Step<seq<string>>, dated: Record,
                     dataColumn: Option<seq<seq<string>>>, parseDate: string -> Option<int>,
                     limit: int): (r: Run<()>)
    ensures r.result.Ok? <==> |headers.value| > 0 && headers.value[0] == DateHeader
    ensures r.result.Err? ==> r == Run(Err(FirstHeaderNotDate), tab.requests + headers.requests)
    ensures r.result.Ok? ==>
              r.requests == tab.requests + headers.requests +
                            [ValuesAppend(RowRange(sheet), ValueArray(dated, headers.value))] +
                            PurgeRequests(sheet, tab.value, dataColumn, parseDate, limit)
  {
    var before := tab.requests + headers.requests;
    if |headers.value| == 0 || headers.value[0] != DateHeader then
      Run(Err(FirstHeaderNotDate), before)
    else
      Run(Ok(()), before + [ValuesAppend(RowRange(sheet), ValueArray(dated, headers.value))] +
                  PurgeRequests(sheet, tab.value, dataColumn, parseDate, limit))
  }

  /** The header row `appendData` projects the record onto. */
  function AppendHeaders(data: Record, options: Options, clock: Clock, answers: Answers): seq<string> {
    MakeSureHeadersExist(SheetName(options), DateHeaders(Keys(WithDate(data, clock.stamp))),
                         answers.headerRow).value
  }

  /** With valid options, the append is refused exactly when the sheet already has a first
      header other than "date"; an empty header row is filled starting with "date". */
  lemma AppendDataRejectsIff(data: Record, options: Options, clock: Clock,
                             parseDate: string -> Option<int>, answers: Answers)
    requires ValidateOptions(options).Valid?
    ensures AppendData(data, options, clock, parseDate, answers).result == Err(FirstHeaderNotDate) <==>
              answers.headerRow != [] && answers.headerRow[0] != DateHeader
  {
    var headers := AppendHeaders(data, options, clock, answers);
    if answers.headerRow != [] {
      assert headers[..|answers.headerRow|] == answers.headerRow;
      assert headers[0] == answers.headerRow[0];
    }
  }

  /** Every key of the record but "undefined" is a header after the reconciliation. */
  lemma AppendHeadersCoverKeys(data: Record, options: Options, clock: Clock, answers: Answers)
    ensures forall k :: k in Keys(data) && k != UndefinedKey ==>
              k in AppendHeaders(data, options, clock, answers)
  {
    var dated := WithDate(data, clock.stamp);
    forall k | k in Keys(data) && k != UndefinedKey
      ensures k in DateHeaders(Keys(dated))
    {
      if k != DateHeader {
        if !(DateHeader in Keys(data) || Truthy(Get(data, DateHeader))) {
          assert Keys(dated) == Keys(data) + [DateHeader];
        }
        assert k in Keys(dated);
      }
    }
  }

  /** The row `appendData` writes starts with the record's date, or with the clock's stamp
      when the record had none. */
  lemma DatedRowStartsWithDate(data: Record, stamp: string, headers: seq<string>)
    requires |headers| > 0 && headers[0] == DateHeader
    ensures ValueArray(WithDate(data, stamp), headers)[0] ==
              (if Truthy(Get(data, DateHeader)) then Get(data, DateHeader) else Text(stamp))
  {
  }

  /** A successful append writes one row, projected onto a header row that starts with
      "date" and holds every key of the record: its first cell is the record's date, or the
      clock's stamp when the record had none. */
  lemma AppendDataWritesDatedRow(data: Record, options: Options, clock: Clock,
                                 parseDate: string -> Option<int>, answers: Answers)
    requires AppendData(data, options, clock, parseDate, answers).result.Ok?
    ensures var headers := AppendHeaders(data, options, clock, answers);
      var row := ValueArray(WithDate(data, clock.stamp), headers);
      |headers| > 0 && headers[0] == DateHeader &&
      (forall k :: k in Keys(data) && k != UndefinedKey ==> k in headers) &&
      ValuesAppend(RowRange(SheetName(options)), row) in AppendData(data, options, clock, parseDate, answers).requests &&
      row[0] == (if Truthy(Get(data, DateHeader)) then Get(data, DateHeader) else Text(clock.stamp))
  {
    var sheet := SheetName(options);
    var dated := WithDate(data, clock.stamp);
    var tab := MakeSureSheetExists(sheet, answers.tabs, answers.addSheetReply);
    var headers := MakeSureHeadersExist(sheet, DateHeaders(Keys(dated)), answers.headerRow);
    var limit := clock.now - Retention(options) * MillisPerDay;
    assert AppendData(data, options, clock, parseDate, answers) == AppendValid(data, options, clock, parseDate, answers);
    assert headers.value == AppendHeaders(data, options, clock, answers);
    var before := tab.requests + headers.requests;
    var r := AppendRow(sheet, tab, headers, dated, answers.dataColumn, parseDate, limit);
    assert r.requests[|before|] == ValuesAppend(RowRange(sheet), ValueArray(dated, headers.value));
    AppendHeadersCoverKeys(data, options, clock, answers);
    DatedRowStartsWithDate(data, clock.stamp, headers.value);
  }

  /** The record of the example below has no date, so it gains the stamp as its last field. */
  lemma RejectedExampleDated()
    ensures WithDate([("a", Text("1"))], "2026-01-01 00:00")
         == [("a", Text("1")), ("date", Text("2026-01-01 00:00"))]
  {
    var data := [("a", Text("1"))];
    assert Keys(data) == ["a"];
    assert Get(data, DateHeader) == Undefined;
    assert SetField(data[1..], DateHeader, Text("2026-01-01 00:00"))
        == [("date", Text("2026-01-01 00:00"))];
  }

  /** The stamped record of the example below requires the headers ["date", "a"]. */
  lemma RejectedExampleRequired()
    ensures DateHeaders(Keys(WithDate([("a", Text("1"))], "2026-01-01 00:00"))) == ["date", "a"]
  {
    RejectedExampleDated();
    RejectedExampleKeys();
    RejectedExampleFilter();
  }

  /** The keys of the stamped record. */
  lemma RejectedExampleKeys()
    ensures Keys([("a", Text("1")), ("date", Text("2026-01-01 00:00"))]) == ["a", "date"]
  {
  }

  /** The record keys left once "undefined" and "date" are dropped. */
  lemma RejectedExampleFilter()
    ensures Except(["a", "date"], [UndefinedKey, DateHeader]) == ["a"]
  {
    var drop := [UndefinedKey, DateHeader];
    var keys: seq<string> := ["a", "date"];
    assert "a" != UndefinedKey && "a" != DateHeader;
    assert keys[1..] == [DateHeader];
    assert Except(keys[1..], drop) == [];
  }

  /** The header step of the example below: the header row ["x"] gains "date" and "a",
      written from column B. */
  lemma RejectedExampleHeaders()
    ensures MakeSureHeadersExist("", ["date", "a"], ["x"])
      == Step(["x", "date", "a"],
              [ValuesGet(HeaderRange("")),
               ValuesAppend(Range("", CellRef("B", 1), None), [Text("date"), Text("a")])])
  {
    assert Except(["date", "a"], ["x"]) == ["date", "a"];
    assert ["x"] + ["date", "a"] == ["x", "date", "a"];
    assert Name(2) == "B";
    assert Texts(["date", "a"]) == [Text("date"), Text("a")];
  }

  /** On a sheet whose first header is not "date", the append fails after the requests of
      the tab step and of the header reconciliation, whatever these wrote. */
  lemma AppendRefusalRequests(data: Record, options: Options, clock: Clock,
                              parseDate: string -> Option<int>, answers: Answers)
    requires ValidateOptions(options).Valid?
    requires answers.headerRow != [] && answers.headerRow[0] != DateHeader
    ensures AppendData(data, options, clock, parseDate, answers)
         == Run(Err(FirstHeaderNotDate),
                MakeSureSheetExists(SheetName(options), answers.tabs, answers.addSheetReply).requests +
                MakeSureHeadersExist(SheetName(options), DateHeaders(Keys(WithDate(data, clock.stamp))),
                                     answers.headerRow).requests)
  {
    AppendDataRejectsIff(data, options, clock, parseDate, answers);
    assert AppendData(data, options, clock, parseDate, answers)
        == AppendValid(data, options, clock, parseDate, answers);
  }

  /** As written, the check that the first header is "date" runs after the header row was
      extended: with the header row ["x"] the missing headers are written from column B, and
      only then does the append fail. */
  lemma AppendDataWritesHeadersBeforeRejecting()
    ensures var options := Options(Some("e"), Some("k"), Some("id"), None, None, None);
      var r := AppendData([("a", Text("1"))], options, Clock(0, "2026-01-01 00:00"),
                          ExampleParse, Answers([], None, ["x"], None));
      r.result == Err(FirstHeaderNotDate) &&
      r.requests == [ValuesGet(HeaderRange("")),
                     ValuesAppend(Range("", CellRef("B", 1), None), [Text("date"), Text("a")])]
  {
    var options := Options(Some("e"), Some("k"), Some("id"), None, None, None);
    var data := [("a", Text("1"))];
    assert ValidateOptions(options).Valid?;
    assert SheetName(options) == "";
    RejectedExampleRequired();
    RejectedExampleHeaders();
    AppendRefusalRequests(data, options, Clock(0, "2026-01-01 00:00"), ExampleParse,
                          Answers([], None, ["x"], None));
  }

  /** The requests for the tab never write a row: at most a metadata read and the creation
      of the tab. */
  lemma TabRequestsWriteNothing(sheet: string, tabs: seq<TabInfo>, addSheetReply: Option<int>)
    ensures forall q :: q in MakeSureSheetExists(sheet, tabs, addSheetReply).requests ==>
              q == GetSpreadsheet || q == BatchUpdate([AddSheet(sheet)])
  {
    if sheet != "" && FindTab(tabs, sheet) >= 0 {
      assert MakeSureSheetExists(sheet, tabs, addSheetReply).requests == [GetSpreadsheet];
    }
  }

  /** `appendData` with the first-header check moved ahead of the header write: the header
      row as read is checked, and a sheet whose first header is not "date" is refused after
      the header read and before anything is written. */
  function AppendDataChecked(data: Record, options: Options, clock: Clock,
                             parseDate: string -> Option<int>, answers: Answers): (r: Run<()>)
    ensures ValidateOptions(options).Valid? ==>
              (r.result == Err(FirstHeaderNotDate) <==>
                 answers.headerRow != [] && answers.headerRow[0] != DateHeader)
  {
    var v := ValidateOptions(options);
    if v.Missing? then Run(Err(MissingParameter(v.field)), [])
    else if answers.headerRow != [] && answers.headerRow[0] != DateHeader then
      Refusal(SheetName(options), answers)
    else
      var r := AppendValid(data, options, clock, parseDate, answers);
      AppendDataRejectsIff(data, options, clock, parseDate, answers);
      r
  }

  /** The corrected append decides exactly as `appendData` does and issues the same requests
      when it succeeds; when it refuses a sheet for its first header, it has written neither
      a header nor a row. */
  lemma AppendDataCheckedRefusesBeforeWriting(data: Record, options: Options, clock: Clock,
                                              parseDate: string -> Option<int>, answers: Answers)
    ensures var checked := AppendDataChecked(data, options, clock, parseDate, answers);
      var asWritten := AppendData(data, options, clock, parseDate, answers);
      checked.result == asWritten.result &&
      (checked.result.Ok? ==> checked.requests == asWritten.requests) &&
      (checked.result == Err(FirstHeaderNotDate) ==>
         forall q :: q in checked.requests ==> !q.ValuesAppend? && !q.ValuesUpdate?)
  {
    if ValidateOptions(options).Valid? {
      if answers.headerRow != [] && answers.headerRow[0] != DateHeader {
        CheckedRefusal(data, options, clock, parseDate, answers);
      } else {
        assert AppendDataChecked(data, options, clock, parseDate, answers)
            == AppendValid(data, options, clock, parseDate, answers)
            == AppendData(data, options, clock, parseDate, answers);
      }
    }
  }

  /** The refusal of the corrected append: the tab check and the header read, then no write. */
  function Refusal(sheet: string, answers: Answers): (r: Run<()>)
    ensures r.result == Err(FirstHeaderNotDate)
    ensures forall q :: q in r.requests ==> !q.ValuesAppend? && !q.ValuesUpdate?
    ensures |r.requests| >= 1 && r.requests[|r.requests| - 1] == ValuesGet(HeaderRange(sheet))
  {
    TabRequestsWriteNothing(sheet, answers.tabs, answers.addSheetReply);
    Run(Err(FirstHeaderNotDate),
        MakeSureSheetExists(sheet, answers.tabs, answers.addSheetReply).requests +
        [ValuesGet(HeaderRange(sheet))])
  }

  lemma CheckedRefusal(data: Record, options: Options, clock: Clock,
                       parseDate: string -> Option<int>, answers: Answers)
    requires ValidateOptions(options).Valid?
    requires answers.headerRow != [] && answers.headerRow[0] != DateHeader
    ensures AppendData(data, options, clock, parseDate, answers).result == Err(FirstHeaderNotDate)
    ensures var checked := AppendDataChecked(data, options, clock, parseDate, answers);
      checked.result == Err(FirstHeaderNotDate) &&
      forall q :: q in checked.requests ==> !q.ValuesAppend? && !q.ValuesUpdate?
  {
    AppendDataRejectsIff(data, options, clock, parseDate, answers);
    assert AppendDataChecked(data, options, clock, parseDate, answers)
        == Refusal(SheetName(options), answers);
  }

  /** `setKeyValues`. */
  function SetKeyValues(data: Record, options: Options, answers: Answers): (r: Run<()>)
    // a missing option fails before any request is sent
    ensures ValidateOptions(options).Missing? ==>
              r == Run(Err(MissingParameter(ValidateOptions(options).field)), [])
    // a falsy key fails, but only after the tab and the header row have been made sure of
    ensures ValidateOptions(options).Valid? ==>
              (r.result.Err? <==> !Truthy(Get(data, KeyName(options)))) &&
              (r.result.Err? ==> r.result.error == KeyNotSpecified(KeyName(options)))
    ensures ValidateOptions(options).Valid? && r.result.Err? ==>
              r.requests == MakeSureSheetExists(SheetName(options), answers.tabs, answers.addSheetReply).requests +
                            MakeSureHeadersExist(SheetName(options), KeyValueHeaders(Keys(data)), answers.headerRow).requests
  {
    match ValidateOptions(options)
    case Missing(field) => Run(Err(MissingParameter(field)), [])
    case Valid =>
      var sheet := SheetName(options);
      var tab := MakeSureSheetExists(sheet, answers.tabs, answers.addSheetReply);
      var headers := MakeSureHeadersExist(sheet, KeyValueHeaders(Keys(data)), answers.headerRow);
      UpsertRow(sheet, tab.requests + headers.requests, data, headers.value, KeyName(options),
                answers.dataColumn)
  }

  /** As written, the key is checked only after the tab and the header row have been made
      sure of: on a spreadsheet without the tab "T", a record without a key first gets the
      tab created and its header written, and only then fails. */
  lemma SetKeyValuesWritesBeforeKeyCheck()
    ensures var options := Options(Some("e"), Some("k"), Some("id"), Some("T"), None, None);
      var r := SetKeyValues([("a", Text("1"))], options, Answers([], None, [], None));
      r.result == Err(KeyNotSpecified("key")) &&
      r.requests == [GetSpreadsheet, BatchUpdate([AddSheet("T")]), ValuesGet(HeaderRange("T")),
                     ValuesAppend(Range("T", CellRef("A", 1), None), [Text("a")])]
  {
    var options := Options(Some("e"), Some("k"), Some("id"), Some("T"), None, None);
    var data := [("a", Text("1"))];
    assert ValidateOptions(options).Valid?;
    assert SheetName(options) == "T" && KeyName(options) == "key";
    assert Get(data, "key") == Undefined;
    assert Keys(data) == ["a"];
    assert Except(["a"], [UndefinedKey]) == ["a"];
    assert Except(["a"], []) == ["a"];
    assert Name(1) == "A";
    assert Texts(["a"]) == [Text("a")];
  }

  /** `setKeyValues` with the key check moved ahead of every request: a record without a
      key is refused as a configuration error before the spreadsheet is touched. */
  function SetKeyValuesChecked(data: Record, options: Options, answers: Answers): (r: Run<()>)
    ensures ValidateOptions(options).Valid? ==>
              (r.result.Err? <==> !Truthy(Get(data, KeyName(options))))
    ensures ValidateOptions(options).Valid? && r.result.Err? ==>
              r == Run(Err(KeyNotSpecified(KeyName(options))), [])
  {
    var v := ValidateOptions(options);
    if v.Missing? then Run(Err(MissingParameter(v.field)), [])
    else if !Truthy(Get(data, KeyName(options))) then Run(Err(KeyNotSpecified(KeyName(options))), [])
    else SetKeyValues(data, options, answers)
  }

  /** The corrected upsert has the outcome of the as-written one and the same requests when
      it succeeds; when it fails, it has issued no request at all. */
  lemma SetKeyValuesCheckedFailsBeforeRequests(data: Record, options: Options, answers: Answers)
    ensures var checked := SetKeyValuesChecked(data, options, answers);
      var asWritten := SetKeyValues(data, options, answers);
      checked.result == asWritten.result &&
      (checked.result.Ok? ==> checked.requests == asWritten.requests) &&
      (checked.result.Err? ==> checked.requests == [])
  {
  }

  /** The part of `setKeyValues` after the tab and the header row have been made sure of:
      update the row holding the key, or append a new one. */
  function UpsertRow(sheet: string, earlier: seq<Request>, data: Record, headers: seq<string>,
                     keyName: string, dataColumn: Option<seq<seq<string>>>): (r: Run<()>)
    ensures r.result.Err? <==> !Truthy(Get(data, keyName))
    ensures r.result.Err? ==> r == Run(Err(KeyNotSpecified(keyName)), earlier)
  {
    var upsert := UpdateRowIfExists(sheet, data, headers, keyName, dataColumn);
    match upsert.result
    case Err(e) => Run(Err(e), earlier + upsert.requests)
    case Ok(updated) =>
      if updated then Run(Ok(()), earlier + upsert.requests)
      else Run(Ok(()), earlier + upsert.requests +
                       [ValuesAppend(RowRange(sheet), ValueArray(data, headers))])
  }

  /** The single row write an upsert ends with: the update of the first row read that
      holds the key, or else the append of a new row. */
  function UpsertWrite(sheet: string, row: seq<Value>, key: Value,
                       dataColumn: Option<seq<seq<string>>>): (r: Request)
    // the row is overwritten exactly when some row read holds the key, and appended otherwise
    ensures r.ValuesUpdate? <==>
              dataColumn.Some? && exists i :: 0 <= i < |dataColumn.value| && Matches(dataColumn.value[i], key)
    ensures r.ValuesAppend? ==> r.range == RowRange(sheet)
    ensures r.ValuesUpdate? ==> r.range.start.column == "A" && r.range.start.row >= 2
    ensures (r.ValuesUpdate? || r.ValuesAppend?) && r.row == row
  {
    if dataColumn.Some? && FindKeyRow(dataColumn.value, key) >= 0 then
      RowUpdate(sheet, FindKeyRow(dataColumn.value, key), row)
    else ValuesAppend(RowRange(sheet), row)
  }

  /** After the tab and header requests, a successful upsert reads column A once and then
      writes exactly one row: the record projected onto the headers, over the first row
      holding the key, or appended when no row holds it. */
  lemma UpsertRowWritesOneRow(sheet: string, earlier: seq<Request>, data: Record,
                              headers: seq<string>, keyName: string,
                              dataColumn: Option<seq<seq<string>>>)
    requires Truthy(Get(data, keyName))
    ensures UpsertRow(sheet, earlier, data, headers, keyName, dataColumn)
         == Run(Ok(()), earlier + [ValuesGet(DataColumnRange(sheet)),
                                   UpsertWrite(sheet, ValueArray(data, headers),
                                               Get(data, keyName), dataColumn)])
  {
    var key := Get(data, keyName);
    if dataColumn.Some? {
      var i := FindKeyRow(dataColumn.value, key);
      if i >= 0 {
        assert Matches(dataColumn.value[i], key);
      }
    }
  }

  /** The header row `setKeyValues` projects the record onto. */
  function KeyValueRowHeaders(data: Record, options: Options, answers: Answers): seq<string> {
    MakeSureHeadersExist(SheetName(options), KeyValueHeaders(Keys(data)), answers.headerRow).value
  }

  /** A successful `setKeyValues` issues the tab and header requests, reads column A, and
      ends with exactly one row write of the record projected onto a header row that holds
      every key of the record. */
  lemma SetKeyValuesWritesOneRow(data: Record, options: Options, answers: Answers)
    requires SetKeyValues(data, options, answers).result.Ok?
    ensures var r := SetKeyValues(data, options, answers);
      var headers := KeyValueRowHeaders(data, options, answers);
      var sheet := SheetName(options);
      (forall k :: k in Keys(data) && k != UndefinedKey ==> k in headers) &&
      |r.requests| >= 2 && r.requests[|r.requests| - 2] == ValuesGet(DataColumnRange(sheet)) &&
      r.requests[|r.requests| - 1] ==
        UpsertWrite(sheet, ValueArray(data, headers), Get(data, KeyName(options)), answers.dataColumn)
  {
    var sheet := SheetName(options);
    var tab := MakeSureSheetExists(sheet, answers.tabs, answers.addSheetReply);
    var headers := MakeSureHeadersExist(sheet, KeyValueHeaders(Keys(data)), answers.headerRow);
    assert SetKeyValues(data, options, answers)
        == UpsertRow(sheet, tab.requests + headers.requests, data, headers.value, KeyName(options),
                     answers.dataColumn);
    UpsertRowWritesOneRow(sheet, tab.requests + headers.requests, data, headers.value,
                          KeyName(options), answers.dataColumn);
  }
}
