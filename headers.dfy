/** The header lists a call requires, and the reconciliation of the sheet's header row with
    them (`makeSureHeadersExist`). */
module Headers {
  import opened Wrappers
  import opened Sequences
  import opened ColumnCodec
  import opened Records
  import opened SheetRequests

  const DateHeader: string := "date"
  /** A key named "undefined" never becomes a header. */
  const UndefinedKey: string := "undefined"

  /** Date-stamped append: the record's keys without "undefined" and "date", with "date"
      put in front. */
  function DateHeaders(keys: seq<string>): (r: seq<string>)
    ensures |r| >= 1 && r[0] == DateHeader && DateHeader !in r[1..]
    ensures forall h :: h in r <==> h == DateHeader || (h in keys && h != UndefinedKey)
    ensures IsSubsequence(r[1..], keys)
  {
    [DateHeader] + Except(keys, [UndefinedKey, DateHeader])
  }

  /** Key/value upsert: the record's keys without "undefined", in record order. */
  function KeyValueHeaders(keys: seq<string>): (r: seq<string>)
    ensures forall h :: h in r <==> h in keys && h != UndefinedKey
    ensures IsSubsequence(r, keys)
  {
    Except(keys, [UndefinedKey])
  }

  lemma DateHeadersDistinct(keys: seq<string>)
    requires Distinct(keys)
    ensures Distinct(DateHeaders(keys))
  {
    var rest := Except(keys, [UndefinedKey, DateHeader]);
    ExceptKeepsDistinct(keys, [UndefinedKey, DateHeader]);
    DisjointConcatDistinct([DateHeader], rest);
  }

  /** The header append: the missing names written into row 1 from the first free column
      on. */
  function HeaderAppend(sheet: string, headerRow: seq<string>, missing: seq<string>): (r: Request)
    ensures r.ValuesAppend? && r.range.sheet == sheet && r.range.end.None?
    // the write starts in row 1 at the column whose number is the header count plus one
    ensures r.range.start.row == 1 && r.range.start.column == Name(|headerRow| + 1)
    ensures ColumnNameToNumber(r.range.start.column) == |headerRow| + 1
    ensures r.row == Texts(missing)
  {
    NumberNameRoundTrip(|headerRow| + 1);
    ValuesAppend(Range(sheet, CellRef(Name(|headerRow| + 1), 1), None), Texts(missing))
  }

  /** `dataHeaders` are the required headers, `headerRow` the first row as read (the empty
      row when the read returns no values). The result is the header row to project
      records onto. */
  function MakeSureHeadersExist(sheet: string, dataHeaders: seq<string>, headerRow: seq<string>)
    : (r: Step<seq<string>>)
    // existing header positions never move, and every required header ends up present
    ensures |r.value| >= |headerRow| && r.value[..|headerRow|] == headerRow
    ensures forall h :: h in r.value <==> h in headerRow || h in dataHeaders
    // the added headers are the missing ones, in the order they were required
    ensures forall h :: h in r.value[|headerRow|..] <==> h in dataHeaders && h !in headerRow
    ensures IsSubsequence(r.value[|headerRow|..], dataHeaders)
    ensures r.value[|headerRow|..] == Except(dataHeaders, headerRow)
    // the row is read first; a write follows exactly when a header is missing
    ensures 1 <= |r.requests| <= 2 && r.requests[0] == ValuesGet(HeaderRange(sheet))
    ensures |r.requests| == 1 <==> forall h :: h in dataHeaders ==> h in headerRow
    ensures |r.requests| == 1 ==> r.value == headerRow
    ensures |r.requests| == 2 ==>
              r.requests[1] == HeaderAppend(sheet, headerRow, r.value[|headerRow|..])
  {
    var missing := Except(dataHeaders, headerRow);
    var read := [ValuesGet(HeaderRange(sheet))];
    if missing == [] then Step(headerRow, read)
    else
      assert (headerRow + missing)[|headerRow|..] == missing;
      assert missing[0] in missing;
      Step(headerRow + missing, read + [HeaderAppend(sheet, headerRow, missing)])
  }

  /** A header row without duplicates stays without duplicates. */
  lemma MakeSureHeadersExistDistinct(sheet: string, dataHeaders: seq<string>, headerRow: seq<string>)
    requires Distinct(dataHeaders) && Distinct(headerRow)
    ensures Distinct(MakeSureHeadersExist(sheet, dataHeaders, headerRow).value)
  {
    var missing := Except(dataHeaders, headerRow);
    ExceptKeepsDistinct(dataHeaders, headerRow);
    DisjointConcatDistinct(headerRow, missing);
  }

  /** Reconciling twice writes once: the second call finds every header present. */
  lemma MakeSureHeadersExistIdempotent(sheet: string, dataHeaders: seq<string>, headerRow: seq<string>)
    ensures var once := MakeSureHeadersExist(sheet, dataHeaders, headerRow).value;
      MakeSureHeadersExist(sheet, dataHeaders, once) == Step(once, [ValuesGet(HeaderRange(sheet))])
  {
  }

  /** Headers ["date", "a"] on the sheet and ["date", "a", "b", "c"] required: "b" and "c"
      are written from column C, and the header row becomes ["date", "a", "b", "c"]. */
  lemma MakeSureHeadersExistExample()
    ensures MakeSureHeadersExist("", ["date", "a", "b", "c"], ["date", "a"])
         == Step(["date", "a", "b", "c"],
                 [ValuesGet(HeaderRange("")),
                  ValuesAppend(Range("", CellRef("C", 1), None), [Text("b"), Text("c")])])
  {
    assert Except(["date", "a", "b", "c"], ["date", "a"]) == ["b", "c"];
    assert Name(3) == "C";
    assert Texts(["b", "c"]) == [Text("b"), Text("c")];
    assert ["date", "a"] + ["b", "c"] == ["date", "a", "b", "c"];
  }
}
