/** Upsert by key (`updateRowIfExists`): the first data row whose column-A cell is the
    record's key is overwritten with the projected record. */
module Upsert {
  import opened Wrappers
  import opened Records
  import opened SheetRequests

  /** `value === key` for the row's first cell `value`: strict equality, so only a string
      key equal to the cell matches (a number key never equals a cell read as text), and
      an empty row matches nothing. */
  predicate Matches(row: seq<string>, key: Value): (b: bool)
    ensures b ==> row != [] && key.Text? && key.s == row[0]
    ensures row != [] && key == Text(row[0]) ==> b
    // a number key or a missing key never equals a cell
    ensures !key.Text? ==> !b
  {
    row != [] && key == Text(row[0])
  }

  /** `values.findIndex(...)`: the first matching row, -1 when none matches. */
  function FindKeyRow(column: seq<seq<string>>, key: Value): (index: int)
    ensures -1 <= index < |column|
    ensures index == -1 <==> forall i :: 0 <= i < |column| ==> !Matches(column[i], key)
    ensures index >= 0 ==> Matches(column[index], key) &&
                           forall i :: 0 <= i < index ==> !Matches(column[i], key)
  {
    if column == [] then -1
    else if Matches(column[0], key) then 0
    else
      var j := FindKeyRow(column[1..], key);
      if j == -1 then -1 else j + 1
  }

  /** The row update for the row read at position `index`: sheet row `index + 2`. */
  function RowUpdate(sheet: string, index: int, row: seq<Value>): (r: Request)
    requires index >= 0
    // the header row is sheet row 1, so the row read at `index` is never it
    ensures r.ValuesUpdate? && r.range.sheet == sheet && r.range.end.None?
    ensures r.range.start.column == "A" && r.range.start.row == index + 2 >= 2
    ensures r.row == row
  {
    ValuesUpdate(Range(sheet, CellRef("A", index + 2), None), row)
  }

  /** `keyName` is the key option after defaulting, `read` what the read of column A
      answered (`None` when the answer carries no values). The result says whether a row
      was updated. */
  function UpdateRowIfExists(sheet: string, data: Record, sheetHeaders: seq<string>,
                             keyName: string, read: Option<seq<seq<string>>>): (r: Run<bool>)
    // a falsy key is an error, raised before anything is read
    ensures r.result.Err? <==> !Truthy(Get(data, keyName))
    ensures r.result.Err? ==> r.result.error == KeyNotSpecified(keyName) && r.requests == []
    ensures r.result.Ok? ==> 1 <= |r.requests| <= 2 && r.requests[0] == ValuesGet(DataColumnRange(sheet))
    // a row is updated exactly when some row read holds the key
    ensures r.result == Ok(true) <==>
              Truthy(Get(data, keyName)) && read.Some? &&
              exists i :: 0 <= i < |read.value| && Matches(read.value[i], Get(data, keyName))
    ensures r.result == Ok(false) ==> |r.requests| == 1
    // the row updated is the first that holds the key, with the record projected on the headers
    ensures r.result == Ok(true) ==>
              forall i :: 0 <= i < |read.value| && Matches(read.value[i], Get(data, keyName)) &&
                          (forall j :: 0 <= j < i ==> !Matches(read.value[j], Get(data, keyName))) ==>
                r.requests == [ValuesGet(DataColumnRange(sheet)),
                               RowUpdate(sheet, i, ValueArray(data, sheetHeaders))]
  {
    var key := Get(data, keyName);
    if !Truthy(key) then Run(Err(KeyNotSpecified(keyName)), [])
    else
      var get := [ValuesGet(DataColumnRange(sheet))];
      if read.None? then Run(Ok(false), get)
      else
        var index := FindKeyRow(read.value, key);
        if index == -1 then Run(Ok(false), get)
        else Run(Ok(true), get + [RowUpdate(sheet, index, ValueArray(data, sheetHeaders))])
  }

  /** Two rows hold the key: the first of them is updated (sheet row 3 here), the later one
      is left alone. A record whose key is a number updates nothing. */
  lemma UpdateRowIfExistsExample()
    ensures var data := [("key", Text("k1")), ("v", Number(5))];
      UpdateRowIfExists("", data, ["key", "v"], "key", Some([["k0"], ["k1"], [], ["k1"]]))
      == Run(Ok(true), [ValuesGet(DataColumnRange("")),
                        ValuesUpdate(Range("", CellRef("A", 3), None), [Text("k1"), Number(5)])])
    ensures UpdateRowIfExists("", [("key", Number(1))], ["key"], "key", Some([["1"]]))
         == Run(Ok(false), [ValuesGet(DataColumnRange(""))])
  {
    var data := [("key", Text("k1")), ("v", Number(5))];
    assert Matches(["k1"], Text("k1"));
    assert ValueArray(data, ["key", "v"]) == [Text("k1"), Number(5)];
  }
}
