/** Resolving the numeric id of the target tab (`makeSureSheetExists`), creating the tab
    when no tab has the requested title. */
module SheetTabs {
  import opened Wrappers
  import opened SheetRequests

  /** One tab of the spreadsheet's metadata: its title and its id, which the metadata may
      leave out. */
  datatype TabInfo = TabInfo(title: string, sheetId: Option<int>)

  /** `tabs.find((s) => s.properties.title === title)`, as an index; -1 when no tab has
      that title. */
  function FindTab(tabs: seq<TabInfo>, title: string): (i: int)
    ensures -1 <= i < |tabs|
    ensures i == -1 <==> forall k :: 0 <= k < |tabs| ==> tabs[k].title != title
    ensures i >= 0 ==> tabs[i].title == title && forall k :: 0 <= k < i ==> tabs[k].title != title
  {
    if tabs == [] then -1
    else if tabs[0].title == title then 0
    else
      var j := FindTab(tabs[1..], title);
      if j == -1 then -1 else j + 1
  }

  /** `sheet` is the tab name after defaulting ("" for the first tab), `tabs` what
      `spreadsheets.get` answers, `addSheetReply` the id in the reply to `addSheet`. */
  function MakeSureSheetExists(sheet: string, tabs: seq<TabInfo>, addSheetReply: Option<int>)
    : (r: Step<int>)
    // no tab name: tab id 0, and no metadata lookup
    ensures sheet == "" ==> r.value == 0 && r.requests == []
    // a tab with that title exists: the first one's id, after one lookup, nothing created
    ensures forall k :: 0 <= k < |tabs| && sheet != "" && tabs[k].title == sheet
                        && (forall j :: 0 <= j < k ==> tabs[j].title != sheet) ==>
                          r.value == tabs[k].sheetId.GetOr(0) && r.requests == [GetSpreadsheet]
    // no such tab: it is created, and the id is the one the service assigned
    ensures sheet != "" && (forall k :: 0 <= k < |tabs| ==> tabs[k].title != sheet) ==>
              r.value == addSheetReply.GetOr(0) &&
              r.requests == [GetSpreadsheet, BatchUpdate([AddSheet(sheet)])]
  {
    if sheet == "" then Step(0, [])
    else
      var i := FindTab(tabs, sheet);
      if i >= 0 then Step(tabs[i].sheetId.GetOr(0), [GetSpreadsheet])
      else Step(addSheetReply.GetOr(0), [GetSpreadsheet, BatchUpdate([AddSheet(sheet)])])
  }

  /** Calling it again once the tab exists creates nothing more: the second call finds the
      tab the first one created (under the id the service assigned it). */
  lemma MakeSureSheetExistsIdempotent(sheet: string, tabs: seq<TabInfo>, id: int)
    requires sheet != ""
    requires forall k :: 0 <= k < |tabs| ==> tabs[k].title != sheet
    ensures var created := tabs + [TabInfo(sheet, Some(id))];
      MakeSureSheetExists(sheet, created, None) == Step(id, [GetSpreadsheet])
  {
    var created := tabs + [TabInfo(sheet, Some(id))];
    assert created[|tabs|].title == sheet;
  }
}
