/** Retention purge (`purgeRows`): data rows whose date cell is empty, unparsable or older
    than the retention limit are deleted in one batch, last row first. */
module Purge {
  import opened Wrappers
  import opened Sequences
  import opened SheetRequests

  /** Whether the data row read at some position is deleted:
      `!value || !date.isValid() || date.isBefore(limit)` for its first cell `value`.
      `parseDate` stands for date parsing (an instant, or `None` for an invalid date);
      `limit` is the current instant minus the retention. */
  predicate Stale(row: seq<string>, parseDate: string -> Option<int>, limit: int): (b: bool)
    // an empty cell and an invalid date are stale
    ensures row == [] || row[0] == "" || parseDate(row[0]).None? ==> b
    // a valid date is stale exactly when it is before the limit
    ensures row != [] && row[0] != "" && parseDate(row[0]).Some? ==>
              (b <==> parseDate(row[0]).value < limit)
  {
    row == [] || row[0] == "" || parseDate(row[0]).None? || parseDate(row[0]).value < limit
  }

  /** The deletions pushed while walking the rows read: the row read at position i is
      sheet row i + 2, i.e. the 0-based row range [i + 1, i + 2). */
  function Deletions(sheetId: int, column: seq<seq<string>>, parseDate: string -> Option<int>,
                     limit: int): (ops: seq<RowSpan>)
    ensures |ops| <= |column|
    decreases |column|
  {
    if column == [] then []
    else
      var n := |column|;
      var earlier := Deletions(sheetId, column[..n - 1], parseDate, limit);
      if Stale(column[n - 1], parseDate, limit) then earlier + [RowSpan(sheetId, n, n + 1)]
      else earlier
  }

  /** `span` covers exactly sheet row i + 2, the row read at position i. */
  predicate CoversReadRow(span: RowSpan, sheetId: int, i: int) {
    span == RowSpan(sheetId, i + 1, i + 2)
  }

  /** Every deletion removes one stale row that was read. */
  lemma {:induction false} DeletionIsStale(sheetId: int, column: seq<seq<string>>,
                                           parseDate: string -> Option<int>, limit: int, k: int)
    requires 0 <= k < |Deletions(sheetId, column, parseDate, limit)|
    ensures var span := Deletions(sheetId, column, parseDate, limit)[k];
      0 <= span.startIndex - 1 < |column| && CoversReadRow(span, sheetId, span.startIndex - 1) &&
      Stale(column[span.startIndex - 1], parseDate, limit)
    decreases |column|
  {
    var n := |column|;
    var prefix := column[..n - 1];
    var earlier := Deletions(sheetId, prefix, parseDate, limit);
    if k < |earlier| {
      DeletionIsStale(sheetId, prefix, parseDate, limit, k);
      assert column[earlier[k].startIndex - 1] == prefix[earlier[k].startIndex - 1];
    }
  }

  /** Every stale row read is deleted. */
  lemma {:induction false} DeletionsCoverStale(sheetId: int, column: seq<seq<string>>,
                                               parseDate: string -> Option<int>, limit: int, i: int)
    requires 0 <= i < |column| && Stale(column[i], parseDate, limit)
    ensures RowSpan(sheetId, i + 1, i + 2) in Deletions(sheetId, column, parseDate, limit)
    decreases |column|
  {
    var n := |column|;
    var prefix := column[..n - 1];
    if i < n - 1 {
      assert prefix[i] == column[i];
      DeletionsCoverStale(sheetId, prefix, parseDate, limit, i);
    }
  }

  /** The deletions are pushed in row order: start indices strictly increase. */
  lemma {:induction false} DeletionsAscending(sheetId: int, column: seq<seq<string>>,
                                              parseDate: string -> Option<int>, limit: int, k: int, l: int)
    requires 0 <= k < l < |Deletions(sheetId, column, parseDate, limit)|
    ensures Deletions(sheetId, column, parseDate, limit)[k].startIndex
          < Deletions(sheetId, column, parseDate, limit)[l].startIndex
    decreases |column|
  {
    var n := |column|;
    var prefix := column[..n - 1];
    var earlier := Deletions(sheetId, prefix, parseDate, limit);
    if l < |earlier| {
      DeletionsAscending(sheetId, prefix, parseDate, limit, k, l);
    } else {
      DeletionIsStale(sheetId, prefix, parseDate, limit, k);
    }
  }

  /** No deletion at all exactly when no row read is stale. */
  lemma NoDeletionsIffNoneStale(sheetId: int, column: seq<seq<string>>,
                                parseDate: string -> Option<int>, limit: int)
    ensures Deletions(sheetId, column, parseDate, limit) == [] <==>
            forall i :: 0 <= i < |column| ==> !Stale(column[i], parseDate, limit)
  {
    var ops := Deletions(sheetId, column, parseDate, limit);
    if ops != [] {
      DeletionIsStale(sheetId, column, parseDate, limit, 0);
    }
    forall i | 0 <= i < |column| && Stale(column[i], parseDate, limit) ensures ops != [] {
      DeletionsCoverStale(sheetId, column, parseDate, limit, i);
    }
  }

  /** The requests of a purge, given what the read of column A answered (`None` when the
      answer carries no values). */
  function PurgeRequests(sheet: string, sheetId: int, read: Option<seq<seq<string>>>,
                         parseDate: string -> Option<int>, limit: int): (r: seq<Request>)
    ensures 1 <= |r| <= 2 && r[0] == ValuesGet(DataColumnRange(sheet))
    // a batch is sent exactly when some row read is stale
    ensures |r| == 2 <==>
              read.Some? && exists i :: 0 <= i < |read.value| && Stale(read.value[i], parseDate, limit)
    ensures |r| == 2 ==> r[1] == BatchUpdate(Batch(sheetId, read.value, parseDate, limit))
  {
    var get := [ValuesGet(DataColumnRange(sheet))];
    if read.None? then get
    else
      NoDeletionsIffNoneStale(sheetId, read.value, parseDate, limit);
      var deleteRequests := Deletions(sheetId, read.value, parseDate, limit);
      if deleteRequests == [] then get
      else get + [BatchUpdate(Batch(sheetId, read.value, parseDate, limit))]
  }

  /** The purge as the client runs it: a loop pushing one deletion per stale row, then the
      list reversed into a single batch. */
  method PurgeRows(sheet: string, sheetId: int, read: Option<seq<seq<string>>>,
                   parseDate: string -> Option<int>, limit: int) returns (requests: seq<Request>)
    ensures requests == PurgeRequests(sheet, sheetId, read, parseDate, limit)
  {
    requests := [ValuesGet(DataColumnRange(sheet))];
    if read.None? {
      return;
    }
    var values := read.value;
    var deleteRequests: seq<RowSpan> := [];
    var i := 0;
    while i < |values|
      invariant 0 <= i <= |values|
      invariant deleteRequests == Deletions(sheetId, values[..i], parseDate, limit)
    {
      assert values[..i + 1][..i] == values[..i];
      if Stale(values[i], parseDate, limit) {
        deleteRequests := deleteRequests + [RowSpan(sheetId, i + 1, i + 2)];
      }
      i := i + 1;
    }
    assert values[..i] == values;
    if |deleteRequests| == 0 {
      return;
    }
    requests := requests + [BatchUpdate(DeleteRequests(Reverse(deleteRequests)))];
  }

  /** Start indices strictly decrease along `spans`. */
  predicate SpansDescending(spans: seq<RowSpan>) {
    forall k, l :: 0 <= k < l < |spans| ==> spans[k].startIndex > spans[l].startIndex
  }

  /** In the batch, start indices strictly decrease, so no deletion shifts a row a later
      deletion of the same batch still has to remove. */
  lemma BatchDescending(sheetId: int, column: seq<seq<string>>, parseDate: string -> Option<int>,
                        limit: int)
    ensures SpansDescending(Reverse(Deletions(sheetId, column, parseDate, limit)))
  {
    var ops := Deletions(sheetId, column, parseDate, limit);
    var batch := Reverse(ops);
    forall k, l | 0 <= k < l < |batch| ensures batch[k].startIndex > batch[l].startIndex {
      DeletionsAscending(sheetId, column, parseDate, limit, |ops| - 1 - l, |ops| - 1 - k);
    }
  }

  /** The rows kept by the purge: sheet row i + 1 for every row i read that is not stale. */
  function Kept<T>(rows: seq<T>, column: seq<seq<string>>, parseDate: string -> Option<int>,
                   limit: int): seq<T>
    requires |column| < |rows|
    decreases |column|
  {
    if column == [] then []
    else
      var n := |column|;
      Kept(rows, column[..n - 1], parseDate, limit) +
      (if Stale(column[n - 1], parseDate, limit) then [] else [rows[n]])
  }

  lemma {:induction false} KeptSamePrefix<T>(rows: seq<T>, rows': seq<T>, column: seq<seq<string>>,
                                             parseDate: string -> Option<int>, limit: int)
    requires |column| < |rows| && |column| < |rows'|
    requires rows[..|column| + 1] == rows'[..|column| + 1]
    ensures Kept(rows, column, parseDate, limit) == Kept(rows', column, parseDate, limit)
    decreases |column|
  {
    if column != [] {
      var n := |column|;
      assert rows[n] == rows[..n + 1][n];
      assert rows'[n] == rows'[..n + 1][n];
      assert rows[..n] == rows[..n + 1][..n] && rows'[..n] == rows'[..n + 1][..n];
      KeptSamePrefix(rows, rows', column[..n - 1], parseDate, limit);
    }
  }

  /** `span` deletes the one sheet row of a stale row read. */
  predicate DeletesStaleRow(span: RowSpan, sheetId: int, column: seq<seq<string>>,
                            parseDate: string -> Option<int>, limit: int) {
    0 <= span.startIndex - 1 < |column| && CoversReadRow(span, sheetId, span.startIndex - 1) &&
    Stale(column[span.startIndex - 1], parseDate, limit)
  }

  /** Every op of `ops` deletes the one sheet row of a stale row read. */
  predicate DeletesStaleRows(ops: seq<Op>, sheetId: int, column: seq<seq<string>>,
                             parseDate: string -> Option<int>, limit: int) {
    forall k :: 0 <= k < |ops| ==>
      ops[k].DeleteRows? && DeletesStaleRow(ops[k].span, sheetId, column, parseDate, limit)
  }

  /** The ops of `ops` are row deletions in strictly descending order of start index. */
  predicate StartsDescending(ops: seq<Op>) {
    forall k, l :: 0 <= k < l < |ops| ==>
      ops[k].DeleteRows? && ops[l].DeleteRows? && ops[k].span.startIndex > ops[l].span.startIndex
  }

  /** The batch a purge of `column` sends, as row operations: `BatchPlan` states what
      it deletes and in which order. */
  function Batch(sheetId: int, column: seq<seq<string>>, parseDate: string -> Option<int>,
                 limit: int): (ops: seq<Op>)
    // at most one deletion per row read
    ensures |ops| <= |column|
  {
    DeleteRequests(Reverse(Deletions(sheetId, column, parseDate, limit)))
  }

  /** Every op of the batch deletes the one sheet row of a stale row read, the ops go last
      row first, and the batch is empty exactly when no row read is stale. */
  lemma BatchPlan(sheetId: int, column: seq<seq<string>>, parseDate: string -> Option<int>, limit: int)
    ensures DeletesStaleRows(Batch(sheetId, column, parseDate, limit), sheetId, column, parseDate, limit)
    ensures StartsDescending(Batch(sheetId, column, parseDate, limit))
    ensures Batch(sheetId, column, parseDate, limit) == [] <==>
              forall i :: 0 <= i < |column| ==> !Stale(column[i], parseDate, limit)
  {
    var deletions := Deletions(sheetId, column, parseDate, limit);
    forall j | 0 <= j < |deletions|
      ensures DeletesStaleRow(deletions[j], sheetId, column, parseDate, limit)
    {
      DeletionIsStale(sheetId, column, parseDate, limit, j);
    }
    ReversedStaleSpans(deletions, sheetId, column, parseDate, limit);
    BatchDescending(sheetId, column, parseDate, limit);
    DescendingSpans(Reverse(deletions));
    NoDeletionsIffNoneStale(sheetId, column, parseDate, limit);
  }

  /** Op k of the batch built from `spans` deletes the span pushed k-th from the end. */
  lemma ReversedSpan(spans: seq<RowSpan>, k: int)
    requires 0 <= k < |spans|
    ensures DeleteRequests(Reverse(spans))[k] == DeleteRows(spans[|spans| - 1 - k])
  {
    assert Reverse(spans)[k] == spans[|spans| - 1 - k];
  }

  /** Reversing spans that each delete a stale row read gives deletions of stale rows. */
  lemma ReversedStaleSpans(spans: seq<RowSpan>, sheetId: int, column: seq<seq<string>>,
                           parseDate: string -> Option<int>, limit: int)
    requires forall j :: 0 <= j < |spans| ==> DeletesStaleRow(spans[j], sheetId, column, parseDate, limit)
    ensures DeletesStaleRows(DeleteRequests(Reverse(spans)), sheetId, column, parseDate, limit)
  {
    var ops := DeleteRequests(Reverse(spans));
    forall k | 0 <= k < |ops|
      ensures ops[k].DeleteRows? && DeletesStaleRow(ops[k].span, sheetId, column, parseDate, limit)
    {
      ReversedSpan(spans, k);
    }
  }

  /** Spans in descending order make deletions in descending order. */
  lemma DescendingSpans(spans: seq<RowSpan>)
    requires SpansDescending(spans)
    ensures StartsDescending(DeleteRequests(spans))
  {
  }

  /** Applying the batch in request order to the tab `sheetId`, whose data rows begin with
      the rows read, deletes exactly the stale ones: the header row, the rows kept and the
      rows beyond those read remain, in their order. */
  lemma {:induction false} PurgeDeletesExactlyStaleRows<T>(
    rows: seq<T>, sheetId: int, column: seq<seq<string>>, parseDate: string -> Option<int>, limit: int)
    requires |column| < |rows|
    ensures ApplyDeletes(rows, sheetId, Batch(sheetId, column, parseDate, limit))
         == Some([rows[0]] + Kept(rows, column, parseDate, limit) + rows[|column| + 1..])
    decreases |column|
  {
    if column == [] {
      assert Batch(sheetId, column, parseDate, limit) == [];
      assert ApplyDeletes(rows, sheetId, []) == Some(rows);
      assert Kept(rows, column, parseDate, limit) == [];
      assert rows == [rows[0]] + [] + rows[1..];
    } else {
      var n := |column|;
      var prefix := column[..n - 1];
      if Stale(column[n - 1], parseDate, limit) {
        var rows1 := rows[..n] + rows[n + 1..];
        PurgeDeletesExactlyStaleRows(rows1, sheetId, prefix, parseDate, limit);
        StaleRowStep(rows, sheetId, column, parseDate, limit);
      } else {
        PurgeDeletesExactlyStaleRows(rows, sheetId, prefix, parseDate, limit);
        KeptRowStep(rows, sheetId, column, parseDate, limit);
      }
    }
  }

  /** The batch is aimed at the tab `sheetId` only: when some row read is stale, the same
      batch applied to any other tab is rejected. */
  lemma PurgeBatchOtherTabRejected<T>(rows: seq<T>, tabId: int, sheetId: int,
                                      column: seq<seq<string>>, parseDate: string -> Option<int>,
                                      limit: int)
    requires tabId != sheetId
    requires exists i :: 0 <= i < |column| && Stale(column[i], parseDate, limit)
    ensures ApplyDeletes(rows, tabId, Batch(sheetId, column, parseDate, limit)) == None
  {
    var ops := Batch(sheetId, column, parseDate, limit);
    BatchPlan(sheetId, column, parseDate, limit);
    assert ops[0].DeleteRows? && CoversReadRow(ops[0].span, sheetId, ops[0].span.startIndex - 1);
  }

  /** With a stale last row, the batch begins with that row's deletion, followed by the
      batch for the rows before it. */
  lemma BatchOfStaleLast(sheetId: int, column: seq<seq<string>>, parseDate: string -> Option<int>,
                         limit: int)
    requires 0 < |column| && Stale(column[|column| - 1], parseDate, limit)
    ensures var n := |column|;
      Batch(sheetId, column, parseDate, limit)
      == DeleteRequests([RowSpan(sheetId, n, n + 1)] +
                        Reverse(Deletions(sheetId, column[..n - 1], parseDate, limit)))
  {
    var n := |column|;
    ReverseSnoc(Deletions(sheetId, column[..n - 1], parseDate, limit), RowSpan(sheetId, n, n + 1));
  }

  /** The last row read is stale: its deletion comes first in the batch and leaves the
      rows before it where they were. */
  lemma StaleRowStep<T>(rows: seq<T>, sheetId: int, column: seq<seq<string>>,
                        parseDate: string -> Option<int>, limit: int)
    requires 0 < |column| < |rows| && Stale(column[|column| - 1], parseDate, limit)
    requires var n := |column|; var rows1 := rows[..n] + rows[n + 1..];
      ApplyDeletes(rows1, sheetId, Batch(sheetId, column[..n - 1], parseDate, limit))
      == Some([rows1[0]] + Kept(rows1, column[..n - 1], parseDate, limit) + rows1[n..])
    ensures ApplyDeletes(rows, sheetId, Batch(sheetId, column, parseDate, limit))
         == Some([rows[0]] + Kept(rows, column, parseDate, limit) + rows[|column| + 1..])
  {
    var n := |column|;
    var prefix := column[..n - 1];
    var span := RowSpan(sheetId, n, n + 1);
    var rows1 := rows[..n] + rows[n + 1..];
    BatchOfStaleLast(sheetId, column, parseDate, limit);
    ApplyFirstDelete(rows, span, Reverse(Deletions(sheetId, prefix, parseDate, limit)));
    assert rows1[..n] == rows[..n];
    KeptSamePrefix(rows1, rows, prefix, parseDate, limit);
    assert Kept(rows, column, parseDate, limit) == Kept(rows, prefix, parseDate, limit);
    assert rows1[0] == rows[0];
    assert rows1[n..] == rows[n + 1..];
  }

  /** With a kept last row, the batch and the kept rows are those of the rows before it,
      plus that row among the kept ones. */
  lemma KeptLast<T>(rows: seq<T>, sheetId: int, column: seq<seq<string>>,
                    parseDate: string -> Option<int>, limit: int)
    requires 0 < |column| < |rows| && !Stale(column[|column| - 1], parseDate, limit)
    ensures var prefix := column[..|column| - 1];
      Batch(sheetId, column, parseDate, limit) == Batch(sheetId, prefix, parseDate, limit) &&
      Kept(rows, column, parseDate, limit) == Kept(rows, prefix, parseDate, limit) + [rows[|column|]]
  {
  }

  /** The last row read is kept: the batch is the one for the rows before it. */
  lemma KeptRowStep<T>(rows: seq<T>, sheetId: int, column: seq<seq<string>>,
                       parseDate: string -> Option<int>, limit: int)
    requires 0 < |column| < |rows| && !Stale(column[|column| - 1], parseDate, limit)
    requires var n := |column|;
      ApplyDeletes(rows, sheetId, Batch(sheetId, column[..n - 1], parseDate, limit))
      == Some([rows[0]] + Kept(rows, column[..n - 1], parseDate, limit) + rows[n..])
    ensures ApplyDeletes(rows, sheetId, Batch(sheetId, column, parseDate, limit))
         == Some([rows[0]] + Kept(rows, column, parseDate, limit) + rows[|column| + 1..])
  {
    var n := |column|;
    KeptLast(rows, sheetId, column, parseDate, limit);
    ShiftOne([rows[0]], Kept(rows, column[..n - 1], parseDate, limit), rows, n);
  }

  /** Date parsing for the example below: two valid dates, everything else invalid. */
  function ExampleParse(s: string): Option<int> {
    if s == "2000-01-01" then Some(2000) else if s == "2099-01-01" then Some(2099) else None
  }

  /** The read of the example: an empty cell, an invalid date, a date before the limit and
      one after it. The first three rows are deleted, in the order sheet row 4, 3, 2. */
  lemma PurgeExample()
    ensures PurgeRequests("", 7, Some([[], ["not-a-date"], ["2000-01-01"], ["2099-01-01"]]),
                          ExampleParse, 2026)
         == [ValuesGet(DataColumnRange("")),
             BatchUpdate([DeleteRows(RowSpan(7, 3, 4)), DeleteRows(RowSpan(7, 2, 3)),
                          DeleteRows(RowSpan(7, 1, 2))])]
  {
    var column: seq<seq<string>> := [[], ["not-a-date"], ["2000-01-01"], ["2099-01-01"]];
    assert column[..3] == [[], ["not-a-date"], ["2000-01-01"]];
    assert column[..3][..2] == [[], ["not-a-date"]];
    assert column[..3][..2][..1] == [[]];
    assert column[..3][..2][..1][..0] == [];
    var spans := [RowSpan(7, 1, 2), RowSpan(7, 2, 3), RowSpan(7, 3, 4)];
    assert Deletions(7, [[]], ExampleParse, 2026) == spans[..1];
    assert Deletions(7, column[..2], ExampleParse, 2026) == spans[..2];
    assert Deletions(7, column[..3], ExampleParse, 2026) == spans;
    assert Deletions(7, column, ExampleParse, 2026) == spans;
    assert Reverse(spans) == [RowSpan(7, 3, 4), RowSpan(7, 2, 3), RowSpan(7, 1, 2)];
    assert DeleteRequests(Reverse(spans))
        == [DeleteRows(RowSpan(7, 3, 4)), DeleteRows(RowSpan(7, 2, 3)), DeleteRows(RowSpan(7, 1, 2))];
  }
}
