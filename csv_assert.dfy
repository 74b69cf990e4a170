/**
 * The CSV checks the load tests run on the metrics files, over the rows as
 * the CSV reader returns them (every row has at least one field). A check
 * that stops the test is a `Fatal`; one that fails it and lets it go on is
 * a `Failed` verdict.
 */
module CsvAssert {
  import opened Wrappers
  import opened Text
  import opened CsvFormat
  import opened Skater
  import opened Viewer
  import opened MetricsWriter
  import opened ViewerMetrics

  const SkaterIdsColumn := "skater_ids"

  datatype Fatal =
    | NoHeader
    | WidthMismatch(row: nat, expected: nat, got: nat)
    | MissingColumn

  datatype Verdict = Passed | Failed(errorCount: nat) | Stopped(fatal: Fatal)

  /** Rows as the CSV reader returns them: none is empty. */
  predicate ReaderRows(records: seq<Record>) {
    forall i :: 0 <= i < |records| ==> |records[i]| >= 1
  }

  /** Row `i` is the first data row whose width differs from the header's. */
  predicate FirstMisfit(records: seq<Record>, i: nat) {
    1 <= i < |records| && |records[i]| != |records[0]| && Rectangular(records[..i])
  }

  /** `CountRecords`: the number of data rows, not counting the header. */
  function CountRecords(records: seq<Record>): (n: nat)
    ensures records == [] ==> n == 0
    ensures records != [] ==> n == |records[1..]|
  {
    if |records| <= 1 then 0 else |records| - 1
  }

  /** How many of `rows` have a non-empty cell in column `col`. */
  function NonEmptyCells(rows: seq<Record>, col: nat): nat {
    if rows == [] then 0
    else
      var last := rows[|rows| - 1];
      NonEmptyCells(rows[..|rows| - 1], col) + (if col < |last| && last[col] != "" then 1 else 0)
  }

  /** No more non-empty cells than rows, and none at all exactly when every cell in the column is empty. */
  lemma {:induction false} NonEmptyCellsBounds(rows: seq<Record>, col: nat)
    requires forall i :: 0 <= i < |rows| ==> col < |rows[i]|
    ensures NonEmptyCells(rows, col) <= |rows|
    ensures NonEmptyCells(rows, col) == 0 <==> forall i :: 0 <= i < |rows| ==> rows[i][col] == ""
  {
    if rows != [] {
      var init := rows[..|rows| - 1];
      assert forall i :: 0 <= i < |init| ==> init[i] == rows[i];
      NonEmptyCellsBounds(init, col);
    }
  }

  /**
   * `AssertNoErrors`: the last header column is the error column; every
   * data row must have the header's width, and the file passes when no data
   * row has anything in its error cell.
   */
  method AssertNoErrors(records: seq<Record>) returns (v: Verdict)
    requires ReaderRows(records)
    ensures records == [] ==> v == Stopped(NoHeader)
    ensures records != [] && Rectangular(records) ==>
      var errors := NonEmptyCells(records[1..], |records[0]| - 1);
      v == (if errors == 0 then Passed else Failed(errors))
    ensures records != [] && !Rectangular(records) ==>
      v.Stopped? && v.fatal.WidthMismatch? && FirstMisfit(records, v.fatal.row)
      && v.fatal.expected == |records[0]| && v.fatal.got == |records[v.fatal.row]|
  {
    if |records| == 0 {
      return Stopped(NoHeader);
    }
    if |records| == 1 {
      return Passed;
    }
    var errorColumnIndex: nat := |records[0]| - 1;
    var errorCount := 0;
    for i := 1 to |records|
      invariant Rectangular(records[..i])
      invariant errorCount == NonEmptyCells(records[1..i], errorColumnIndex)
    {
      if |records[i]| != |records[0]| {
        return Stopped(WidthMismatch(i, |records[0]|, |records[i]|));
      }
      assert records[1..i + 1][..i - 1] == records[1..i];
      assert Rectangular(records[..i + 1]) by {
        assert records[..i + 1] == records[..i] + [records[i]];
      }
      if records[i][errorColumnIndex] != "" {
        errorCount := errorCount + 1;
      }
    }
    assert records[..|records|] == records;
    if errorCount == 0 {
      return Passed;
    }
    return Failed(errorCount);
  }

  /** The column search of `ExtractSkaterIDs`: the first index of `name`, or -1. */
  method ColumnIndex(header: Record, name: string) returns (index: int)
    ensures index == -1 <==> name !in header
    ensures index != -1 ==> 0 <= index < |header| && header[index] == name && name !in header[..index]
  {
    for i := 0 to |header|
      invariant name !in header[..i]
    {
      if header[i] == name {
        return i;
      }
      assert header[..i + 1] == header[..i] + [header[i]];
    }
    assert header[..|header|] == header;
    return -1;
  }

  /** The distinct strings of `xs`. */
  function Elements(xs: seq<string>): set<string> {
    set x | x in xs
  }

  /** The IDs one `skater_ids` cell names: none for an empty cell, its `|`-separated pieces otherwise. */
  function CellIDs(cell: string): set<string> {
    if cell == "" then {} else Elements(Split(cell, '|'))
  }

  /** The IDs all of `rows` name in column `col`. */
  function IdsOf(rows: seq<Record>, col: nat): set<string> {
    if rows == [] then {}
    else
      var last := rows[|rows| - 1];
      IdsOf(rows[..|rows| - 1], col) + (if col < |last| then CellIDs(last[col]) else {})
  }

  /**
   * `ExtractSkaterIDs`: the set of IDs named in the first `skater_ids`
   * column. A header-only file gives no IDs without looking for the column.
   */
  method ExtractSkaterIDs(records: seq<Record>) returns (r: Result<set<string>, Fatal>)
    requires ReaderRows(records)
    ensures records == [] ==> r == Err(NoHeader)
    ensures |records| == 1 ==> r == Ok({})
    ensures |records| > 1 && SkaterIdsColumn !in records[0] ==> r == Err(MissingColumn)
    ensures |records| > 1 && SkaterIdsColumn in records[0] && Rectangular(records) ==>
      exists col :: 0 <= col < |records[0]| && records[0][col] == SkaterIdsColumn && SkaterIdsColumn !in records[0][..col]
                    && r == Ok(IdsOf(records[1..], col))
    ensures |records| > 1 && SkaterIdsColumn in records[0] && !Rectangular(records) ==>
      r.Err? && r.error.WidthMismatch? && FirstMisfit(records, r.error.row)
      && r.error.expected == |records[0]| && r.error.got == |records[r.error.row]|
  {
    if |records| == 0 {
      return Err(NoHeader);
    }
    if |records| == 1 {
      return Ok({});
    }
    var col := ColumnIndex(records[0], SkaterIdsColumn);
    if col == -1 {
      return Err(MissingColumn);
    }
    var skaterIDs: set<string> := {};
    for i := 1 to |records|
      invariant Rectangular(records[..i])
      invariant skaterIDs == IdsOf(records[1..i], col)
    {
      if |records[i]| != |records[0]| {
        return Err(WidthMismatch(i, |records[0]|, |records[i]|));
      }
      assert records[1..i + 1][..i - 1] == records[1..i];
      assert Rectangular(records[..i + 1]) by {
        assert records[..i + 1] == records[..i] + [records[i]];
      }
      var cell := records[i][col];
      if cell != "" {
        var ids := Split(cell, '|');
        ghost var before := skaterIDs;
        for j := 0 to |ids|
          invariant skaterIDs == before + Elements(ids[..j])
        {
          assert ids[..j + 1] == ids[..j] + [ids[j]];
          skaterIDs := skaterIDs + {ids[j]};
        }
        assert ids[..|ids|] == ids;
      }
    }
    assert records[..|records|] == records;
    return Ok(skaterIDs);
  }

  /**
   * Splitting a joined `skater_ids` cell gives back exactly the IDs joined,
   * provided none contains `|` and the list is not a single empty ID.
   */
  lemma CellRoundTrip(ids: seq<string>)
    requires forall i :: 0 <= i < |ids| ==> '|' !in ids[i]
    requires ids != [""]
    ensures CellIDs(Join(ids, '|')) == Elements(ids)
  {
    if |ids| >= 1 {
      SplitJoin(ids, '|');
      if |ids| >= 2 {
        assert Join(ids, '|')[|ids[0]|] == '|';
      }
    }
  }

  /** The rows a skater writer adds for `results`, in order. */
  function SkaterRecords(results: seq<UpdateResult>, f: Formats): (rows: seq<Record>)
    ensures |rows| == |results|
  {
    if results == [] then []
    else SkaterRecords(results[..|results| - 1], f) + [RecordOf(results[|results| - 1], f)]
  }

  /** The rows a viewer writer adds for `results`, in order. */
  function ViewerRecords(results: seq<ViewerResult>, f: Formats): (rows: seq<Record>)
    ensures |rows| == |results|
  {
    if results == [] then []
    else ViewerRecords(results[..|results| - 1], f) + [ViewerRecordOf(results[|results| - 1], f)]
  }

  /** How many skater results show an error in the CSV. */
  function SkaterErrors(results: seq<UpdateResult>): nat {
    if results == [] then 0
    else SkaterErrors(results[..|results| - 1]) + (if ErrorCell(results[|results| - 1].error) != "" then 1 else 0)
  }

  /** How many viewer results show an error in the CSV. */
  function ViewerErrors(results: seq<ViewerResult>): nat {
    if results == [] then 0
    else ViewerErrors(results[..|results| - 1]) + (if ErrorCell(results[|results| - 1].error) != "" then 1 else 0)
  }

  /** In a skater metrics file, the error column counts exactly the results that carried an error message. */
  lemma {:induction false} SkaterFileErrors(results: seq<UpdateResult>, f: Formats)
    ensures Rectangular([WriterHeader] + SkaterRecords(results, f))
    ensures NonEmptyCells(SkaterRecords(results, f), |WriterHeader| - 1) == SkaterErrors(results)
  {
    if results != [] {
      var init := results[..|results| - 1];
      SkaterFileErrors(init, f);
      var rows := SkaterRecords(results, f);
      assert rows[..|rows| - 1] == SkaterRecords(init, f);
      assert [WriterHeader] + rows == ([WriterHeader] + SkaterRecords(init, f)) + [rows[|rows| - 1]];
    }
  }

  /** In a viewer metrics file, the error column counts exactly the results that carried an error message. */
  lemma {:induction false} ViewerFileErrors(results: seq<ViewerResult>, f: Formats)
    ensures Rectangular([ViewerHeader] + ViewerRecords(results, f))
    ensures NonEmptyCells(ViewerRecords(results, f), |ViewerHeader| - 1) == ViewerErrors(results)
  {
    if results != [] {
      var init := results[..|results| - 1];
      ViewerFileErrors(init, f);
      var rows := ViewerRecords(results, f);
      assert rows[..|rows| - 1] == ViewerRecords(init, f);
      assert [ViewerHeader] + rows == ([ViewerHeader] + ViewerRecords(init, f)) + [rows[|rows| - 1]];
    }
  }

  /** The IDs all `results` carry. */
  function AllSkaterIds(results: seq<ViewerResult>): set<string> {
    if results == [] then {}
    else AllSkaterIds(results[..|results| - 1]) + Elements(results[|results| - 1].skaterIDs)
  }

  /** A viewer result whose IDs survive the `|`-join. */
  predicate JoinableIds(result: ViewerResult) {
    result.skaterIDs != [""] && forall i :: 0 <= i < |result.skaterIDs| ==> '|' !in result.skaterIDs[i]
  }

  /**
   * Reading the `skater_ids` column of a viewer metrics file gives back
   * exactly the IDs the written results carried.
   */
  lemma {:induction false} ViewerFileIds(results: seq<ViewerResult>, f: Formats)
    requires forall i :: 0 <= i < |results| ==> JoinableIds(results[i])
    ensures ViewerHeader[5] == SkaterIdsColumn && SkaterIdsColumn !in ViewerHeader[..5]
    ensures IdsOf(ViewerRecords(results, f), 5) == AllSkaterIds(results)
  {
    if results != [] {
      var last := results[|results| - 1];
      ViewerFileIds(results[..|results| - 1], f);
      CellRoundTrip(last.skaterIDs);
      assert ViewerRecords(results, f)[..|results| - 1] == ViewerRecords(results[..|results| - 1], f);
    }
  }

  /** The writers' own file shapes: every row as wide as the header, and the count of data rows. */
  lemma ViewerWriterCount(w: ViewerWriter)
    requires w.Valid()
    ensures Rectangular(w.file + w.buffer) && ReaderRows(w.file + w.buffer)
    ensures CountRecords(w.file + w.buffer) == w.recordCount
  {
  }

  /**
   * A viewer run's metrics pass `AssertNoErrors` exactly when no result of
   * the run carried an error: every error the viewer reports has a message.
   */
  lemma ViewerRunErrors(v: ViewerConfig, steps: seq<Step>, f: Formats)
    ensures ViewerErrors(Receive(v, steps, 0)) == 0
        <==> forall i :: 0 <= i < |Receive(v, steps, 0)| ==> Receive(v, steps, 0)[i].error.None?
  {
    var rs := Receive(v, steps, 0);
    forall k | 0 <= k < |rs|
      ensures rs[k].error.Some? ==> rs[k].error.value != ""
    {
      ReceiveIdentity(v, steps, 0, k);
    }
    ViewerErrorsZero(rs);
  }

  lemma {:induction false} ViewerErrorsZero(results: seq<ViewerResult>)
    requires forall i :: 0 <= i < |results| ==> results[i].error.Some? ==> results[i].error.value != ""
    ensures ViewerErrors(results) == 0 <==> forall i :: 0 <= i < |results| ==> results[i].error.None?
  {
    if results != [] {
      var init := results[..|results| - 1];
      ViewerErrorsZero(init);
      assert forall i :: 0 <= i < |init| ==> init[i] == results[i];
    }
  }
}
