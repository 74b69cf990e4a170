/**
 * `metrics.ViewerWriter`: the viewer simulator's CSV sink. Unlike the
 * skater writer it counts the records it has written and flushes only when
 * that count reaches a multiple of `FlushBatchSize`. File-operation
 * outcomes are parameters, as in `MetricsWriter`.
 */
module ViewerMetrics {
  import opened Wrappers
  import opened Text
  import opened CsvFormat
  import opened Viewer

  const FlushBatchSize := 10

  const ViewerHeader: Record :=
    ["timestamp", "event_id", "viewer_number", "message_count", "latency_ms", "skater_ids", "error"]

  /** The `skater_ids` cell: the IDs separated by `|`, built by appending one ID at a time. */
  method JoinSkaterIDs(ids: seq<string>) returns (cell: string)
    ensures cell == Join(ids, '|')
  {
    cell := "";
    if |ids| > 0 {
      cell := ids[0];
      for i := 1 to |ids|
        invariant cell == Join(ids[..i], '|')
      {
        JoinSnoc(ids[..i], ids[i], '|');
        assert ids[..i + 1] == ids[..i] + [ids[i]];
        cell := cell + "|" + ids[i];
      }
      assert ids[..|ids|] == ids;
    }
  }

  /** The value a viewer result contributes under the column named `column`. */
  function ViewerField(column: string, result: ViewerResult, f: Formats): string {
    if column == "timestamp" then f.time(result.timestamp)
    else if column == "event_id" then result.eventID
    else if column == "viewer_number" then Decimal(result.viewerNumber)
    else if column == "message_count" then Decimal(result.messageCount)
    else if column == "latency_ms" then f.millis(result.latencyMs * 1_000_000)
    else if column == "skater_ids" then Join(result.skaterIDs, '|')
    else if column == "error" then ErrorCell(result.error)
    else ""
  }

  /** The record `WriteResult` builds: one field per header column, each holding that column's value. */
  function ViewerRecordOf(result: ViewerResult, f: Formats): (r: Record)
    ensures |r| == |ViewerHeader|
    ensures forall c :: 0 <= c < |r| ==> r[c] == ViewerField(ViewerHeader[c], result, f)
  {
    [f.time(result.timestamp), result.eventID, Decimal(result.viewerNumber), Decimal(result.messageCount),
     f.millis(result.latencyMs * 1_000_000), Join(result.skaterIDs, '|'), ErrorCell(result.error)]
  }

  class ViewerWriter {
    /** Rows that have reached the file. */
    var file: seq<Record>
    /** Rows handed to the CSV writer and not yet flushed. */
    var buffer: seq<Record>
    /** Records accepted by the CSV writer since creation. */
    var recordCount: int
    var closed: bool
    /** No flush has failed since the writer was created. */
    ghost var healthy: bool

    /**
     * The header comes first, every row has the header's width, each
     * accepted record is one row, and with no failed flush no more records
     * wait in the buffer than have been written since the count last reached
     * a multiple of `FlushBatchSize`, so never more than nine.
     */
    ghost predicate Valid()
      reads this
    {
      var rows := file + buffer;
      |rows| >= 1 && rows[0] == ViewerHeader && Rectangular(rows)
      && recordCount == |rows| - 1
      && (healthy ==> |buffer| <= recordCount % FlushBatchSize)
    }

    /** The state `NewViewerWriter` leaves after writing the header and flushing it (whose error it ignores). */
    constructor (flushErr: Option<string>)
      ensures flushErr.None? ==> file == [ViewerHeader] && buffer == []
      ensures flushErr.Some? ==> file == [] && buffer == [ViewerHeader]
      ensures recordCount == 0 && healthy == flushErr.None? && !closed && Valid()
    {
      if flushErr.None? {
        file, buffer := [ViewerHeader], [];
      } else {
        file, buffer := [], [ViewerHeader];
      }
      recordCount := 0;
      closed := false;
      healthy := flushErr.None?;
    }

    /**
     * `WriteResult`: a record the CSV writer refuses is reported wrapped and
     * changes nothing. Otherwise the record is buffered and counted, and when
     * the count reaches a multiple of `FlushBatchSize` the buffer is flushed;
     * that flush's error is returned as it is.
     */
    method WriteResult(result: ViewerResult, f: Formats, writeErr: Option<string>, flushErr: Option<string>)
      returns (err: Option<string>)
      requires Valid()
      modifies this
      ensures Valid() && closed == old(closed)
      ensures writeErr.Some? ==>
        err == Some("failed to write CSV record: " + writeErr.value)
        && file == old(file) && buffer == old(buffer) && recordCount == old(recordCount) && healthy == old(healthy)
      ensures writeErr.None? ==>
        recordCount == old(recordCount) + 1
        && file + buffer == old(file + buffer) + [ViewerRecordOf(result, f)]
      ensures writeErr.None? && recordCount % FlushBatchSize != 0 ==>
        err.None? && file == old(file) && healthy == old(healthy)
      ensures writeErr.None? && recordCount % FlushBatchSize == 0 ==> err == flushErr
      ensures writeErr.None? && recordCount % FlushBatchSize == 0 && flushErr.None? ==>
        buffer == [] && healthy == old(healthy)
      ensures writeErr.None? && recordCount % FlushBatchSize == 0 && flushErr.Some? ==>
        file == old(file) && !healthy
    {
      if writeErr.Some? {
        return Some("failed to write CSV record: " + writeErr.value);
      }
      var record := ViewerRecordOf(result, f);
      ghost var rows := file + buffer;
      buffer := buffer + [record];
      assert file + buffer == rows + [record];
      recordCount := recordCount + 1;
      err := None;
      if recordCount % FlushBatchSize == 0 {
        err := Flush(flushErr);
      }
    }

    /** The CSV writer's `Flush` followed by `Error`. */
    method Flush(flushErr: Option<string>) returns (err: Option<string>)
      requires |file + buffer| >= 1 && (file + buffer)[0] == ViewerHeader && Rectangular(file + buffer)
      requires recordCount == |file + buffer| - 1
      modifies this
      ensures Valid() && closed == old(closed) && recordCount == old(recordCount) && err == flushErr
      ensures file + buffer == old(file + buffer)
      ensures flushErr.None? ==> buffer == [] && healthy == old(healthy)
      ensures flushErr.Some? ==> file == old(file) && !healthy
    {
      if flushErr.None? {
        file, buffer := file + buffer, [];
        assert file == old(file + buffer);
      } else {
        healthy := false;
      }
      return flushErr;
    }

    /** `Close`: flush everything buffered (its error is ignored), then close the file. */
    method Close(flushErr: Option<string>, closeErr: Option<string>) returns (err: Option<string>)
      requires Valid()
      modifies this
      ensures Valid() && closed && err == closeErr && recordCount == old(recordCount)
      ensures file + buffer == old(file + buffer)
      ensures flushErr.None? ==> buffer == []
    {
      var _ := Flush(flushErr);
      closed := true;
      return closeErr;
    }
  }

  /**
   * `NewViewerWriter`: create the file, write the header and flush it.
   * Failing to create the file or to write the header is reported wrapped.
   */
  method NewViewerWriter(createErr: Option<string>, headerErr: Option<string>, flushErr: Option<string>)
    returns (r: Result<ViewerWriter, string>)
    ensures r.Ok? <==> createErr.None? && headerErr.None?
    ensures createErr.Some? ==> r == Err("failed to create metrics file: " + createErr.value)
    ensures createErr.None? && headerErr.Some? ==> r == Err("failed to write CSV header: " + headerErr.value)
    ensures r.Ok? ==>
      fresh(r.value) && r.value.Valid() && !r.value.closed
      && r.value.recordCount == 0 && r.value.file + r.value.buffer == [ViewerHeader]
  {
    if createErr.Some? {
      return Err("failed to create metrics file: " + createErr.value);
    }
    if headerErr.Some? {
      return Err("failed to write CSV header: " + headerErr.value);
    }
    var w := new ViewerWriter(flushErr);
    return Ok(w);
  }
}
