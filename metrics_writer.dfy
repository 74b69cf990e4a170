/**
 * `metrics.Writer`: the skater simulator's CSV sink. It writes a header,
 * then one record per update result, flushing after every record.
 * The outcome of each file operation is a parameter: `None` for success,
 * `Some(message)` for the error the operation reports.
 */
module MetricsWriter {
  import opened Wrappers
  import opened CsvFormat
  import opened Skater

  const WriterHeader: Record := ["timestamp", "event_id", "skater_id", "response_time_ms", "error"]

  /** The value a skater result contributes under the column named `column`. */
  function SkaterField(column: string, result: UpdateResult, f: Formats): string {
    if column == "timestamp" then f.time(result.timestamp)
    else if column == "event_id" then result.eventID
    else if column == "skater_id" then result.skaterID
    else if column == "response_time_ms" then f.millis(result.responseTimeNs)
    else if column == "error" then ErrorCell(result.error)
    else ""
  }

  /** The record `WriteResult` builds: one field per header column, each holding that column's value. */
  function RecordOf(result: UpdateResult, f: Formats): (r: Record)
    ensures |r| == |WriterHeader|
    ensures forall c :: 0 <= c < |r| ==> r[c] == SkaterField(WriterHeader[c], result, f)
  {
    [f.time(result.timestamp), result.eventID, result.skaterID, f.millis(result.responseTimeNs), ErrorCell(result.error)]
  }

  class Writer {
    /** Rows that have reached the file. */
    var file: seq<Record>
    /** Rows handed to the CSV writer and not yet flushed. */
    var buffer: seq<Record>
    var closed: bool
    /** No flush has failed since the writer was created. */
    ghost var healthy: bool

    /** The header comes first, every row has the header's width, and with no failed flush nothing waits in the buffer. */
    ghost predicate Valid()
      reads this
    {
      var rows := file + buffer;
      |rows| >= 1 && rows[0] == WriterHeader && Rectangular(rows)
      && (healthy ==> buffer == [])
    }

    /** The state `NewWriter` leaves after writing the header and flushing it (whose error it ignores). */
    constructor (flushErr: Option<string>)
      ensures flushErr.None? ==> file == [WriterHeader] && buffer == []
      ensures flushErr.Some? ==> file == [] && buffer == [WriterHeader]
      ensures healthy == flushErr.None? && !closed && Valid()
    {
      if flushErr.None? {
        file, buffer := [WriterHeader], [];
      } else {
        file, buffer := [], [WriterHeader];
      }
      closed := false;
      healthy := flushErr.None?;
    }

    /**
     * `WriteResult`: a record the CSV writer refuses is reported wrapped and
     * changes nothing; otherwise the record is buffered and flushed at once,
     * and a flush error is returned as it is.
     */
    method WriteResult(result: UpdateResult, f: Formats, writeErr: Option<string>, flushErr: Option<string>)
      returns (err: Option<string>)
      requires Valid()
      modifies this
      ensures Valid() && closed == old(closed)
      ensures writeErr.Some? ==>
        err == Some("failed to write CSV record: " + writeErr.value)
        && file == old(file) && buffer == old(buffer) && healthy == old(healthy)
      ensures writeErr.None? ==> err == flushErr && file + buffer == old(file + buffer) + [RecordOf(result, f)]
      ensures writeErr.None? && flushErr.None? ==> buffer == [] && healthy == old(healthy)
      ensures writeErr.None? && flushErr.Some? ==> file == old(file) && !healthy
    {
      if writeErr.Some? {
        return Some("failed to write CSV record: " + writeErr.value);
      }
      var record := RecordOf(result, f);
      ghost var rows := file + buffer;
      buffer := buffer + [record];
      assert file + buffer == rows + [record];
      err := Flush(flushErr);
    }

    /** The CSV writer's `Flush` followed by `Error`. */
    method Flush(flushErr: Option<string>) returns (err: Option<string>)
      requires |file + buffer| >= 1 && (file + buffer)[0] == WriterHeader && Rectangular(file + buffer)
      modifies this
      ensures Valid() && closed == old(closed) && err == flushErr
      ensures file + buffer == old(file + buffer)
      ensures flushErr.None? ==> buffer == [] && healthy == old(healthy)
      ensures flushErr.Some? ==> file == old(file) && !healthy
    {
      if flushErr.None? {
        file, buffer := file + buffer, [];
        assert file == old(file + buffer);
      } else {
        healthy := false;
      }
      return flushErr;
    }

    /** `Close`: flush (its error is ignored), then close the file and report how that went. */
    method Close(flushErr: Option<string>, closeErr: Option<string>) returns (err: Option<string>)
      requires Valid()
      modifies this
      ensures Valid() && closed && err == closeErr
      ensures file + buffer == old(file + buffer)
      ensures flushErr.None? ==> buffer == []
    {
      var _ := Flush(flushErr);
      closed := true;
      return closeErr;
    }
  }

  /**
   * `NewWriter`: create the file, write the header and flush it. Failing to
   * create the file or to write the header is reported wrapped, with no writer.
   */
  method NewWriter(createErr: Option<string>, headerErr: Option<string>, flushErr: Option<string>)
    returns (r: Result<Writer, string>)
    ensures r.Ok? <==> createErr.None? && headerErr.None?
    ensures createErr.Some? ==> r == Err("failed to create metrics file: " + createErr.value)
    ensures createErr.None? && headerErr.Some? ==> r == Err("failed to write CSV header: " + headerErr.value)
    ensures r.Ok? ==> fresh(r.value) && r.value.Valid() && !r.value.closed && r.value.file + r.value.buffer == [WriterHeader]
  {
    if createErr.Some? {
      return Err("failed to create metrics file: " + createErr.value);
    }
    if headerErr.Some? {
      return Err("failed to write CSV header: " + headerErr.value);
    }
    var w := new Writer(flushErr);
    return Ok(w);
  }
}
