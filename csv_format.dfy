/**
 * What the two metrics writers share: a CSV row is a sequence of fields
 * (quoting belongs to the CSV library and is not modelled), the error cell,
 * and the formatting of times and durations, which is taken as given.
 */
module CsvFormat {
  import opened Wrappers

  type Record = seq<string>

  /**
   * The cell formats taken as given: `time` renders a Unix-millisecond
   * instant in RFC 3339 form, `millis` renders a duration given in
   * nanoseconds as its microseconds over 1000 with two decimals.
   */
  datatype Formats = Formats(time: int -> string, millis: int -> string)

  /** The error cell: empty when there is no error, the message otherwise. */
  function ErrorCell(error: Option<string>): (cell: string)
    ensures error.None? ==> cell == ""
    ensures error.Some? ==> cell == error.value
  {
    if error.Some? then error.value else ""
  }

  /**
   * The error cell is empty exactly when there is no error, provided error
   * messages are never empty.
   */
  lemma ErrorCellEmptyIff(error: Option<string>)
    requires error.Some? ==> error.value != ""
    ensures ErrorCell(error) == "" <==> error.None?
  {
  }

  /** Every row after the first has the first row's width. */
  predicate Rectangular(rows: seq<Record>) {
    forall i :: 0 <= i < |rows| ==> |rows[i]| == |rows[0]|
  }
}
