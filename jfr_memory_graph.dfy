/**
 * `jfr-to-memory-graph.py`: reading heap-summary events out of the text
 * `jfr print` produces, putting their times on a common axis, and the
 * least-squares growth rate of the heap. Times are parsed by a given
 * `strptime`; numbers are exact reals, not binary floating point.
 */
module JfrMemoryGraph {
  import opened Wrappers
  import opened Text

  const EventHeader := "jdk.GCHeapSummary"
  const StartTimeKey := "startTime = "
  const HeapUsedKey := "heapUsed = "
  const BytesPerMb: real := 1048576.0

  /** One heap summary: the time text as recorded, and the heap in use in MiB. */
  datatype Datapoint = Datapoint(timeStr: string, heapMb: real)

  /** The `current_event` dictionary: which of its two keys are set, and to what. */
  datatype PartialEvent = PartialEvent(timeStr: Option<string>, heapMb: Option<real>)

  const NoEvent := PartialEvent(None, None)

  // ---- The two regular expressions ----

  predicate StartsWith(s: string, prefix: string) {
    |prefix| <= |s| && s[..|prefix|] == prefix
  }

  /** `.` in a Python regular expression: any character but a newline. */
  predicate NotNewline(c: char) {
    c != '\n'
  }

  /** `[\d.]` with ASCII digits. */
  predicate DigitOrDot(c: char) {
    '0' <= c <= '9' || c == '.'
  }

  /** The length of the longest prefix of `s` made of `c`-characters. */
  function RunLength(s: string, c: char -> bool): (n: nat)
    ensures n <= |s| && AllOf(s[..n], c) && (n == |s| || !c(s[n]))
  {
    if s != [] && c(s[0]) then
      var n := RunLength(s[1..], c) + 1;
      assert s[..n] == [s[0]] + s[1..][..n - 1];
      n
    else 0
  }

  /** `key` followed by one or more `c`-characters matches at position `q` of `line`. */
  predicate MatchAt(line: string, key: string, c: char -> bool, q: nat) {
    q + |key| < |line| && line[q..q + |key|] == key && c(line[q + |key|])
  }

  /** What the group `(c+)` after `key` captures at a match: the longest run (the quantifier is greedy). */
  function GroupAt(line: string, key: string, c: char -> bool, q: nat): (g: string)
    requires MatchAt(line, key, c, q)
    ensures |g| >= 1 && AllOf(g, c)
  {
    var start := q + |key|;
    assert line[start..][0] == line[start];
    var n := RunLength(line[start..], c);
    assert line[start..start + n] == line[start..][..n];
    line[start..start + n]
  }

  /**
   * `re.search(key + "(c+)", line).group(1)` from position `p` on: the group
   * at the leftmost match, or `None` when there is none.
   */
  function SearchFrom(line: string, key: string, c: char -> bool, p: nat): (r: Option<string>)
    ensures r.None? ==> forall q :: p <= q ==> !MatchAt(line, key, c, q)
    ensures r.Some? ==> exists q :: p <= q && MatchAt(line, key, c, q) && r.value == GroupAt(line, key, c, q)
                                  && forall q' :: p <= q' < q ==> !MatchAt(line, key, c, q')
    ensures r.Some? ==> |r.value| >= 1 && AllOf(r.value, c)
    decreases |line| - p
  {
    if p + |key| >= |line| then None
    else if MatchAt(line, key, c, p) then Some(GroupAt(line, key, c, p))
    else SearchFrom(line, key, c, p + 1)
  }

  function Search(line: string, key: string, c: char -> bool): Option<string> {
    SearchFrom(line, key, c, 0)
  }

  // ---- Python's float() on a run of digits and dots ----

  function DigitsValue(ds: string): nat
    requires forall i :: 0 <= i < |ds| ==> '0' <= ds[i] <= '9'
  {
    if ds == [] then 0 else 10 * DigitsValue(ds[..|ds| - 1]) + (ds[|ds| - 1] as int - '0' as int)
  }

  function Pow10(k: nat): (r: nat)
    ensures r >= 1
  {
    if k == 0 then 1 else 10 * Pow10(k - 1)
  }

  /**
   * `float(s)` for `s` made of digits and dots: the number when `s` has at
   * most one dot and at least one digit, an error (Python's `ValueError`)
   * otherwise. The value is exact.
   */
  function ParseNumber(s: string): (r: Option<real>)
    requires forall i :: 0 <= i < |s| ==> DigitOrDot(s[i])
    ensures r.None? <==> (forall i :: 0 <= i < |s| ==> s[i] == '.') || exists i, j :: 0 <= i < j < |s| && s[i] == '.' && s[j] == '.'
  {
    if '.' !in s then
      if s == [] then None
      else
        forall i | 0 <= i < |s|
          ensures '0' <= s[i] <= '9'
        {
          assert DigitOrDot(s[i]) && s[i] != '.';
        }
        Some(DigitsValue(s) as real)
    else
      var d := IndexOf(s, '.');
      var whole, fraction := s[..d], s[d + 1..];
      if '.' in fraction then
        var j := IndexOf(fraction, '.');
        assert s[d + 1 + j] == '.';
        None
      else if whole == [] && fraction == [] then None
      else
        assert forall i :: 0 <= i < |s| && i != d ==> s[i] != '.' by {
          forall i | 0 <= i < |s| && i != d
            ensures s[i] != '.'
          {
            if i < d { assert s[i] == whole[i]; } else { assert s[i] == fraction[i - d - 1]; }
          }
        }
        assert |s| >= 2;
        assert s[if d == 0 then 1 else 0] != '.';
        forall i | 0 <= i < |s| && i != d
          ensures '0' <= s[i] <= '9'
        {
          assert DigitOrDot(s[i]);
        }
        assert forall i :: 0 <= i < |whole| ==> whole[i] == s[i];
        assert forall i :: 0 <= i < |fraction| ==> fraction[i] == s[d + 1 + i];
        Some(DigitsValue(whole) as real + DigitsValue(fraction) as real / Pow10(|fraction|) as real)
  }

  // ---- parse_jfr_output ----

  /** What one line does: the event being collected afterwards, and the datapoint it completes, if any. */
  datatype LineStep = LineStep(current: PartialEvent, emitted: Option<Datapoint>)

  /**
   * One iteration of the loop of `parse_jfr_output`. The stripped line may
   * start a new event (dropping the one being collected), set the time,
   * set the heap size, and, when it is a lone closing brace, complete the
   * event. A heap size that `float()` refuses ends the parse with an error
   * carrying the refused text.
   */
  function StepLine(current: PartialEvent, rawLine: string): (r: Result<LineStep, string>)
    ensures r.Ok? ==> (r.value.emitted.Some? <==> Strip(rawLine) == "}" && current.timeStr.Some? && current.heapMb.Some?)
    ensures r.Ok? && r.value.emitted.Some? ==> r.value.emitted.value == Datapoint(current.timeStr.value, current.heapMb.value)
    ensures r.Ok? && Strip(rawLine) == "}" ==> r.value.current == NoEvent
    ensures r.Ok? && Search(Strip(rawLine), StartTimeKey, NotNewline).Some? ==>
      r.value.current.timeStr == Some(Strip(Search(Strip(rawLine), StartTimeKey, NotNewline).value))
    ensures Search(Strip(rawLine), HeapUsedKey, DigitOrDot).Some? ==>
      var text := Search(Strip(rawLine), HeapUsedKey, DigitOrDot).value;
      match ParseNumber(text)
      case None => r == Err(text)
      case Some(bytes) => r.Ok? && r.value.current.heapMb == Some(bytes / BytesPerMb)
    ensures Search(Strip(rawLine), HeapUsedKey, DigitOrDot).None? ==> r.Ok?
    ensures (r.Ok? && Strip(rawLine) != "}" && !StartsWith(Strip(rawLine), EventHeader)
             && Search(Strip(rawLine), StartTimeKey, NotNewline).None?) ==>
      r.value.current.timeStr == current.timeStr
    ensures (r.Ok? && Strip(rawLine) != "}" && !StartsWith(Strip(rawLine), EventHeader)
             && Search(Strip(rawLine), HeapUsedKey, DigitOrDot).None?) ==>
      r.value.current.heapMb == current.heapMb
    ensures (r.Ok? && StartsWith(Strip(rawLine), EventHeader)
             && Search(Strip(rawLine), StartTimeKey, NotNewline).None?) ==>
      r.value.current.timeStr == None
    ensures (r.Ok? && StartsWith(Strip(rawLine), EventHeader)
             && Search(Strip(rawLine), HeapUsedKey, DigitOrDot).None?) ==>
      r.value.current.heapMb == None
  {
    var line := Strip(rawLine);
    var afterHeader := if StartsWith(line, EventHeader) then NoEvent else current;
    var timeMatch := Search(line, StartTimeKey, NotNewline);
    var afterTime := if timeMatch.Some? then afterHeader.(timeStr := Some(Strip(timeMatch.value))) else afterHeader;
    var heapMatch := Search(line, HeapUsedKey, DigitOrDot);
    if heapMatch.Some? && ParseNumber(heapMatch.value).None? then Err(heapMatch.value)
    else
      var afterHeap :=
        if heapMatch.Some? then afterTime.(heapMb := Some(ParseNumber(heapMatch.value).value / BytesPerMb))
        else afterTime;
      if line == "}" && afterHeap != NoEvent then
        var complete := afterHeap.timeStr.Some? && afterHeap.heapMb.Some?;
        Ok(LineStep(NoEvent, if complete then Some(Datapoint(afterHeap.timeStr.value, afterHeap.heapMb.value)) else None))
      else
        Ok(LineStep(afterHeap, None))
  }

  /** The loop's state after some lines: the datapoints so far and the event being collected. */
  datatype ScanState = ScanState(datapoints: seq<Datapoint>, current: PartialEvent)

  /** The state after one more line's outcome: its datapoint, if any, appended, or its error. */
  function Advance(st: ScanState, step: Result<LineStep, string>): Result<ScanState, string> {
    match step
    case Err(e) => Err(e)
    case Ok(s) => Ok(ScanState(st.datapoints + (if s.emitted.Some? then [s.emitted.value] else []), s.current))
  }

  /** The loop of `parse_jfr_output` as a fold over `lines`, for a given per-line step: the state afterwards, or the first error. */
  function ScanWith(lines: seq<string>, step: (PartialEvent, string) -> Result<LineStep, string>): Result<ScanState, string> {
    if lines == [] then Ok(ScanState([], NoEvent))
    else
      match ScanWith(lines[..|lines| - 1], step)
      case Err(e) => Err(e)
      case Ok(st) => Advance(st, step(st.current, lines[|lines| - 1]))
  }

  /** The state after `lines`, or the first error. */
  function Scan(lines: seq<string>): Result<ScanState, string> {
    ScanWith(lines, StepLine)
  }

  /** One more line advances the state the previous lines left. */
  lemma ScanNext(lines: seq<string>, i: nat, step: (PartialEvent, string) -> Result<LineStep, string>, st: ScanState)
    requires i < |lines| && ScanWith(lines[..i], step) == Ok(st)
    ensures ScanWith(lines[..i + 1], step) == Advance(st, step(st.current, lines[i]))
  {
    assert lines[..i + 1][..i] == lines[..i];
  }

  /** What `parse_jfr_output` returns for `lines`. */
  function ParseJfr(lines: seq<string>): Result<seq<Datapoint>, string> {
    match Scan(lines)
    case Ok(st) => Ok(st.datapoints)
    case Err(e) => Err(e)
  }

  /** An error ends the parse: once a prefix has failed, the whole input fails the same way. */
  lemma {:induction false} ScanErrSticky(lines: seq<string>, j: nat)
    requires j <= |lines| && Scan(lines[..j]).Err?
    ensures Scan(lines) == Scan(lines[..j])
  {
    if j < |lines| {
      var init := lines[..|lines| - 1];
      assert init[..j] == lines[..j];
      ScanErrSticky(init, j);
    } else {
      assert lines[..j] == lines;
    }
  }

  /** `parse_jfr_output`. */
  method ParseJfrOutput(lines: seq<string>) returns (r: Result<seq<Datapoint>, string>)
    ensures r == ParseJfr(lines)
  {
    var datapoints: seq<Datapoint> := [];
    var currentEvent := NoEvent;
    for i := 0 to |lines|
      invariant Scan(lines[..i]) == Ok(ScanState(datapoints, currentEvent))
    {
      ghost var before := ScanState(datapoints, currentEvent);
      var step := ProcessLine(currentEvent, lines[i]);
      ScanNext(lines, i, StepLine, before);
      assert Scan(lines[..i + 1]) == Advance(before, step);
      if step.Err? {
        ScanErrSticky(lines, i + 1);
        return Err(step.error);
      }
      if step.value.emitted.Some? {
        datapoints := datapoints + [step.value.emitted.value];
      } else {
        assert datapoints + [] == datapoints;
      }
      currentEvent := step.value.current;
      assert Advance(before, step) == Ok(ScanState(datapoints, currentEvent));
    }
    assert lines[..|lines|] == lines;
    return Ok(datapoints);
  }

  /** The body of the loop of `parse_jfr_output`, updating the event being collected in place. */
  method ProcessLine(current: PartialEvent, rawLine: string) returns (r: Result<LineStep, string>)
    ensures r == StepLine(current, rawLine)
  {
    var currentEvent := current;
    var line := Strip(rawLine);
    if StartsWith(line, EventHeader) {
      currentEvent := NoEvent;
    }
    var timeMatch := Search(line, StartTimeKey, NotNewline);
    if timeMatch.Some? {
      currentEvent := currentEvent.(timeStr := Some(Strip(timeMatch.value)));
    }
    var heapMatch := Search(line, HeapUsedKey, DigitOrDot);
    if heapMatch.Some? {
      var heapBytes := ParseNumber(heapMatch.value);
      if heapBytes.None? {
        return Err(heapMatch.value);
      }
      currentEvent := currentEvent.(heapMb := Some(heapBytes.value / BytesPerMb));
    }
    var emitted := None;
    if line == "}" && currentEvent != NoEvent {
      if currentEvent.timeStr.Some? && currentEvent.heapMb.Some? {
        emitted := Some(Datapoint(currentEvent.timeStr.value, currentEvent.heapMb.value));
      }
      currentEvent := NoEvent;
    }
    return Ok(LineStep(currentEvent, emitted));
  }

  /** How many lines are a lone closing brace once stripped. */
  function ClosingLines(lines: seq<string>): nat {
    if lines == [] then 0
    else ClosingLines(lines[..|lines| - 1]) + (if Strip(lines[|lines| - 1]) == "}" then 1 else 0)
  }

  /** No more datapoints than closing braces: each is emitted by one. */
  lemma {:induction false} DatapointsBound(lines: seq<string>)
    requires Scan(lines).Ok?
    ensures |Scan(lines).value.datapoints| <= ClosingLines(lines)
  {
    if lines != [] {
      var init := lines[..|lines| - 1];
      if Scan(init).Ok? {
        DatapointsBound(init);
      }
    }
  }

  /** A line that starts a new event makes whatever was collected before it irrelevant. */
  lemma HeaderResets(c1: PartialEvent, c2: PartialEvent, rawLine: string)
    requires StartsWith(Strip(rawLine), EventHeader)
    ensures StepLine(c1, rawLine) == StepLine(c2, rawLine)
  {
    assert Strip(rawLine) != "}";
  }

  /**
   * An event spread over lines as `jfr print` writes it: a line with the time,
   * a later line with the heap size, then the closing brace. The three steps
   * emit the datapoint made of that time and heap size, and reset the event.
   */
  lemma {:induction false} EventAcrossLines(current: PartialEvent, timeLine: string, heapLine: string, closeLine: string)
    requires Strip(timeLine) != "}" && Search(Strip(timeLine), StartTimeKey, NotNewline).Some?
    requires Search(Strip(timeLine), HeapUsedKey, DigitOrDot).None?
    requires Strip(heapLine) != "}" && !StartsWith(Strip(heapLine), EventHeader)
    requires Search(Strip(heapLine), StartTimeKey, NotNewline).None?
    requires Search(Strip(heapLine), HeapUsedKey, DigitOrDot).Some?
    requires ParseNumber(Search(Strip(heapLine), HeapUsedKey, DigitOrDot).value).Some?
    requires Strip(closeLine) == "}"
    ensures StepLine(current, timeLine).Ok?
    ensures StepLine(StepLine(current, timeLine).value.current, heapLine).Ok?
    ensures StepLine(StepLine(StepLine(current, timeLine).value.current, heapLine).value.current, closeLine)
      == Ok(LineStep(NoEvent, Some(Datapoint(
           Strip(Search(Strip(timeLine), StartTimeKey, NotNewline).value),
           ParseNumber(Search(Strip(heapLine), HeapUsedKey, DigitOrDot).value).value / BytesPerMb))))
  {
    var afterTime := StepLine(current, timeLine).value.current;
    var afterHeap := StepLine(afterTime, heapLine).value.current;
    assert afterHeap.timeStr == afterTime.timeStr;
  }

  // ---- normalize_timestamps ----

  /** The two `strptime` formats, tried in this order: `%H:%M:%S.%f`, then `%Y-%m-%dT%H:%M:%S.%fZ`. */
  datatype TimeFormat = ClockFormat | IsoFormat

  const TimeFormats: seq<TimeFormat> := [ClockFormat, IsoFormat]

  /** `datetime.strptime` as far as it matters here: the seconds a time string gives in a format, or `None` for its `ValueError`. */
  type Strptime = (string, TimeFormat) -> Option<real>

  /** A point on the graph: seconds since the first sample, and heap in MiB. */
  datatype TimedPoint = TimedPoint(seconds: real, heapMb: real)

  /** The time the first format in `formats` that accepts `s` gives it, if any does. */
  function FirstParse(s: string, formats: seq<TimeFormat>, strptime: Strptime): (r: Option<real>)
    ensures r.None? <==> forall k :: 0 <= k < |formats| ==> strptime(s, formats[k]).None?
  {
    if formats == [] then None
    else
      match strptime(s, formats[0])
      case Some(t) => Some(t)
      case None =>
        assert forall k :: 1 <= k < |formats| ==> formats[k] == formats[1..][k - 1];
        FirstParse(s, formats[1..], strptime)
  }

  /** The fallback: the i-th sample is placed at i seconds. */
  function Indexed(datapoints: seq<Datapoint>): (r: seq<TimedPoint>)
    ensures |r| == |datapoints|
    ensures forall i :: 0 <= i < |r| ==> r[i] == TimedPoint(i as real, datapoints[i].heapMb)
  {
    seq(|datapoints|, i requires 0 <= i < |datapoints| => TimedPoint(i as real, datapoints[i].heapMb))
  }

  /** The samples whose time reads in the clock format, placed relative to `start`, in order. */
  function ClockPoints(datapoints: seq<Datapoint>, start: real, strptime: Strptime): seq<TimedPoint> {
    if datapoints == [] then []
    else
      var last := datapoints[|datapoints| - 1];
      var rest := ClockPoints(datapoints[..|datapoints| - 1], start, strptime);
      match strptime(last.timeStr, ClockFormat)
      case Some(t) => rest + [TimedPoint(t - start, last.heapMb)]
      case None => rest
  }

  /**
   * What `normalize_timestamps` returns. The first sample's time is read
   * with each format in turn; if none reads it, the samples are placed at
   * 0, 1, 2, … seconds. Otherwise every sample is read with the clock format
   * only, whichever format read the first, and those it refuses are dropped.
   * Never more points than samples, and a recording that starts with a
   * clock-format time starts at 0 with its first sample.
   */
  function Normalize(datapoints: seq<Datapoint>, strptime: Strptime): (r: seq<TimedPoint>)
    ensures |r| <= |datapoints|
    ensures datapoints != [] && strptime(datapoints[0].timeStr, ClockFormat).Some? ==>
      r != [] && r[0] == TimedPoint(0.0, datapoints[0].heapMb)
  {
    if datapoints == [] then []
    else
      match FirstParse(datapoints[0].timeStr, TimeFormats, strptime)
      case None => Indexed(datapoints)
      case Some(start) =>
        ClockPointsBound(datapoints, start, strptime);
        if strptime(datapoints[0].timeStr, ClockFormat).Some? then
          ClockPointsFirst(datapoints, start, strptime);
          ClockPoints(datapoints, start, strptime)
        else ClockPoints(datapoints, start, strptime)
  }

  /** `normalize_timestamps`, with its two loops. */
  method NormalizeTimestamps(datapoints: seq<Datapoint>, strptime: Strptime)
    returns (normalized: seq<TimedPoint>)
    ensures normalized == Normalize(datapoints, strptime)
  {
    if datapoints == [] {
      return [];
    }
    var firstTime: Option<real> := None;
    for k := 0 to |TimeFormats|
      invariant firstTime == FirstParse(datapoints[0].timeStr, TimeFormats[..k], strptime)
      invariant firstTime.Some? ==> firstTime == FirstParse(datapoints[0].timeStr, TimeFormats, strptime)
    {
      if firstTime.None? {
        firstTime := strptime(datapoints[0].timeStr, TimeFormats[k]);
      }
    }
    if firstTime.None? {
      return Indexed(datapoints);
    }
    normalized := [];
    for i := 0 to |datapoints|
      invariant normalized == ClockPoints(datapoints[..i], firstTime.value, strptime)
    {
      assert datapoints[..i + 1][..i] == datapoints[..i];
      var t := strptime(datapoints[i].timeStr, TimeFormats[0]);
      if t.Some? {
        normalized := normalized + [TimedPoint(t.value - firstTime.value, datapoints[i].heapMb)];
      }
    }
    assert datapoints[..|datapoints|] == datapoints;
  }

  /** The first sample, when the clock format reads it, is the first point. */
  lemma {:induction false} ClockPointsFirst(datapoints: seq<Datapoint>, start: real, strptime: Strptime)
    requires datapoints != [] && strptime(datapoints[0].timeStr, ClockFormat).Some?
    ensures ClockPoints(datapoints, start, strptime) != []
    ensures ClockPoints(datapoints, start, strptime)[0]
      == TimedPoint(strptime(datapoints[0].timeStr, ClockFormat).value - start, datapoints[0].heapMb)
  {
    if |datapoints| > 1 {
      var init := datapoints[..|datapoints| - 1];
      assert init[0] == datapoints[0];
      ClockPointsFirst(init, start, strptime);
    }
  }

  /** Dropping samples never adds points. */
  lemma {:induction false} ClockPointsBound(datapoints: seq<Datapoint>, start: real, strptime: Strptime)
    ensures |ClockPoints(datapoints, start, strptime)| <= |datapoints|
  {
    if datapoints != [] {
      ClockPointsBound(datapoints[..|datapoints| - 1], start, strptime);
    }
  }

  /**
   * A recording whose times are all in the ISO form (none reads in the
   * clock format) yields no points at all, though its first time was read.
   */
  lemma {:induction false} IsoRecordingIsEmpty(datapoints: seq<Datapoint>, start: real, strptime: Strptime)
    requires forall i :: 0 <= i < |datapoints| ==> strptime(datapoints[i].timeStr, ClockFormat).None?
    ensures ClockPoints(datapoints, start, strptime) == []
  {
    if datapoints != [] {
      var init := datapoints[..|datapoints| - 1];
      assert forall i :: 0 <= i < |init| ==> init[i] == datapoints[i];
      IsoRecordingIsEmpty(init, start, strptime);
    }
  }

  /**
   * When every time reads in the clock format, every sample is kept, in
   * order, at its offset from `start`; with `start` the first sample's time
   * the first point is at 0.
   */
  lemma {:induction false} ClockRecordingKeepsAll(datapoints: seq<Datapoint>, start: real, strptime: Strptime)
    requires forall i :: 0 <= i < |datapoints| ==> strptime(datapoints[i].timeStr, ClockFormat).Some?
    ensures |ClockPoints(datapoints, start, strptime)| == |datapoints|
    ensures forall i :: 0 <= i < |datapoints| ==>
      ClockPoints(datapoints, start, strptime)[i]
        == TimedPoint(strptime(datapoints[i].timeStr, ClockFormat).value - start, datapoints[i].heapMb)
  {
    if datapoints != [] {
      var init := datapoints[..|datapoints| - 1];
      assert forall i :: 0 <= i < |init| ==> init[i] == datapoints[i];
      ClockRecordingKeepsAll(init, start, strptime);
    }
  }

  // ---- calculate_growth_rate ----

  /** The slope in MiB per minute, and the first and last heap sizes. */
  datatype Growth = Growth(slopePerMinute: real, initialMb: real, finalMb: real)

  function SumT(ps: seq<TimedPoint>): real {
    if ps == [] then 0.0 else SumT(ps[..|ps| - 1]) + ps[|ps| - 1].seconds
  }

  function SumH(ps: seq<TimedPoint>): real {
    if ps == [] then 0.0 else SumH(ps[..|ps| - 1]) + ps[|ps| - 1].heapMb
  }

  // The per-sample products are named so that the solver treats them as
  // single terms until an algebra lemma below needs their value.

  function Sq(x: real): real {
    x * x
  }

  function Moment(p: TimedPoint): real {
    p.seconds * p.heapMb
  }

  function SumTH(ps: seq<TimedPoint>): real {
    if ps == [] then 0.0 else SumTH(ps[..|ps| - 1]) + Moment(ps[|ps| - 1])
  }

  function SumTT(ps: seq<TimedPoint>): real {
    if ps == [] then 0.0 else SumTT(ps[..|ps| - 1]) + Sq(ps[|ps| - 1].seconds)
  }

  /** `n * sum_xy - sum_x * sum_y`, the shape of both terms of the slope. */
  function Cross(n: real, sxy: real, sx: real, sy: real): real {
    n * sxy - sx * sy
  }

  /** `n * sum_x2 - sum_x * sum_x`. */
  function Denominator(ps: seq<TimedPoint>): real {
    Cross(|ps| as real, SumTT(ps), SumT(ps), SumT(ps))
  }

  /** `n * sum_xy - sum_x * sum_y`. */
  function Numerator(ps: seq<TimedPoint>): real {
    Cross(|ps| as real, SumTH(ps), SumT(ps), SumH(ps))
  }

  /**
   * `calculate_growth_rate`, in exact arithmetic: the least-squares slope
   * of heap against time, per minute, with no slope when all times coincide.
   */
  function GrowthRate(ps: seq<TimedPoint>): (g: Growth)
    ensures |ps| < 2 ==> g == Growth(0.0, 0.0, 0.0)
    ensures |ps| >= 2 ==> g.initialMb == ps[0].heapMb && g.finalMb == ps[|ps| - 1].heapMb
    ensures |ps| >= 2 && Denominator(ps) == 0.0 ==> g.slopePerMinute == 0.0
  {
    if |ps| < 2 then Growth(0.0, 0.0, 0.0)
    else
      var denominator := Denominator(ps);
      var slopePerSecond := if denominator == 0.0 then 0.0 else Numerator(ps) / denominator;
      Growth(slopePerSecond * 60.0, ps[0].heapMb, ps[|ps| - 1].heapMb)
  }

  /** The same sum of squared distances, from the count, the sum and the sum of squares of the times. */
  function SqDevFromSums(n: real, st: real, q: real, x: real): real {
    q - 2.0 * x * st + n * x * x
  }

  /** The squared distances of the times in `ps` from `x`, summed. */
  function SqDev(ps: seq<TimedPoint>, x: real): real {
    if ps == [] then 0.0
    else SqDev(ps[..|ps| - 1], x) + Sq(ps[|ps| - 1].seconds - x)
  }

  // Ring identities over plain reals, kept apart from the sums so that the
  // solver sees only arithmetic; each takes the new values as parameters.

  lemma SqDevAlgebra(sq: real, q: real, st: real, n: real, t: real, x: real,
                     sq': real, q': real, st': real, n': real)
    requires sq == SqDevFromSums(n, st, q, x)
    requires sq' == sq + Sq(t - x) && q' == q + Sq(t) && st' == st + t && n' == n + 1.0
    ensures sq' == SqDevFromSums(n', st', q', x)
  {
  }

  lemma DenominatorAlgebra(n: real, st: real, q: real, x: real, n': real, st': real, q': real)
    requires n' == n + 1.0 && st' == st + x && q' == q + Sq(x)
    ensures Cross(n', q', st', st') == Cross(n, q, st, st) + SqDevFromSums(n, st, q, x)
  {
  }

  // The solver loses track of a product once it is equated with another
  // term, so each step below is taken as its own calculation step.

  lemma SquarePositive(d: real)
    requires d != 0.0
    ensures Sq(d) > 0.0
  {
    if d < 0.0 {
      calc {
        Sq(d);
      ==
        (-d) * (-d);
      >
        0.0;
      }
    } else {
      calc {
        Sq(d);
      ==
        d * d;
      >
        0.0;
      }
    }
  }

  /** Adding a square to a non-negative sum keeps it non-negative, and zero only when both parts are. */
  lemma SquareSumStep(prev: real, d: real, total: real)
    requires prev >= 0.0 && total == prev + Sq(d)
    ensures total >= 0.0
    ensures total == 0.0 <==> prev == 0.0 && d == 0.0
  {
    if d == 0.0 {
      assert Sq(d) == 0.0;
    } else {
      SquarePositive(d);
    }
  }

  /** The sum of `a + b * t` over `n` times whose sum is `st`. */
  function LineSum(n: real, st: real, a: real, b: real): real {
    n * a + b * st
  }

  /** The sum of `t * (a + b * t)` over times whose sum is `st` and sum of squares `q`. */
  function LineMoment(st: real, q: real, a: real, b: real): real {
    a * st + b * q
  }

  lemma LinearAlgebra(n: real, a: real, b: real, st: real, q: real, sh: real, sth: real, p: TimedPoint,
                      n': real, st': real, q': real, sh': real, sth': real)
    requires sh == LineSum(n, st, a, b) && sth == LineMoment(st, q, a, b) && OnLine(p, a, b)
    requires n' == n + 1.0 && st' == st + p.seconds && q' == q + Sq(p.seconds)
    requires sh' == sh + p.heapMb && sth' == sth + Moment(p)
    ensures sh' == LineSum(n', st', a, b)
    ensures sth' == LineMoment(st', q', a, b)
  {
  }

  lemma NumeratorAlgebra(n: real, a: real, b: real, st: real, q: real, sh: real, sth: real)
    requires sh == LineSum(n, st, a, b) && sth == LineMoment(st, q, a, b)
    ensures Cross(n, sth, st, sh) == b * Cross(n, q, st, st)
  {
  }

  lemma SlopeAlgebra(n: real, a: real, b: real, st: real, q: real, sh: real, sth: real, num: real, den: real)
    requires sh == LineSum(n, st, a, b) && sth == LineMoment(st, q, a, b)
    requires num == Cross(n, sth, st, sh) && den == Cross(n, q, st, st) && den != 0.0
    ensures num / den * 60.0 == 60.0 * b
  {
    NumeratorAlgebra(n, a, b, st, q, sh, sth);
    calc {
      num / den * 60.0;
    ==
      (b * den) / den * 60.0;
    ==
      60.0 * b;
    }
  }

  lemma {:induction false} SqDevExpand(ps: seq<TimedPoint>, x: real)
    ensures SqDev(ps, x) == SqDevFromSums(|ps| as real, SumT(ps), SumTT(ps), x)
  {
    if ps != [] {
      var init := ps[..|ps| - 1];
      SqDevExpand(init, x);
      SqDevAlgebra(SqDev(init, x), SumTT(init), SumT(init), |init| as real, ps[|ps| - 1].seconds, x,
                   SqDev(ps, x), SumTT(ps), SumT(ps), |ps| as real);
    }
  }

  /** Every sample of `ps` was taken at time `x`. */
  predicate AllAt(ps: seq<TimedPoint>, x: real) {
    forall i :: 0 <= i < |ps| ==> ps[i].seconds == x
  }

  lemma AllAtSnoc(ps: seq<TimedPoint>, p: TimedPoint, x: real)
    ensures AllAt(ps + [p], x) <==> AllAt(ps, x) && p.seconds == x
  {
    var all := ps + [p];
    if AllAt(ps, x) && p.seconds == x {
      forall i | 0 <= i < |all|
        ensures all[i].seconds == x
      {
        if i < |ps| {
          assert all[i] == ps[i];
        }
      }
    }
    if AllAt(all, x) {
      assert all[|ps|] == p;
      forall i | 0 <= i < |ps|
        ensures ps[i].seconds == x
      {
        assert all[i] == ps[i];
      }
    }
  }

  /** A sum of squares is zero exactly when every time equals `x`. */
  lemma {:induction false} SqDevZero(ps: seq<TimedPoint>, x: real)
    ensures SqDev(ps, x) >= 0.0
    ensures SqDev(ps, x) == 0.0 <==> AllAt(ps, x)
  {
    if ps != [] {
      var init := ps[..|ps| - 1];
      var t := ps[|ps| - 1].seconds;
      SqDevZero(init, x);
      AllAtSnoc(init, ps[|ps| - 1], x);
      assert ps == init + [ps[|ps| - 1]];
      SquareSumStep(SqDev(init, x), t - x, SqDev(ps, x));
    }
  }

  /** Adding a point adds its squared distances from the others to the denominator. */
  lemma DenominatorStep(ps: seq<TimedPoint>, p: TimedPoint)
    ensures Denominator(ps + [p]) == Denominator(ps) + SqDev(ps, p.seconds)
  {
    var all := ps + [p];
    assert all[..|all| - 1] == ps;
    SqDevExpand(ps, p.seconds);
    DenominatorAlgebra(|ps| as real, SumT(ps), SumTT(ps), p.seconds, |all| as real, SumT(all), SumTT(all));
  }

  /** The denominator is zero exactly when all times coincide, and never negative. */
  lemma {:induction false} DenominatorZeroIff(ps: seq<TimedPoint>)
    requires ps != []
    ensures Denominator(ps) >= 0.0
    ensures Denominator(ps) == 0.0 <==> AllAt(ps, ps[0].seconds)
  {
    if |ps| == 1 {
      DenominatorSingle(ps);
    } else {
      var init := ps[..|ps| - 1];
      DenominatorZeroIff(init);
      DenominatorZeroStep(init, ps[|ps| - 1], ps);
    }
  }

  /** A single sample has a zero denominator and trivially one time. */
  lemma DenominatorSingle(ps: seq<TimedPoint>)
    requires |ps| == 1
    ensures Denominator(ps) == 0.0 && AllAt(ps, ps[0].seconds)
  {
    assert ps == [] + [ps[0]];
    DenominatorStep([], ps[0]);
  }

  /** The inductive step of `DenominatorZeroIff`: one more sample. */
  lemma DenominatorZeroStep(init: seq<TimedPoint>, p: TimedPoint, ps: seq<TimedPoint>)
    requires init != [] && ps == init + [p]
    requires Denominator(init) >= 0.0
    requires Denominator(init) == 0.0 <==> AllAt(init, init[0].seconds)
    ensures Denominator(ps) >= 0.0
    ensures Denominator(ps) == 0.0 <==> AllAt(ps, ps[0].seconds)
  {
    var x := init[0].seconds;
    assert ps[0] == init[0];
    DenominatorStep(init, p);
    SqDevZero(init, p.seconds);
    AllAtSnoc(init, p, x);
    NonNegativeSum(Denominator(ps), Denominator(init), SqDev(init, p.seconds));
    assert AllAt(init, x) && AllAt(init, p.seconds) <==> AllAt(init, x) && p.seconds == x;
  }

  lemma NonNegativeSum(total: real, u: real, v: real)
    requires total == u + v && u >= 0.0 && v >= 0.0
    ensures total >= 0.0
    ensures total == 0.0 <==> u == 0.0 && v == 0.0
  {
  }

  /** The sample lies on the line `heap = a + b * t`. */
  predicate OnLine(p: TimedPoint, a: real, b: real)
  {
    p.heapMb == a + b * p.seconds
  }

  /** Every sample of `ps` lies on the line, stated element by element from the back. */
  predicate AllOnLine(ps: seq<TimedPoint>, a: real, b: real) {
    ps == [] || (AllOnLine(ps[..|ps| - 1], a, b) && OnLine(ps[|ps| - 1], a, b))
  }

  lemma {:induction false} AllOnLineFrom(ps: seq<TimedPoint>, a: real, b: real)
    requires forall i :: 0 <= i < |ps| ==> OnLine(ps[i], a, b)
    ensures AllOnLine(ps, a, b)
  {
    if ps != [] {
      var init := ps[..|ps| - 1];
      assert forall i :: 0 <= i < |init| ==> init[i] == ps[i];
      AllOnLineFrom(init, a, b);
    }
  }

  lemma {:induction false} LinearSums(ps: seq<TimedPoint>, a: real, b: real)
    requires AllOnLine(ps, a, b)
    ensures SumH(ps) == LineSum(|ps| as real, SumT(ps), a, b)
    ensures SumTH(ps) == LineMoment(SumT(ps), SumTT(ps), a, b)
  {
    if ps != [] {
      var init := ps[..|ps| - 1];
      LinearSums(init, a, b);
      LinearAlgebra(|init| as real, a, b, SumT(init), SumTT(init), SumH(init), SumTH(init), ps[|ps| - 1],
                    |ps| as real, SumT(ps), SumTT(ps), SumH(ps), SumTH(ps));
    }
  }

  /**
   * Samples lying on a line `heap = a + b * t`, at two or more distinct
   * times, give back that line's slope, per minute.
   */
  lemma LinearTrend(ps: seq<TimedPoint>, a: real, b: real)
    requires |ps| >= 2
    requires forall i :: 0 <= i < |ps| ==> OnLine(ps[i], a, b)
    requires !AllAt(ps, ps[0].seconds)
    ensures GrowthRate(ps).slopePerMinute == 60.0 * b
  {
    DenominatorZeroIff(ps);
    assert Denominator(ps) != 0.0;
    AllOnLineFrom(ps, a, b);
    LinearSums(ps, a, b);
    SlopeAlgebra(|ps| as real, a, b, SumT(ps), SumTT(ps), SumH(ps), SumTH(ps), Numerator(ps), Denominator(ps));
  }

  /** Samples all taken at the same time have no slope. */
  lemma SameTimeNoSlope(ps: seq<TimedPoint>)
    requires |ps| >= 2
    requires AllAt(ps, ps[0].seconds)
    ensures GrowthRate(ps).slopePerMinute == 0.0
  {
    DenominatorZeroIff(ps);
  }
}
