/**
 * One simulated viewer: derive the WebSocket stream URL from the target URL,
 * connect, and turn every frame read from the stream into a `ViewerResult`.
 *
 * URL parsing, dialling, setting deadlines, reading frames and JSON decoding
 * belong to libraries; their outcomes are inputs here. The read loop consumes
 * a sequence of `Step`s, one per loop iteration, each saying what the
 * context, the deadline call and the read returned on that iteration.
 */
module Viewer {
  import opened Wrappers
  import opened Text

  // Timeouts, in seconds.
  const ConnectTimeout := 10
  const ReadTimeout := 60
  const WriteTimeout := 10
  const PongWait := 60
  const PingPeriod := 54

  const StreamPathPrefix := "/skatingEvents/"
  const StreamPathSuffix := "/stream"

  // WebSocket close codes that end the stream quietly (section 7.4.1 of RFC 6455).
  const CloseNormalClosure := 1000
  const CloseGoingAway := 1001

  /** The keepalive ping is always sent before the pong wait runs out. */
  lemma PingBeforePongWait()
    ensures 0 < PingPeriod < PongWait
  {
  }

  /** The parts of a parsed `net/url` URL that the viewer reads. */
  datatype ParsedUrl = ParsedUrl(scheme: string, host: string, path: string)

  datatype UrlError =
    | ParseFailed(cause: string)    // `url.Parse` rejected the base URL
    | BadScheme(scheme: string)     // neither http nor https

  function UrlErrorMessage(e: UrlError): string {
    match e
    case ParseFailed(cause) => cause
    case BadScheme(scheme) => "invalid URL scheme: " + scheme + " (must be http or https)"
  }

  /** The stream endpoint of one event. */
  function StreamPath(eventID: string): string {
    StreamPathPrefix + eventID + StreamPathSuffix
  }

  /** The WebSocket scheme for an HTTP scheme (section 3 of RFC 6455). */
  function StreamScheme(scheme: string): (r: Option<string>)
    ensures r.Some? <==> scheme == "http" || scheme == "https"
    ensures scheme == "http" ==> r == Some("ws")
    ensures scheme == "https" ==> r == Some("wss")
  {
    if scheme == "http" then Some("ws")
    else if scheme == "https" then Some("wss")
    else None
  }

  /**
   * `buildWebSocketURL`: `<ws|wss>://<host>/skatingEvents/<eventID>/stream`.
   * `parsed` is what `url.Parse` returned for the base URL.
   */
  function BuildWebSocketURL(parsed: Result<ParsedUrl, string>, eventID: string): (r: Result<string, UrlError>)
    ensures r.Ok? <==> parsed.Ok? && StreamScheme(parsed.value.scheme).Some?
    ensures parsed.Err? ==> r == Err(ParseFailed(parsed.error))
    ensures parsed.Ok? && StreamScheme(parsed.value.scheme).None? ==> r == Err(BadScheme(parsed.value.scheme))
  {
    match parsed
    case Err(cause) => Err(ParseFailed(cause))
    case Ok(u) =>
      match StreamScheme(u.scheme)
      case None => Err(BadScheme(u.scheme))
      case Some(ws) => Ok(ws + "://" + u.host + StreamPath(eventID))
  }

  /** What a stream URL names: whether it is secure, its host and its event. */
  datatype StreamTarget = StreamTarget(secure: bool, host: string, eventID: string)

  /**
   * Reads a stream URL back into its parts; `None` for anything that is not
   * `ws://` or `wss://`, a host without `/`, and the stream path.
   */
  function ParseStreamURL(s: string): Option<StreamTarget> {
    if |s| >= 6 && s[..6] == "wss://" then ParseHostAndPath(true, s[6..])
    else if |s| >= 5 && s[..5] == "ws://" then ParseHostAndPath(false, s[5..])
    else None
  }

  /** Splits `<host>/skatingEvents/<eventID>/stream` at its first `/`. */
  function ParseHostAndPath(secure: bool, rest: string): Option<StreamTarget> {
    if '/' !in rest then None
    else
      var i := IndexOf(rest, '/');
      var path := rest[i..];
      if |path| >= |StreamPathPrefix| + |StreamPathSuffix| && path[..|StreamPathPrefix|] == StreamPathPrefix
         && path[|path| - |StreamPathSuffix|..] == StreamPathSuffix
      then Some(StreamTarget(secure, rest[..i], path[|StreamPathPrefix|..|path| - |StreamPathSuffix|]))
      else None
  }

  lemma HostAndPathRoundTrip(secure: bool, host: string, eventID: string)
    requires '/' !in host
    ensures ParseHostAndPath(secure, host + StreamPath(eventID)) == Some(StreamTarget(secure, host, eventID))
  {
    var path := StreamPath(eventID);
    var rest := host + path;
    assert rest[|host|] == '/';
    var i := IndexOf(rest, '/');
    assert rest[..|host|] == host;
    assert i == |host|;
    assert rest[i..] == path;
    assert path[..|StreamPathPrefix|] == StreamPathPrefix;
    assert path[|path| - |StreamPathSuffix|..] == StreamPathSuffix;
    assert path[|StreamPathPrefix|..|path| - |StreamPathSuffix|] == eventID;
  }

  /**
   * Round trip: the built URL names exactly the base URL's host (any base
   * path is discarded), the event, and a secure stream iff the base URL was
   * https. `net/url` never puts `/` in a host.
   */
  lemma BuildThenParse(u: ParsedUrl, eventID: string)
    requires u.scheme == "http" || u.scheme == "https"
    requires '/' !in u.host
    ensures BuildWebSocketURL(Ok(u), eventID).Ok?
    ensures ParseStreamURL(BuildWebSocketURL(Ok(u), eventID).value)
            == Some(StreamTarget(u.scheme == "https", u.host, eventID))
  {
    var secure := u.scheme == "https";
    var rest := u.host + StreamPath(eventID);
    var s := BuildWebSocketURL(Ok(u), eventID).value;
    assert s == SchemeHead(secure) + rest by {
      var head := StreamScheme(u.scheme).value + "://";
      assert head == SchemeHead(secure);
      assert s == head + u.host + StreamPath(eventID);
    }
    SchemeHeadRoundTrip(secure, rest);
    HostAndPathRoundTrip(secure, u.host, eventID);
  }

  function SchemeHead(secure: bool): string {
    if secure then "wss://" else "ws://"
  }

  lemma SchemeHeadRoundTrip(secure: bool, rest: string)
    ensures ParseStreamURL(SchemeHead(secure) + rest) == ParseHostAndPath(secure, rest)
  {
    var s := SchemeHead(secure) + rest;
    if secure {
      assert s[..6] == "wss://" && s[6..] == rest;
    } else {
      assert s[..5] == "ws://" && s[5..] == rest;
      assert !(|s| >= 6 && s[..6] == "wss://") by {
        assert s[2] == ':';
        assert "wss://"[2] == 's';
      }
    }
  }

  /** One skater position inside a batch. */
  datatype Location = Location(skaterID: string, latitude: real, longitude: real, timestamp: int)

  /** A decoded frame; `{}` decodes to the zero batch (no locations, server time 0). */
  datatype LocationBatch = LocationBatch(locations: seq<Location>, serverTime: int)

  /** What `json.Unmarshal` made of a frame's bytes. */
  datatype Payload = Decoded(batch: LocationBatch) | Malformed(cause: string)

  /** The error `ReadMessage` returned: a close frame with its code, or anything else. */
  datatype ReadError = CloseFrame(code: int, message: string) | OtherReadError(message: string)

  function ReadErrorMessage(e: ReadError): string {
    match e
    case CloseFrame(_, message) => message
    case OtherReadError(message) => message
  }

  /** `websocket.IsCloseError(err, CloseNormalClosure, CloseGoingAway)`. */
  predicate IsQuietClose(e: ReadError) {
    e.CloseFrame? && (e.code == CloseNormalClosure || e.code == CloseGoingAway)
  }

  /**
   * What happens on one iteration of the receive loop. `at` is the receive
   * time taken at the top of the iteration, in Unix milliseconds.
   */
  datatype Step =
    | Cancelled                                                   // the context is done before reading
    | DeadlineFailed(at: int, cause: string)                      // `SetReadDeadline` failed
    | ReadFailed(at: int, err: ReadError, cancelledMeanwhile: bool) // `ReadMessage` failed
    | Received(at: int, payload: Payload)                         // a frame arrived

  /**
   * A result sent on the results channel. `skaterIDs` is the field the
   * metrics writer reads; the viewer never fills it.
   */
  datatype ViewerResult = ViewerResult(
    eventID: string,
    viewerNumber: int,
    timestamp: int,       // Unix milliseconds
    messageCount: int,
    latencyMs: int,
    skaterIDs: seq<string>,
    error: Option<string>)

  datatype ViewerConfig = ViewerConfig(eventID: string, viewerNumber: int, baseURL: string)

  function Failure(v: ViewerConfig, at: int, count: int, message: string): ViewerResult {
    ViewerResult(v.eventID, v.viewerNumber, at, count, 0, [], Some(message))
  }

  function Success(v: ViewerConfig, at: int, count: int, batch: LocationBatch): ViewerResult {
    ViewerResult(v.eventID, v.viewerNumber, at, count, at - batch.serverTime, [], None)
  }

  const ParseFailurePrefix := "failed to parse message: "

  /**
   * The results `receiveLoop` sends when its iterations go as `steps` say,
   * starting from message count `count`. The loop stops at the first step
   * that ends it; steps after that are never reached.
   */
  function Receive(v: ViewerConfig, steps: seq<Step>, count: int): seq<ViewerResult>
    decreases |steps|
  {
    if steps == [] then []
    else
      match steps[0]
      case Cancelled => []
      case DeadlineFailed(at, cause) => [Failure(v, at, count, "failed to set read deadline: " + cause)]
      case ReadFailed(at, err, cancelled) =>
        if cancelled || IsQuietClose(err) then []
        else [Failure(v, at, count, "connection error: " + ReadErrorMessage(err))]
      case Received(at, Malformed(cause)) =>
        [Failure(v, at, count, ParseFailurePrefix + cause)] + Receive(v, steps[1..], count)
      case Received(at, Decoded(batch)) =>
        [Success(v, at, count + 1, batch)] + Receive(v, steps[1..], count + 1)
  }

  /**
   * `receiveLoop`: reads until a step ends the loop or the steps run out,
   * and returns the results sent and the final message count.
   */
  method ReceiveLoop(v: ViewerConfig, steps: seq<Step>) returns (results: seq<ViewerResult>, messageCount: int)
    ensures results == Receive(v, steps, 0)
    ensures messageCount == Successes(results)
  {
    results := [];
    messageCount := 0;
    var i := 0;
    while i < |steps|
      invariant 0 <= i <= |steps|
      invariant results + Receive(v, steps[i..], messageCount) == Receive(v, steps, 0)
      invariant messageCount == Successes(results)
    {
      var step := steps[i];
      ghost var rest := steps[i + 1..];
      if step.Cancelled? {
        assert Receive(v, steps[i..], messageCount) == [];
        return;
      } else if step.DeadlineFailed? {
        var r := Failure(v, step.at, messageCount, "failed to set read deadline: " + step.cause);
        assert Receive(v, steps[i..], messageCount) == [r];
        SuccessesAppend(results, r);
        results := results + [r];
        return;
      } else if step.ReadFailed? {
        if step.cancelledMeanwhile || IsQuietClose(step.err) {
          assert Receive(v, steps[i..], messageCount) == [];
          return;
        }
        var r := Failure(v, step.at, messageCount, "connection error: " + ReadErrorMessage(step.err));
        assert Receive(v, steps[i..], messageCount) == [r];
        SuccessesAppend(results, r);
        results := results + [r];
        return;
      } else if step.payload.Malformed? {
        var r := Failure(v, step.at, messageCount, ParseFailurePrefix + step.payload.cause);
        assert Receive(v, steps[i..], messageCount) == [r] + Receive(v, rest, messageCount) by {
          assert steps[i..][1..] == rest;
        }
        assert (results + [r]) + Receive(v, rest, messageCount) == results + ([r] + Receive(v, rest, messageCount));
        SuccessesAppend(results, r);
        results := results + [r];
      } else {
        var r := Success(v, step.at, messageCount + 1, step.payload.batch);
        assert Receive(v, steps[i..], messageCount) == [r] + Receive(v, rest, messageCount + 1) by {
          assert steps[i..][1..] == rest;
        }
        assert (results + [r]) + Receive(v, rest, messageCount + 1) == results + ([r] + Receive(v, rest, messageCount + 1));
        messageCount := messageCount + 1;
        SuccessesAppend(results, r);
        results := results + [r];
      }
      i := i + 1;
    }
  }

  /** The number of results without an error. */
  function Successes(rs: seq<ViewerResult>): nat {
    if rs == [] then 0 else Successes(rs[..|rs| - 1]) + (if rs[|rs| - 1].error.None? then 1 else 0)
  }

  lemma SuccessesAppend(rs: seq<ViewerResult>, r: ViewerResult)
    ensures Successes(rs + [r]) == Successes(rs) + (if r.error.None? then 1 else 0)
  {
    assert (rs + [r])[..|rs|] == rs;
  }

  /**
   * `Start`: build the URL, dial, set the first read deadline, then run the
   * receive loop. `now` is the time of the early results; `dialled` is the
   * URL the viewer dialled, if it got that far.
   */
  method Start(v: ViewerConfig, parseUrl: string -> Result<ParsedUrl, string>, now: int,
               dialError: Option<string>, deadlineError: Option<string>, steps: seq<Step>)
    returns (results: seq<ViewerResult>, dialled: Option<string>)
    ensures var url := BuildWebSocketURL(parseUrl(v.baseURL), v.eventID);
      && (url.Err? ==>
            dialled == None && results == [Failure(v, now, 0, "invalid URL: " + UrlErrorMessage(url.error))])
      && (url.Ok? ==> dialled == Some(url.value))
      && (url.Ok? && dialError.Some? ==> results == [Failure(v, now, 0, "connection failed: " + dialError.value)])
      && (url.Ok? && dialError.None? && deadlineError.Some? ==>
            results == [Failure(v, now, 0, "failed to set read deadline: " + deadlineError.value)])
      && (url.Ok? && dialError.None? && deadlineError.None? ==> results == Receive(v, steps, 0))
  {
    var url := BuildWebSocketURL(parseUrl(v.baseURL), v.eventID);
    if url.Err? {
      results := [Failure(v, now, 0, "invalid URL: " + UrlErrorMessage(url.error))];
      dialled := None;
      return;
    }
    dialled := Some(url.value);
    if dialError.Some? {
      results := [Failure(v, now, 0, "connection failed: " + dialError.value)];
      return;
    }
    if deadlineError.Some? {
      results := [Failure(v, now, 0, "failed to set read deadline: " + deadlineError.value)];
      return;
    }
    var count;
    results, count := ReceiveLoop(v, steps);
  }

  // ---- What the receive loop promises ----

  /**
   * Every result carries the viewer's event ID and number, no skater IDs,
   * and, when it reports an error, a non-empty message.
   */
  lemma {:induction false} ReceiveIdentity(v: ViewerConfig, steps: seq<Step>, count: int, k: nat)
    requires k < |Receive(v, steps, count)|
    ensures Receive(v, steps, count)[k].eventID == v.eventID
    ensures Receive(v, steps, count)[k].viewerNumber == v.viewerNumber
    ensures Receive(v, steps, count)[k].skaterIDs == []
    ensures Receive(v, steps, count)[k].error.Some? ==> Receive(v, steps, count)[k].error.value != ""
    decreases |steps|
  {
    if k > 0 {
      match steps[0]
      case Received(at, Malformed(cause)) => ReceiveIdentity(v, steps[1..], count, k - 1);
      case Received(at, Decoded(batch)) => ReceiveIdentity(v, steps[1..], count + 1, k - 1);
    }
  }

  /** The loop sends at most one result per iteration. */
  lemma {:induction false} ReceiveLength(v: ViewerConfig, steps: seq<Step>, count: int)
    ensures |Receive(v, steps, count)| <= |steps|
    decreases |steps|
  {
    if steps != [] {
      match steps[0]
      case Received(at, Malformed(cause)) => ReceiveLength(v, steps[1..], count);
      case Received(at, Decoded(batch)) => ReceiveLength(v, steps[1..], count + 1);
      case _ =>
    }
  }

  /**
   * The message count in every result is the starting count plus the number
   * of decoded batches so far, counting this result if it is one: failures
   * carry the count unchanged, each success raises it by exactly one.
   */
  lemma {:induction false} ReceiveCounts(v: ViewerConfig, steps: seq<Step>, count: int, k: nat)
    requires k < |Receive(v, steps, count)|
    ensures Receive(v, steps, count)[k].messageCount == count + Successes(Receive(v, steps, count)[..k + 1])
    decreases |steps|
  {
    var rs := Receive(v, steps, count);
    SuccessesPrepend(rs[0], rs[1..k + 1]);
    assert rs[..k + 1] == [rs[0]] + rs[1..k + 1];
    if k > 0 {
      var next := if steps[0].payload.Decoded? then count + 1 else count;
      assert rs[1..] == Receive(v, steps[1..], next);
      ReceiveCounts(v, steps[1..], next, k - 1);
      assert rs[1..k + 1] == Receive(v, steps[1..], next)[..k];
    }
  }

  lemma {:induction false} SuccessesPrepend(r: ViewerResult, rs: seq<ViewerResult>)
    ensures Successes([r] + rs) == (if r.error.None? then 1 else 0) + Successes(rs)
    decreases |rs|
  {
    if rs != [] {
      var init := rs[..|rs| - 1];
      SuccessesPrepend(r, init);
      assert ([r] + rs)[..|rs|] == [r] + init;
    }
  }

  /**
   * Only the last result can end the loop: every earlier one is a decoded
   * batch or a parse failure, after which the loop went on reading.
   */
  lemma {:induction false} ReceiveOnlyLastIsFinal(v: ViewerConfig, steps: seq<Step>, count: int, k: nat)
    requires k + 1 < |Receive(v, steps, count)|
    ensures k < |steps| && steps[k].Received?
    ensures var r := Receive(v, steps, count)[k];
      r.error.None? || (steps[k].payload.Malformed? && r.error == Some(ParseFailurePrefix + steps[k].payload.cause))
    decreases |steps|
  {
    if k > 0 {
      var next := if steps[0].payload.Decoded? then count + 1 else count;
      ReceiveOnlyLastIsFinal(v, steps[1..], next, k - 1);
    }
  }

  /** The number of decoded batches among `steps`. */
  function Decodes(steps: seq<Step>): nat {
    if steps == [] then 0
    else Decodes(steps[..|steps| - 1]) + (if steps[|steps| - 1].Received? && steps[|steps| - 1].payload.Decoded? then 1 else 0)
  }

  /**
   * While every iteration so far received a frame, result `j` answers step
   * `j`: a decoded batch gives a success with count raised to the number of
   * batches decoded so far and latency = receive time - server time (not
   * clamped, so negative under clock skew); an undecodable frame gives a
   * "failed to parse message" result with the count unchanged.
   */
  lemma {:induction false} ReceiveAt(v: ViewerConfig, steps: seq<Step>, count: int, j: nat)
    requires j < |steps|
    requires forall i :: 0 <= i <= j ==> steps[i].Received?
    ensures j < |Receive(v, steps, count)|
    ensures var r := Receive(v, steps, count)[j];
      && r.timestamp == steps[j].at
      && r.messageCount == count + Decodes(steps[..j + 1])
      && (steps[j].payload.Decoded? ==> r.error == None && r.latencyMs == steps[j].at - steps[j].payload.batch.serverTime)
      && (steps[j].payload.Malformed? ==> r.error == Some(ParseFailurePrefix + steps[j].payload.cause) && r.latencyMs == 0)
    decreases |steps|
  {
    var d := if steps[0].payload.Decoded? then 1 else 0;
    DecodesPrepend(steps[0], steps[1..j + 1]);
    assert steps[..j + 1] == [steps[0]] + steps[1..j + 1];
    if j > 0 {
      ReceiveAt(v, steps[1..], count + d, j - 1);
      assert steps[1..][..j] == steps[1..j + 1];
    } else {
      DecodesPrepend(steps[0], []);
    }
  }

  lemma {:induction false} DecodesPrepend(s: Step, steps: seq<Step>)
    ensures Decodes([s] + steps) == (if s.Received? && s.payload.Decoded? then 1 else 0) + Decodes(steps)
    decreases |steps|
  {
    if steps != [] {
      var init := steps[..|steps| - 1];
      DecodesPrepend(s, init);
      assert ([s] + steps)[..|steps|] == [s] + init;
    }
  }

  /** Cancellation, a cancelled read and a normal or going-away close end the loop silently. */
  lemma QuietEnds(v: ViewerConfig, at: int, err: ReadError, rest: seq<Step>, count: int)
    ensures Receive(v, [Cancelled] + rest, count) == []
    ensures Receive(v, [ReadFailed(at, err, true)] + rest, count) == []
    ensures IsQuietClose(err) ==> Receive(v, [ReadFailed(at, err, false)] + rest, count) == []
    ensures !IsQuietClose(err) ==> |Receive(v, [ReadFailed(at, err, false)] + rest, count)| == 1
  {
  }
}
