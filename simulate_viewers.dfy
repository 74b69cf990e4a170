/**
 * The sequential parts of the viewer simulator's `main.go`: the `--events`
 * filter, the checks `parseFlags` makes, and the numbering of viewers.
 */
module SimulateViewers {
  import opened Wrappers
  import opened Text
  import opened Cohorts
  import opened Viewer

  const DefaultBufferSize := 1000

  /** The elements of `xs` that are not empty, in order. */
  function NonEmpty(xs: seq<string>): seq<string> {
    if xs == [] then []
    else
      var rest := NonEmpty(xs[..|xs| - 1]);
      if xs[|xs| - 1] != "" then rest + [xs[|xs| - 1]] else rest
  }

  /** The event IDs a `--events` value names: its trimmed comma-separated pieces, empties dropped. */
  function EventIdsOf(eventsStr: string): seq<string> {
    NonEmpty(TrimSpaceAll(Split(eventsStr, ',')))
  }

  /**
   * `parseEventIDs`: split on commas, trim each piece, keep the non-empty ones.
   */
  method ParseEventIDs(eventsStr: string) returns (eventIDs: seq<string>)
    ensures eventIDs == EventIdsOf(eventsStr)
  {
    var parts := Split(eventsStr, ',');
    ghost var trimmedParts := TrimSpaceAll(parts);
    eventIDs := [];
    for i := 0 to |parts|
      invariant eventIDs == NonEmpty(trimmedParts[..i])
    {
      var trimmed := TrimSpace(parts[i]);
      ghost var upTo := trimmedParts[..i + 1];
      assert upTo[..|upTo| - 1] == trimmedParts[..i];
      assert upTo[|upTo| - 1] == trimmed;
      if trimmed != "" {
        eventIDs := eventIDs + [trimmed];
      }
    }
    assert trimmedParts[..|parts|] == trimmedParts;
  }

  /** An element is kept exactly when it is a non-empty element of the input. */
  lemma {:induction false} NonEmptyMembers(xs: seq<string>, x: string)
    ensures x in NonEmpty(xs) <==> x != "" && x in xs
  {
    if xs != [] {
      var init := xs[..|xs| - 1];
      NonEmptyMembers(init, x);
      assert xs == init + [xs[|xs| - 1]];
    }
  }

  /** Nothing is kept exactly when every element is empty. */
  lemma {:induction false} NonEmptyIsEmpty(xs: seq<string>)
    ensures NonEmpty(xs) == [] <==> forall k :: 0 <= k < |xs| ==> xs[k] == ""
  {
    if xs != [] {
      var init := xs[..|xs| - 1];
      NonEmptyIsEmpty(init);
      assert forall k :: 0 <= k < |init| ==> init[k] == xs[k];
    }
  }

  /** Filtering never lengthens. */
  lemma {:induction false} NonEmptyLength(xs: seq<string>)
    ensures |NonEmpty(xs)| <= |xs|
  {
    if xs != [] {
      NonEmptyLength(xs[..|xs| - 1]);
    }
  }

  /**
   * No more event IDs than comma-separated pieces, none of them empty and
   * none with white space at either end.
   */
  lemma EventIdsShape(eventsStr: string)
    ensures |EventIdsOf(eventsStr)| <= |Split(eventsStr, ',')|
    ensures forall i :: 0 <= i < |EventIdsOf(eventsStr)| ==>
      EventIdsOf(eventsStr)[i] != "" && Trimmed(EventIdsOf(eventsStr)[i], IsSpace)
  {
    var trimmedParts := TrimSpaceAll(Split(eventsStr, ','));
    var ids := EventIdsOf(eventsStr);
    NonEmptyLength(trimmedParts);
    forall i | 0 <= i < |ids|
      ensures ids[i] != "" && Trimmed(ids[i], IsSpace)
    {
      NonEmptyMembers(trimmedParts, ids[i]);
    }
  }

  /** The pieces of a split are all white space exactly when the input is separators and white space. */
  lemma BlankPiecesIff(eventsStr: string)
    ensures (forall k :: 0 <= k < |Split(eventsStr, ',')| ==> AllOf(Split(eventsStr, ',')[k], IsSpace))
        <==> (forall j :: 0 <= j < |eventsStr| ==> eventsStr[j] == ',' || IsSpace(eventsStr[j]))
  {
    var parts := Split(eventsStr, ',');
    if forall k :: 0 <= k < |parts| ==> AllOf(parts[k], IsSpace) {
      forall j | 0 <= j < |eventsStr| && eventsStr[j] != ','
        ensures IsSpace(eventsStr[j])
      {
        SplitCovers(eventsStr, ',', j);
      }
    }
    if forall j :: 0 <= j < |eventsStr| ==> eventsStr[j] == ',' || IsSpace(eventsStr[j]) {
      forall k, j | 0 <= k < |parts| && 0 <= j < |parts[k]|
        ensures IsSpace(parts[k][j])
      {
        SplitChars(eventsStr, ',', k, j);
      }
    }
  }

  /**
   * The `--events` value yields no event ID (and `parseFlags` refuses it)
   * exactly when it is made of commas and white space only.
   */
  lemma BlankEventsIff(eventsStr: string)
    ensures EventIdsOf(eventsStr) == [] <==> forall j :: 0 <= j < |eventsStr| ==> eventsStr[j] == ',' || IsSpace(eventsStr[j])
  {
    var parts := Split(eventsStr, ',');
    var trimmedParts := TrimSpaceAll(parts);
    NonEmptyIsEmpty(trimmedParts);
    TrimSpaceAllBlank(parts);
    BlankPiecesIff(eventsStr);
    assert EventIdsOf(eventsStr) == NonEmpty(trimmedParts);
    if EventIdsOf(eventsStr) == [] {
      assert forall k :: 0 <= k < |parts| ==> trimmedParts[k] == "";
      assert forall k :: 0 <= k < |parts| ==> AllOf(parts[k], IsSpace);
    }
  }

  /** The simulator's settings once the flags are accepted. */
  datatype Config = Config(
    viewersPerEvent: int,
    eventIDs: seq<string>,
    targetURL: string,
    metricsFile: string,
    bufferSize: int)

  /** Why `parseFlags` stops the program, in the order it checks. */
  datatype FlagError =
    | MissingTargetUrl
    | MissingEvents
    | InvalidTargetUrl(cause: string)
    | NonPositiveViewers(got: int)
    | NonPositiveBufferSize(got: int)
    | NoEventIds

  /**
   * The checks of `parseFlags` on the parsed flag values; `urlError` is what
   * `url.Parse` reports for the target URL, if anything.
   */
  method ParseFlags(viewersPerEvent: int, eventsStr: string, targetURL: string, metricsFile: string,
                    bufferSize: int, urlError: Option<string>)
    returns (r: Result<Config, FlagError>)
    ensures r.Ok? <==>
      && targetURL != "" && eventsStr != "" && urlError.None?
      && viewersPerEvent > 0 && bufferSize > 0
      && EventIdsOf(eventsStr) != []
    ensures r.Ok? ==> r.value == Config(viewersPerEvent, EventIdsOf(eventsStr), targetURL, metricsFile, bufferSize)
    // Each check stops the program, so the first one that fails decides the error.
    ensures targetURL == "" ==> r == Err(MissingTargetUrl)
    ensures targetURL != "" && eventsStr == "" ==> r == Err(MissingEvents)
    ensures targetURL != "" && eventsStr != "" && urlError.Some? ==> r == Err(InvalidTargetUrl(urlError.value))
    ensures targetURL != "" && eventsStr != "" && urlError.None? && viewersPerEvent <= 0 ==>
      r == Err(NonPositiveViewers(viewersPerEvent))
    ensures targetURL != "" && eventsStr != "" && urlError.None? && viewersPerEvent > 0 && bufferSize <= 0 ==>
      r == Err(NonPositiveBufferSize(bufferSize))
    ensures (targetURL != "" && eventsStr != "" && urlError.None? && viewersPerEvent > 0 && bufferSize > 0
             && EventIdsOf(eventsStr) == []) ==> r == Err(NoEventIds)
  {
    if targetURL == "" {
      return Err(MissingTargetUrl);
    }
    if eventsStr == "" {
      return Err(MissingEvents);
    }
    if urlError.Some? {
      return Err(InvalidTargetUrl(urlError.value));
    }
    if viewersPerEvent <= 0 {
      return Err(NonPositiveViewers(viewersPerEvent));
    }
    if bufferSize <= 0 {
      return Err(NonPositiveBufferSize(bufferSize));
    }
    var eventIDs := ParseEventIDs(eventsStr);
    if |eventIDs| == 0 {
      return Err(NoEventIds);
    }
    return Ok(Config(viewersPerEvent, eventIDs, targetURL, metricsFile, bufferSize));
  }

  /**
   * The viewer-starting loop of `run`: viewers are numbered 1, 2, … event by
   * event, so viewer number n watches event (n - 1) div viewersPerEvent.
   * A count that is not positive starts no viewer.
   */
  method NumberViewers(eventIDs: seq<string>, viewersPerEvent: int, targetURL: string)
    returns (viewers: seq<ViewerConfig>)
    ensures |viewers| == |eventIDs| * PerEvent(viewersPerEvent)
    ensures forall i :: 0 <= i < |viewers| ==>
      viewersPerEvent > 0 && i / viewersPerEvent < |eventIDs|
      && viewers[i] == ViewerConfig(eventIDs[i / viewersPerEvent], i + 1, targetURL)
  {
    var k := PerEvent(viewersPerEvent);
    viewers := [];
    var viewerNumber := 0;
    for e := 0 to |eventIDs|
      invariant viewerNumber == |viewers|
      invariant NumberedAs(viewers, Expand(eventIDs[..e], k), targetURL)
    {
      ghost var before := viewers;
      viewers := StartCohort(viewers, eventIDs[e], viewersPerEvent, targetURL);
      viewerNumber := |viewers|;
      NumberingStep(eventIDs, e, k, targetURL, before, viewers);
    }
    assert eventIDs[..|eventIDs|] == eventIDs;
    if k > 0 {
      NumberedByEvent(eventIDs, k, targetURL, viewers);
    }
  }

  /** In an event-major numbering with `k` viewers per event, viewer `i` watches event `i / k`. */
  lemma NumberedByEvent(eventIDs: seq<string>, k: nat, targetURL: string, viewers: seq<ViewerConfig>)
    requires k > 0 && NumberedAs(viewers, Expand(eventIDs, k), targetURL)
    ensures forall i :: 0 <= i < |viewers| ==>
      i / k < |eventIDs| && viewers[i] == ViewerConfig(eventIDs[i / k], i + 1, targetURL)
  {
    forall i | 0 <= i < |viewers|
      ensures i / k < |eventIDs| && viewers[i] == ViewerConfig(eventIDs[i / k], i + 1, targetURL)
    {
      ExpandAt(eventIDs, k, i);
    }
  }

  /** Viewer `i` watches `events[i]` and carries number `i + 1`. */
  predicate NumberedAs(viewers: seq<ViewerConfig>, events: seq<string>, targetURL: string) {
    |viewers| == |events|
    && forall i :: 0 <= i < |viewers| ==> viewers[i] == ViewerConfig(events[i], i + 1, targetURL)
  }

  /** One more cohort keeps the numbering event-major. */
  lemma NumberingStep(eventIDs: seq<string>, e: nat, k: nat, targetURL: string,
                      before: seq<ViewerConfig>, after: seq<ViewerConfig>)
    requires e < |eventIDs|
    requires NumberedAs(before, Expand(eventIDs[..e], k), targetURL)
    requires |after| == |before| + k && after[..|before|] == before
    requires forall i :: |before| <= i < |after| ==> after[i] == ViewerConfig(eventIDs[e], i + 1, targetURL)
    ensures NumberedAs(after, Expand(eventIDs[..e + 1], k), targetURL)
  {
    assert eventIDs[..e + 1][..e] == eventIDs[..e];
    var events := Expand(eventIDs[..e + 1], k);
    assert events == Expand(eventIDs[..e], k) + Repeat(eventIDs[e], k);
    forall i | 0 <= i < |after|
      ensures after[i] == ViewerConfig(events[i], i + 1, targetURL)
    {
      if i < |before| {
        assert after[i] == after[..|before|][i];
      }
    }
  }

  /**
   * The inner loop of the viewer-starting loop: `viewersPerEvent` more
   * viewers of one event, each numbered one past the previous.
   */
  method StartCohort(viewers: seq<ViewerConfig>, eventID: string, viewersPerEvent: int, targetURL: string)
    returns (r: seq<ViewerConfig>)
    ensures |r| == |viewers| + PerEvent(viewersPerEvent)
    ensures r[..|viewers|] == viewers
    ensures forall i :: |viewers| <= i < |r| ==> r[i] == ViewerConfig(eventID, i + 1, targetURL)
  {
    r := viewers;
    var viewerNumber := |viewers|;
    var j := 0;
    while j < viewersPerEvent
      invariant 0 <= j <= PerEvent(viewersPerEvent)
      invariant viewerNumber == |r| == |viewers| + j
      invariant r[..|viewers|] == viewers
      invariant forall i :: |viewers| <= i < |r| ==> r[i] == ViewerConfig(eventID, i + 1, targetURL)
    {
      viewerNumber := viewerNumber + 1;
      r := r + [ViewerConfig(eventID, viewerNumber, targetURL)];
      j := j + 1;
    }
  }

  /** How many viewers the inner loop starts per event. */
  function PerEvent(viewersPerEvent: int): nat {
    if viewersPerEvent > 0 then viewersPerEvent else 0
  }
}
