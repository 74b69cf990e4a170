/**
 * The sequential parts of the skater simulator's `main.go`: validating the
 * `--event-id` list and laying out the skater population.
 */
module SimulateSkaters {
  import opened Wrappers
  import opened Text
  import opened Cohorts
  import opened Skater

  const MaxResultsBufferSize := 1000

  /** Why a `--event-id` list was refused; positions are 1-based. */
  datatype EventIdError =
    | CountMismatch(provided: nat, expected: int)
    | EmptyEventId(position: nat)
    | InvalidUuid(position: nat, id: string, cause: string)

  function ErrorMessage(e: EventIdError): string {
    match e
    case CountMismatch(provided, expected) =>
      "number of provided event IDs (" + Decimal(provided) + ") does not match --events (" + Decimal(expected) + ")"
    case EmptyEventId(position) =>
      "empty event ID at position " + Decimal(position)
    case InvalidUuid(position, id, cause) =>
      "invalid UUID format for event ID " + Decimal(position) + " (" + id + "): " + cause
  }

  /** The comma-separated pieces of `s`, each with white space trimmed, in order. */
  function TrimmedPieces(s: string): seq<string> {
    TrimSpaceAll(Split(s, ','))
  }

  /** An ID passes both per-ID checks: it is not empty and `uuid.Parse` accepts it. */
  predicate Acceptable(id: string, uuidError: string -> Option<string>) {
    id != "" && uuidError(id).None?
  }

  /** `e` names the first unacceptable ID of `ids`, and why it was refused. */
  predicate ReportsFirstFailure(ids: seq<string>, e: EventIdError, uuidError: string -> Option<string>) {
    match e
    case CountMismatch(_, _) => false
    case EmptyEventId(k) =>
      1 <= k <= |ids| && ids[k - 1] == ""
      && forall j :: 0 <= j < k - 1 ==> Acceptable(ids[j], uuidError)
    case InvalidUuid(k, id, cause) =>
      1 <= k <= |ids| && ids[k - 1] == id && id != "" && uuidError(id) == Some(cause)
      && forall j :: 0 <= j < k - 1 ==> Acceptable(ids[j], uuidError)
  }

  /**
   * `parseEventIDs`. An empty `s` yields the next `numEvents` IDs from
   * `generated` (what `uuid.New()` returns, in call order). Otherwise the
   * trimmed comma-separated pieces are checked: first their number, then
   * each piece in order for emptiness and then for UUID syntax (`uuidError`
   * is `uuid.Parse`'s error, if any); the first failure wins.
   */
  method ParseEventIDs(s: string, numEvents: int, generated: seq<string>, uuidError: string -> Option<string>)
    returns (r: Result<seq<string>, EventIdError>)
    requires s == "" ==> 0 <= numEvents <= |generated|
    ensures s == "" ==> r == Ok(generated[..numEvents])
    ensures s != "" && |Split(s, ',')| != numEvents ==> r == Err(CountMismatch(|Split(s, ',')|, numEvents))
    ensures s != "" && |Split(s, ',')| == numEvents ==>
      && (r.Ok? <==> forall i :: 0 <= i < numEvents ==> Acceptable(TrimmedPieces(s)[i], uuidError))
      && (r.Ok? ==> r.value == TrimmedPieces(s))
      && (r.Err? ==> ReportsFirstFailure(TrimmedPieces(s), r.error, uuidError))
  {
    if s == "" {
      var made := new string[numEvents];
      for i := 0 to numEvents
        invariant made[..i] == generated[..i]
      {
        made[i] := generated[i];
      }
      assert made[..numEvents] == made[..];
      return Ok(made[..]);
    }

    var parts := Split(s, ',');
    var ids := new string[|parts|](i requires 0 <= i < |parts| => parts[i]);
    TrimEach(ids);
    assert ids[..] == TrimmedPieces(s);

    if ids.Length != numEvents {
      return Err(CountMismatch(ids.Length, numEvents));
    }

    var failure := FirstFailure(ids[..], uuidError);
    if failure.Some? {
      return Err(failure.value);
    }
    return Ok(ids[..]);
  }

  /** The in-place trimming loop of `parseEventIDs`. */
  method TrimEach(ids: array<string>)
    modifies ids
    ensures forall j :: 0 <= j < ids.Length ==> ids[j] == TrimSpace(old(ids[j]))
  {
    ghost var before := ids[..];
    for i := 0 to ids.Length
      invariant forall j :: 0 <= j < i ==> ids[j] == TrimSpace(before[j])
      invariant forall j :: i <= j < ids.Length ==> ids[j] == before[j]
    {
      var trimmed := TrimSpace(ids[i]);
      ids[i] := trimmed;
    }
  }

  /** The per-ID checking loop of `parseEventIDs`: the first refused ID, if any. */
  method FirstFailure(ids: seq<string>, uuidError: string -> Option<string>) returns (e: Option<EventIdError>)
    ensures e.None? <==> forall i :: 0 <= i < |ids| ==> Acceptable(ids[i], uuidError)
    ensures e.Some? ==> ReportsFirstFailure(ids, e.value, uuidError)
  {
    for i := 0 to |ids|
      invariant forall j :: 0 <= j < i ==> Acceptable(ids[j], uuidError)
    {
      if ids[i] == "" {
        return Some(EmptyEventId(i + 1));
      }
      var check := uuidError(ids[i]);
      if check.Some? {
        return Some(InvalidUuid(i + 1, ids[i], check.value));
      }
    }
    return None;
  }

  /**
   * The skater population of `run`: for each event in order, `skatersPerEvent`
   * skaters, the i-th taking the i-th ID from `freshIDs` (what `uuid.New()`
   * returns, in call order).
   */
  method BuildSkaters(eventIDs: seq<string>, skatersPerEvent: nat, targetURL: string, freshIDs: seq<string>)
    returns (skaters: seq<SimulatedSkater>)
    requires |freshIDs| >= |eventIDs| * skatersPerEvent
    ensures |skaters| == |eventIDs| * skatersPerEvent
    ensures forall i :: 0 <= i < |skaters| ==>
      skaters[i] == SimulatedSkater(Expand(eventIDs, skatersPerEvent)[i], freshIDs[i], targetURL)
  {
    var k := skatersPerEvent;
    skaters := [];
    var e := 0;
    while e < |eventIDs|
      invariant 0 <= e <= |eventIDs|
      invariant |skaters| == |Expand(eventIDs[..e], k)|
      invariant forall i :: 0 <= i < |skaters| ==>
        skaters[i] == SimulatedSkater(Expand(eventIDs[..e], k)[i], freshIDs[i], targetURL)
    {
      var done := Expand(eventIDs[..e], k);
      MulMono(e + 1, |eventIDs|, k);
      var j := 0;
      while j < k
        invariant 0 <= j <= k
        invariant |skaters| == |done| + j
        invariant forall i :: 0 <= i < |skaters| ==>
          skaters[i] == SimulatedSkater((done + Repeat(eventIDs[e], j))[i], freshIDs[i], targetURL)
      {
        skaters := skaters + [SimulatedSkater(eventIDs[e], freshIDs[|skaters|], targetURL)];
        j := j + 1;
      }
      assert eventIDs[..e + 1][..e] == eventIDs[..e];
      e := e + 1;
    }
    assert eventIDs[..e] == eventIDs;
  }
}
