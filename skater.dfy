/**
 * The skater-side values the simulators and the metrics writer exchange.
 * A skater's random position and its HTTP client are not part of this model;
 * a skater is identified by its event, its ID and the API it talks to.
 */
module Skater {
  import opened Wrappers

  /** What `skater.New(eventID, skaterID, baseURL)` is built from. */
  datatype SimulatedSkater = SimulatedSkater(eventID: string, id: string, baseURL: string)

  /** `skater.UpdateResult`: one location update and how it went. */
  datatype UpdateResult = UpdateResult(
    eventID: string,
    skaterID: string,
    timestamp: int,       // Unix milliseconds
    responseTimeNs: int,  // a Go time.Duration
    error: Option<string>)
}
