/** Failures of the knitout writer.
    Every `std::runtime_error` the writer throws becomes an `Error` value here;
    a call either completes (`Done`) or reports the first check that failed. */
module Errors {

  datatype Error =
    | MissingCarrierName    // a carrier name that is empty (after trimming, where the writer trims)
    | CarrierAlreadyIn      // "in"/"inhook" on a carrier that is already in
    | CarrierNotIn          // "releasehook"/"out"/"outhook" on a carrier that is not in
    | CarrierNotInHook      // "releasehook" on a carrier that is in but not on the hook
    | EmptyCarrierSet       // a carrier list call with an empty list
    | InvalidDirection      // a direction other than "+" or "-"
    | InvalidBed            // a bed outside the twelve bed spellings
    | InvalidNeedle         // a negative needle number
    | MalformedBedNeedle    // a bed+needle token without any digit
    | NeedleNotInteger      // a bed+needle token whose needle part is not an integer
    | SameBedSplit          // "split" whose source and target bed are the same
    | NoCarriersForMiss     // "miss" without carriers
    | InvalidHeaderName     // a header name containing ": "
    | InvalidHeaderValue    // a header value containing a line feed
    | ReservedHeaderName    // an explicit "Carriers" header
    | MachineAlreadySet     // a second "Machine" header after a non-empty one
    | GaugeNotNumber        // a "Gauge" header whose value is not a number
    | InvalidPosition       // a "Position" header outside Left/Center/Right/Keep
    | NegativeStitchNumber  // "x-stitch-number" with a negative value

  datatype Status = Done | Failed(error: Error)

  datatype Result<T> = Success(value: T) | Failure(error: Error)

  /** Runs two checks in order: the first failure wins. */
  function AndThen(first: Status, next: Status): Status
  {
    if first.Failed? then first else next
  }
}
