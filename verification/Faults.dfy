/** The failures of a run, written down call by call.

    A run makes finitely many calls, so a finite map can record any pattern of failures: a call
    reports an error exactly when its site is in the map. A write that reports an error may have
    stored any points of its batch all the same; the map says which. */
module Faults {
  import opened Store

  /** One measurement job: the copy (database and policy) it belongs to, the pass of that copy
      (0 is the first, n + 1 recovers the n-th bad chunk), the window and the measurement. */
  datatype Place = Place(copy: nat, pass: nat, window: nat, meas: string)
  datatype Call = QueryCall(attempt: nat) | WriteCall(batch: nat, attempt: nat)
  datatype Site = Site(place: Place, call: Call)

  type Faults = map<Site, seq<Point>>
}
