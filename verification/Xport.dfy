/** Envelopes, the unit the daemons exchange. */
module Xport {
  import opened Bytes

  type Id = Bytes
  type Dest = Bytes

  datatype Envelope = Envelope(
    id: Id,
    timestamp: int,
    from: Bytes,
    kind: Bytes,
    presenceSource: Bytes,
    payload: Bytes,
    padding: Bytes)
}
