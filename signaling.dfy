/** The signalling protocol between the browser clients and the matchmaker. */
module Signaling {
  import opened Wrappers

  /** A WebSocket connection, known to the matchmaker only by its identity. */
  type User = nat

  /** The message names on the wire. */
  const PAIRING_START := "PAIRING_START"
  const PAIRING_ABORT := "PAIRING_ABORT"
  const PAIRING_DONE := "PAIRING_DONE"
  const SDP_OFFER := "SDP_OFFER"
  const SDP_ANSWER := "SDP_ANSWER"
  const SDP_ICE_CANDIDATE := "SDP_ICE_CANDIDATE"
  const PARTNER_FOUND := "PARTNER_FOUND"
  const PARTNER_LEFT := "PARTNER_LEFT"
  const GO_FIRST := "GO_FIRST"

  /** A message: its name, and an optional payload the matchmaker never inspects. */
  datatype Message = Message(name: string, data: Option<string>)

  /** One `send` on a connection: the recipient and what was sent. */
  datatype Send = Send(to: User, message: Message)

  /** The three names whose messages are relayed to the partner. */
  predicate IsRelayed(name: string)
  {
    name == SDP_OFFER || name == SDP_ANSWER || name == SDP_ICE_CANDIDATE
  }
}
