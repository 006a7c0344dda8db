/** The event records the client builds, signs and receives (NIP-01 events). */
module Events {
  import opened Basics

  /** A tag is an ordered list of strings; its first entry names its kind. */
  type Tag = seq<string>

  /** An unsigned event draft as the client builds it before `finalizeEvent`.
      A text note carries the author's public key; a direct-message draft
      carries none (signing fills it in). */
  datatype Event = Event(
    kind: int,
    createdAt: int,
    tags: seq<Tag>,
    content: string,
    pubkey: Option<string>)

  /** A signed event, as `finalizeEvent` returns it and relays deliver it. */
  datatype SignedEvent = SignedEvent(
    id: string,
    pubkey: string,
    createdAt: int,
    kind: int,
    tags: seq<Tag>,
    content: string,
    sig: string)

  /** `Math.floor(Date.now() / 1000)`: unix seconds from a millisecond clock reading. */
  function UnixSeconds(nowMs: int): int {
    nowMs / 1000
  }
}
