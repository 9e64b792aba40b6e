/** The Nostr event record shared by every component of the scrobbler. */
module NostrEvent {

  /** A tag is an ordered list of strings; element 0 is its key. */
  type Tag = seq<string>

  /** The event kind reserved for scrobbles. */
  const ScrobbleKind: int := 2002

  /** An event as it travels between clients and relays. The id and the
      signature are opaque and are not part of the model; `pubkey` is the
      author ("" on an event that has not been signed yet). */
  datatype Event = Event(pubkey: string, createdAt: int, kind: int, content: string, tags: seq<Tag>)

  /** The sort key of every history merge. */
  function CreatedAt(e: Event): int { e.createdAt }
}
