/** The Nostr event as the relay hands it to the notification service. */
module Nostr {

  type Pubkey = string
  type EventId = string

  /**
   * A tag is a list of strings whose first entry names its type and whose
   * second entry carries its value (`["p", <pubkey>]`, `["e", <event id>]`).
   */
  type Tag = t: seq<string> | |t| >= 2 witness ["", ""]

  /** An event: immutable once received. */
  datatype Event = Event(
    id: EventId,
    pubkey: Pubkey,
    createdAt: int,
    kind: int,
    tags: seq<Tag>,
    content: string,
    sig: string)
}
