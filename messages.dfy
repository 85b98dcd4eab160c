/**
 * The records that travel between server and client and sit in the message
 * and group stores. A field the source leaves out of a record (`to` on a
 * group message, `groupId` on a private one) is the empty string: every
 * reader either writes `(field || "")` or tests `!field`, so an absent field
 * and an empty one behave alike.
 */
module Messages {

  /** The `type` of a stored message: "private" or "group". */
  datatype Kind = PrivateType | GroupType

  /**
   * A message as the server builds it (server/server.js:393-402, 494-502).
   * `id` and `timestamp` are clock readings in milliseconds; `from` is the
   * sender's socket id, `fromUsername` its username.
   */
  datatype Message = Message(
    id: int,
    kind: Kind,
    from: string,
    fromUsername: string,
    to: string,
    groupId: string,
    body: string,
    timestamp: int)

  /** A group record as created by `create-group` (server/server.js:435-442). */
  datatype Group = Group(
    id: string,
    name: string,
    members: seq<string>,
    creator: string,
    createdAt: int,
    avatar: string)
}
