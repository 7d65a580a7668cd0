/**
 * The two persisted record shapes: a Post (one per message that received a
 * qualifying reaction) and the State record stored under the single key
 * "currentCompetition".
 */
module Records {
  /** A submission: who wrote it, where it is, the competition it is pinned to and its tally. */
  datatype Post = Post(userId: string, messageId: string, channelId: string, competitionId: string, votes: nat)

  /**
   * The current competition. `value` is the competition id and `endAt` its
   * expiry in milliseconds since the epoch. A field the database lacks reads
   * as JavaScript's `undefined`; it is modelled by the value that has the same
   * truthiness: "" for `value` and 0 for `endAt`.
   */
  datatype State = State(value: string, endAt: int)
}
