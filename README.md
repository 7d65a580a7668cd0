# Monthly challenge bot: competition lifecycle, vote tally and leaderboard

This project models the core of a Discord bot (`challenge.js`) that runs a
monthly community challenge, and proves properties of that model in Dafny.
It has three handlers. They share one record, `currentCompetition`, and a
collection of posts:

- **Opening a competition.** A monthly job derives the competition id
  `"<year>-<month+1>"`, with no zero padding. It sets the expiry to seven days
  from now. Then it replaces the current-competition record whole.
- **Counting a reaction.** A reaction counts as a vote only if it comes from
  a non-bot user, inside a guild, with the 👍 emoji, while a competition is
  active. A counted reaction on a message that has no post creates one, with
  one vote, pinned to the current competition. On a message that already has
  a post, it adds one vote, whatever competition the post is pinned to.
- **Refreshing the leaderboard.** A job runs every 10 seconds, and each run
  does nothing unless a competition is active. It takes the ten most-voted posts of that
  competition and renders a fixed header plus one block per post (rank,
  author mention, vote count, message link). Then it edits the latest
  message of the leaderboard channel, or sends a new message if the channel
  has none.

The competition is active when the stored id is non-empty and the
competition has not ended. It has ended only when `endAt` is non-zero and the
clock is strictly past it. So the expiry instant itself still counts as
active, and a record with no `endAt` never ends.

Discord and MongoDB are replaced by an in-memory store: the class
`Bot.Store`. It holds the optional current-competition record (`state`) and
the posts keyed by message id (`posts`). It also has a ghost field,
`recorded`: the message ids of the qualifying reactions handled so far. The
store invariant `Valid()` says three things:

- every post is filed under its own message id;
- a message has a post exactly when it received a qualifying reaction;
- a post's votes equal the number of qualifying reactions on its message.

From these it follows that every post has at least one vote
(`VotesPositive`).

The clock, the calendar year and month, the guild id and "the leaderboard
channel has a latest message" are inputs of the operations. A leaderboard run
returns the `Action` it performs (`NoOp`, `Edit(content)` or
`Send(content)`), together with the posts it lists.

Modules, in dependency order:

- `Wrappers`: `Option`.
- `Decimal`: how a template literal prints an integer, and its inverse parser.
- `Records`: the `Post` and `State` records.
- `Lifecycle`: `Active`, the competition id and its parser, and the expiry.
- `Leaderboard`: the top-N specification `IsTopN`, the rendered text, the
  loop that builds it, and the edit-or-send choice.
- `Bot`: the `Store` class with the three handlers, and a client method
  `EndToEnd` that runs them in sequence.

Three facts about the code shape the model:

- A competition ends only when `now > endAt` (lines 62 and 133), so at
  `now == endAt` it is still active (`Lifecycle.ActiveAtDeadline`).
- A reaction by any bot user is rejected (`user.bot`, line 128), not only one
  by this bot.
- A vote is a read of the post, an increment and a save (lines 142-144), not
  an atomic update. The handlers run one at a time in the model.

## Model

| member | source | states |
|---|---|---|
| Lifecycle.CompetitionId | challenge.js:106 | The id of a month is its year, a dash and the 1-based month without padding; it is never empty, so a freshly opened competition is truthy. |
| Lifecycle.ParseCompetitionIdRoundTrip | challenge.js:106 | Every competition id reads back as exactly the year and 0-based month it was derived from. |
| Lifecycle.CompetitionIdInjective | challenge.js:106 | Two different calendar months never produce the same competition id. |
| Decimal.NatToString | challenge.js:71-75 | The printed form of a count is a non-empty string of decimal digits (so it has no dash), it reads back as the count, and it has no leading zero unless the count is 0. |
| Decimal.IntToString | challenge.js:106 | The printed form of an integer is non-empty, starts with a minus sign exactly when the integer is negative, and is all digits otherwise. |
| Decimal.ParseIntToString | challenge.js:106 | Reading back the printed form of any integer, negative or not, gives that integer. |
| Lifecycle.Active | challenge.js:60-63 | Definition, shared with lines 131-135: active when a record exists, its id is non-empty, and it is not the case that `endAt` is non-zero and the clock is strictly past it. |
| Lifecycle.EndAt | challenge.js:107 | Definition: the expiry is the opening instant plus 7 * 24 * 60 * 60 * 1000 ms. |
| Lifecycle.OpenedWindow | challenge.js:107 | A competition opened at a non-negative clock reading is active exactly up to and including now + 604800000 ms, under the active test of line 62. |
| Lifecycle.ActiveAtDeadline | challenge.js:131-135 | At the instant `now == endAt` the competition still counts as active, because the end test is a strict `>`. |
| Lifecycle.ActiveWithoutExpiry | challenge.js:60-63 | A record with a non-empty id and no (zero) `endAt` is active at every clock reading. |
| Lifecycle.EndedStaysEnded | challenge.js:131-135 | Activity is monotone in time: if the competition is active at a later instant, it was active at every earlier one. |
| Bot.Store.OpenCompetition | challenge.js:105-113 | After the call the current record is exactly (CompetitionId(year, month), now + 7 days), replacing whatever was stored, and the posts are unchanged. |
| Bot.Qualifies | challenge.js:128-135 | Definition: a reaction counts only when its user is not a bot, it is in a guild, its emoji is 👍 and the competition is `Active` at the current clock. |
| Bot.Store.OnReaction | challenge.js:127-154 | A reaction from a bot, outside a guild, with an emoji other than 👍 or while inactive changes nothing. Otherwise: an existing post gains exactly one vote and keeps its author, channel and (possibly older) competition; a new post is created with one vote, the message author, the given channel and the current competition id. No other post changes, and the vote-count invariant is kept. |
| Bot.VotesPositive | challenge.js:140-153 | Under the store invariant every stored post has at least one vote. |
| Bot.Store.MaxVotes | challenge.js:65-66 | Returns a message id of the given set whose post has no fewer votes than any other in the set. |
| Bot.Store.TopPosts | challenge.js:65-67 | The query returns a top-10 list of the competition's posts: min(10, matching) distinct stored posts of that competition, in non-increasing vote order, with no left-out post having more votes than the last listed one. |
| Bot.Store.Reconcile | challenge.js:60-82 | While inactive the run does nothing and lists nothing. While active it lists a top-10 of the current competition, and edits the latest message to the rendered text if one exists, otherwise sends it. |
| Leaderboard.Permalink | challenge.js:73-75 | Definition: the message link is `https://discord.com/channels/` followed by the guild, channel and message ids separated by `/`. |
| Leaderboard.Entry | challenge.js:71-75 | Definition: the block of a post is its bold rank, the author mention, the 👍 vote count with " votes", and the message link, followed by a blank line. |
| Leaderboard.Render | challenge.js:68-76 | Definition: the message is the fixed header `🏆 **Top 10 Challenge Submissions**` and a blank line (the constant `Header`), followed by the entries of the listed posts ranked from 1. |
| Leaderboard.BuildContent | challenge.js:68-76 | The loop that appends one block per post builds exactly the rendered leaderboard message. |
| Leaderboard.RenderRanks | challenge.js:70-76 | In the rendered message, the text for the posts before position i is followed directly by the entry of the i-th post under rank i + 1. |
| Leaderboard.RenderPrefix | challenge.js:68-76 | The message for a prefix of the list is a prefix of the message for the whole list. |
| Leaderboard.RenderOne | challenge.js:68-76 | The message for a single post is the header followed by that post's block ranked 1. |
| Leaderboard.Publish | challenge.js:79-82 | The run edits when the channel has a latest message and sends otherwise, always with the rendered content. |
| Leaderboard.TopOfOne | challenge.js:65-67 | When the store holds a single post, every top-N list (N >= 1) of its competition is exactly that post. |
| Leaderboard.TopNUnique | challenge.js:65-76 | When no two posts of the competition have the same vote count, any two top-N lists are equal and render the same message, so repeated runs over an unchanged store produce identical content. |
| Leaderboard.SampleTopThree | challenge.js:65-67 | With votes A:5, B:3, C:5, D:1 and a limit of 3, every top list shows A, B and C but not D, with B last. |

## Left out

- Discord client set-up, login, intents and the `ready` event (challenge.js:26-41, 157-163) are platform I/O. The guild lookup `client.guilds.cache.first()` is replaced by a guild-id input, so the early return when there is no guild (lines 57-58, 91-92) is not modelled.
- Finding or creating the `leaderboard` and `challenge` channels by name (lines 44-53, 94-103), and the announcement message with its `Asia/Karachi` date (lines 115-123), are platform side effects. The persisted state changes before the announcement.
- The model assumes the channel step succeeds. In the code it runs before anything else. If `guild.channels.create` is rejected at lines 98-102, the monthly handler ends before the upsert at lines 109-113, and no competition opens; `Bot.Store.OpenCompetition` always opens one. If the create at lines 48-52 is rejected, the 10-second job at line 56 is never installed, and no leaderboard run happens at all.
- MongoDB, the mongoose schemas, dotenv and the environment (lines 1-23, 157-158) are replaced by the in-memory store. The `key: "currentCompetition"` lookup becomes the single optional `state` field.
- The cron schedule `"0 0 23 * *"` and the 10-second interval (lines 56, 86, 90) are scheduling only. The handlers are called directly.
- `Date` and calendar derivation (line 105) are replaced by the inputs `year`, `month` (0-based, 0..11, as `getMonth` returns it) and `now` in milliseconds.
- The read-then-write race on `votes` (lines 142-144) is a concurrency issue. The handlers run one at a time, and nothing here claims an atomic increment.
- Bot.Store.TopPosts: the order among posts with equal vote counts belongs to the database. The query is specified only up to that order (relational top-10), and the in-memory query breaks ties by an arbitrary choice.
- Bot.Store.Reconcile: two runs with no change in between are proved to render the same content only when no two posts of the competition tie (`Leaderboard.TopNUnique`). With ties, the database may return a different order each time.
- A failed fetch, edit or send (caught and logged at lines 83-85) is not modelled. `Reconcile` returns the action it attempts, and a failure changes no stored state.
- A missing, `null` or `NaN` `endAt` is represented by 0, which has the same truthiness. A missing competition id is represented by the empty string.
- `now`, `endAt` and `votes` are JavaScript Numbers (doubles). The code only computes `Date.now() + 604800000` and `votes += 1` with them, which is exact below 2^53, so `int` and `nat` lose nothing the code can produce. A fractional or infinite `endAt`, which the code never writes, is not represented.
- A failed database call (`State.findOneAndUpdate` at lines 109-113, `State.findOne` at lines 60 and 131, `Post.findOne`, `post.save()` or `Post.create` at lines 140-152) ends its handler and leaves the store as it was, so that operation is lost: for the upsert, the opening of the competition; for `State.findOne` at line 60, one leaderboard run; for a reaction (lines 131 and 140-152), the vote. In the model every store call succeeds, so "a post's votes equal the number of qualifying reactions on its message" holds only when no store call fails.
- Partial Discord messages (the `Partials` option) are not modelled. Line 147 reads `reaction.message.author.id` directly, and for a message that is not cached the author may be missing. The model takes the author id as an input.
