/**
 * The bot's three handlers over an in-memory store that stands in for the
 * database: the monthly competition opener, the reaction handler that tallies
 * votes, and one run of the leaderboard loop.
 */
module Bot {
  import opened Wrappers
  import opened Records
  import opened Lifecycle
  import opened Leaderboard

  /** The only reaction that counts as a vote. */
  const ThumbsUp: string := "\U{1F44D}"

  /** The gates a reaction must pass before it is counted. */
  predicate Qualifies(isBot: bool, inGuild: bool, emoji: string, state: Option<State>, now: int) {
    !isBot && inGuild && emoji == ThumbsUp && Active(state, now)
  }

  /** How many times `id` occurs in `s`. */
  ghost function Count(s: seq<string>, id: string): nat {
    if s == [] then 0 else Count(s[..|s| - 1], id) + (if s[|s| - 1] == id then 1 else 0)
  }

  lemma CountSnoc(s: seq<string>, x: string)
    ensures forall id :: Count(s + [x], id) == Count(s, id) + (if x == id then 1 else 0)
  {
    assert (s + [x])[..|s|] == s;
  }

  lemma {:induction false} CountAbsent(s: seq<string>, id: string)
    requires id !in s
    ensures Count(s, id) == 0
  {
    if s != [] {
      CountAbsent(s[..|s| - 1], id);
    }
  }

  lemma {:induction false} CountPresent(s: seq<string>, id: string)
    requires id in s
    ensures Count(s, id) >= 1
  {
    if s[|s| - 1] != id {
      CountPresent(s[..|s| - 1], id);
    }
  }

  class Store {
    /** The record under the key "currentCompetition", if one was ever written. */
    var state: Option<State>
    /** The posts, keyed by message id. */
    var posts: map<string, Post>
    /** The message ids of the qualifying reactions handled so far, in order. */
    ghost var recorded: seq<string>

    /**
     * One post per message, filed under its own message id; a message has a
     * post exactly when it received a qualifying reaction, and its votes are
     * the number of qualifying reactions it received.
     */
    ghost predicate Valid()
      reads this
    {
      && (forall id :: id in posts ==> posts[id].messageId == id && posts[id].votes == Count(recorded, id))
      && (forall id :: id in recorded <==> id in posts)
    }

    constructor ()
      ensures Valid()
      ensures state == None && posts == map[] && recorded == []
    {
      state := None;
      posts := map[];
      recorded := [];
    }

    /**
     * Opens the competition of a calendar month at clock reading `now`: the
     * current-competition record is replaced whole, whatever it held.
     */
    method OpenCompetition(year: int, month: int, now: int)
      requires Valid() && 0 <= month < 12
      modifies this`state
      ensures Valid()
      ensures state == Some(State(CompetitionId(year, month), EndAt(now)))
    {
      var competitionId := CompetitionId(year, month);
      var endAt := EndAt(now);
      state := Some(State(competitionId, endAt));
    }

    /**
     * Handles one added reaction on message `messageId` (in channel
     * `channelId`, written by `authorId`). A reaction that fails a gate
     * changes nothing; otherwise the message's post gains a vote, or is
     * created with one vote and pinned to the current competition.
     */
    method OnReaction(isBot: bool, inGuild: bool, emoji: string, messageId: string, channelId: string,
                      authorId: string, now: int)
      requires Valid()
      modifies this`posts, this`recorded
      ensures Valid()
      ensures !Qualifies(isBot, inGuild, emoji, state, now) ==> posts == old(posts) && recorded == old(recorded)
      ensures Qualifies(isBot, inGuild, emoji, state, now) ==> recorded == old(recorded) + [messageId]
      ensures Qualifies(isBot, inGuild, emoji, state, now) && messageId in old(posts) ==>
                posts == old(posts)[messageId := old(posts)[messageId].(votes := old(posts)[messageId].votes + 1)]
      ensures Qualifies(isBot, inGuild, emoji, state, now) && messageId !in old(posts) ==>
                posts == old(posts)[messageId := Post(authorId, messageId, channelId, state.value.value, 1)]
    {
      if isBot || !inGuild {
        return;
      }
      if emoji != ThumbsUp {
        return;
      }
      if !Active(state, now) {
        return;
      }
      var competitionId := state.value.value;
      if messageId in posts {
        var post := posts[messageId];
        posts := posts[messageId := post.(votes := post.votes + 1)];
      } else {
        CountAbsent(recorded, messageId);
        posts := posts[messageId := Post(authorId, messageId, channelId, competitionId, 1)];
      }
      CountSnoc(recorded, messageId);
      recorded := recorded + [messageId];
    }

    /** A message id in `ids` whose post has the most votes. */
    method MaxVotes(ids: set<string>) returns (best: string)
      requires ids != {} && ids <= posts.Keys
      ensures best in ids
      ensures AtMostVotes(ids, posts, posts[best].votes)
    {
      best :| best in ids;
      var unseen := ids - {best};
      while unseen != {}
        invariant unseen <= ids && best in ids
        invariant forall id :: id in ids - unseen ==> posts[id].votes <= posts[best].votes
        decreases unseen
      {
        var id :| id in unseen;
        if posts[id].votes > posts[best].votes {
          best := id;
        }
        unseen := unseen - {id};
      }
    }

    /**
     * The store's query for the posts of competition `cid`, sorted by votes
     * descending and cut to the first Limit; equal counts come in whatever
     * order the choice of `MaxVotes` gives.
     */
    method TopPosts(cid: string) returns (shown: seq<Post>)
      requires Valid()
      ensures IsTopN(shown, posts, cid, Limit)
    {
      var rest := Matching(posts, cid);
      shown := [];
      SelectingStart(posts, cid);
      while |shown| < Limit && rest != {}
        invariant |shown| <= Limit
        invariant Selecting(shown, rest, posts, cid)
        decreases rest
      {
        var best := MaxVotes(rest);
        SelectingStep(shown, rest, posts, cid, best);
        shown := shown + [posts[best]];
        rest := rest - {best};
      }
      SelectingDone(shown, rest, posts, cid, Limit);
    }

    /**
     * One run of the leaderboard loop at clock reading `now`: nothing while
     * no competition is active; otherwise the top posts of the current
     * competition are rendered and the latest message of the display channel
     * is edited to that content, or, if the channel has none, the content is
     * sent.
     */
    method Reconcile(now: int, guildId: string, latestExists: bool) returns (action: Action, shown: seq<Post>)
      requires Valid()
      ensures !Active(state, now) ==> action == NoOp && shown == []
      ensures Active(state, now) ==>
                IsTopN(shown, posts, state.value.value, Limit) && action == Publish(Render(shown, guildId), latestExists)
    {
      if !Active(state, now) {
        return NoOp, [];
      }
      var competitionId := state.value.value;
      shown := TopPosts(competitionId);
      var content := BuildContent(shown, guildId);
      action := Publish(content, latestExists);
    }
  }

  /** Every stored post has at least one vote. */
  lemma VotesPositive(store: Store)
    requires store.Valid()
    ensures forall id :: id in store.posts ==> store.posts[id].votes >= 1
  {
    forall id | id in store.posts ensures store.posts[id].votes >= 1 {
      CountPresent(store.recorded, id);
    }
  }

  /**
   * With one post in the store, the leaderboard is sent with that post ranked
   * first, and the next run edits the message to the same content.
   */
  method ShowLeaderboard(store: Store, post: Post, now: int, guildId: string)
    requires store.Valid() && Active(store.state, now) && Active(store.state, now + 1)
    requires store.posts == map[post.messageId := post] && post.competitionId == store.state.value.value
  {
    var action, shown := store.Reconcile(now, guildId, false);
    TopOfOne(shown, post.messageId, post, Limit);
    RenderOne(post, guildId);
    assert action == Send(Header + Entry(1, post, guildId));
    var again, shownAgain := store.Reconcile(now + 1, guildId, true);
    TopOfOne(shownAgain, post.messageId, post, Limit);
    assert again == Edit(action.content);
  }

  /**
   * A run through all three handlers: a competition opens, a message gets two
   * votes, the leaderboard is sent and then edited to the same content, and
   * a vote after the expiry is ignored.
   */
  method EndToEnd(year: int, month: int, t0: int, guildId: string)
    requires 0 <= month < 12 && t0 >= 0
  {
    var store := new Store();
    store.OpenCompetition(year, month, t0);
    var cid := CompetitionId(year, month);

    store.OnReaction(false, true, ThumbsUp, "item1", "chan", "author1", t0 + 1);
    var first := Post("author1", "item1", "chan", cid, 1);
    assert store.posts == map["item1" := first];
    store.OnReaction(true, true, ThumbsUp, "item1", "chan", "author1", t0 + 1);
    assert "x" != ThumbsUp;
    store.OnReaction(false, true, "x", "item1", "chan", "author1", t0 + 1);
    assert store.posts == map["item1" := first];
    store.OnReaction(false, true, ThumbsUp, "item1", "chan", "author1", t0 + 2);
    var post := first.(votes := 2);
    assert map["item1" := first]["item1" := post] == map["item1" := post];
    assert store.posts == map["item1" := post];

    ShowLeaderboard(store, post, t0 + 3, guildId);

    VoteAroundExpiry(store, post, t0, guildId);
  }

  /**
   * A vote at the expiry instant still counts; a vote and a leaderboard run
   * one millisecond later are ignored.
   */
  method VoteAroundExpiry(store: Store, post: Post, t0: int, guildId: string)
    requires store.Valid() && post.competitionId != "" && t0 >= 0
    requires store.state == Some(State(post.competitionId, EndAt(t0)))
    requires store.posts == map[post.messageId := post]
    modifies store
  {
    var id := post.messageId;
    store.OnReaction(false, true, ThumbsUp, id, post.channelId, post.userId, t0 + WeekMs);
    assert store.posts[id].votes == post.votes + 1;
    store.OnReaction(false, true, ThumbsUp, id, post.channelId, post.userId, t0 + WeekMs + 1);
    assert store.posts[id].votes == post.votes + 1;
    var late, shownLate := store.Reconcile(t0 + WeekMs + 1, guildId, true);
    assert late == NoOp;
  }
}
