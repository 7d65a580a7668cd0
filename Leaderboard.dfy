/**
 * The leaderboard: which posts it lists (the top ten of the active
 * competition by votes), the text it renders, and the decision to edit the
 * latest message of the display channel or to send a new one.
 */
module Leaderboard {
  import opened Decimal
  import opened Records

  /** How many posts the leaderboard lists. */
  const Limit: nat := 10

  /** The fixed first lines of the leaderboard message. */
  const Header: string := "\U{1F3C6} **Top 10 Challenge Submissions**\n\n"

  /** The fixed pieces of one leaderboard block and of a message link. */
  const VotesLead: string := "> — \U{1F44D} "
  const LinkLead: string := " votes\n[Message]("
  const LinkBase: string := "https://discord.com/channels/"

  /** What the leaderboard loop does with the display channel on one run. */
  datatype Action = NoOp | Edit(content: string) | Send(content: string)

  /** The ids of the posts of `posts` pinned to competition `cid`. */
  function Matching(posts: map<string, Post>, cid: string): set<string> {
    set k | k in posts && posts[k].competitionId == cid
  }

  /** The message ids a list of posts shows. */
  function ShownIds(shown: seq<Post>): set<string> {
    set i | 0 <= i < |shown| :: shown[i].messageId
  }

  lemma ShownIdsAppend(shown: seq<Post>, p: Post)
    ensures ShownIds(shown + [p]) == ShownIds(shown) + {p.messageId}
  {
    var s := shown + [p];
    assert s[|shown|] == p;
    forall id | id in ShownIds(shown) ensures id in ShownIds(s) {
      var i :| 0 <= i < |shown| && shown[i].messageId == id;
      assert s[i] == shown[i];
    }
  }

  function Min(a: nat, b: nat): nat {
    if a < b then a else b
  }

  /** Votes never increase along the list. */
  predicate SortedByVotes(shown: seq<Post>) {
    forall i, j :: 0 <= i < j < |shown| ==> shown[i].votes >= shown[j].votes
  }

  /** Every listed post is the stored post of its message id and belongs to competition `cid`. */
  ghost predicate Listed(shown: seq<Post>, posts: map<string, Post>, cid: string) {
    forall i :: 0 <= i < |shown| ==>
      shown[i].messageId in posts && posts[shown[i].messageId] == shown[i] && shown[i].competitionId == cid
  }

  /** No message is listed twice. */
  predicate DistinctIds(shown: seq<Post>) {
    forall i, j :: 0 <= i < j < |shown| ==> shown[i].messageId != shown[j].messageId
  }

  /** None of the posts `ids` names has more than `bound` votes. */
  ghost predicate AtMostVotes(ids: set<string>, posts: map<string, Post>, bound: nat) {
    forall id :: id in ids ==> id in posts && posts[id].votes <= bound
  }

  /**
   * `shown` is a top-`n` list of the posts of competition `cid`: as many posts
   * as there are, up to `n`, each a distinct stored post of that competition,
   * in non-increasing vote order, and no post left out has more votes than the
   * last one listed. The order among equal counts is not fixed.
   */
  ghost predicate IsTopN(shown: seq<Post>, posts: map<string, Post>, cid: string, n: nat) {
    && |shown| == Min(n, |Matching(posts, cid)|)
    && Listed(shown, posts, cid)
    && DistinctIds(shown)
    && SortedByVotes(shown)
    && (|shown| > 0 ==> AtMostVotes(Matching(posts, cid) - ShownIds(shown), posts, shown[|shown| - 1].votes))
  }

  /**
   * Part way through a selection of the top posts of `cid`: `shown` is listed
   * so far, `rest` holds the matching posts not yet listed, none of which
   * beats the last one listed.
   */
  ghost predicate Selecting(shown: seq<Post>, rest: set<string>, posts: map<string, Post>, cid: string) {
    && Partitioned(shown, rest, posts, cid)
    && Listed(shown, posts, cid)
    && DistinctIds(shown)
    && SortedByVotes(shown)
    && (|shown| > 0 ==> AtMostVotes(rest, posts, shown[|shown| - 1].votes))
  }

  /** The listed ids and `rest` split the matching ids between them. */
  ghost predicate Partitioned(shown: seq<Post>, rest: set<string>, posts: map<string, Post>, cid: string) {
    && rest !! ShownIds(shown)
    && rest + ShownIds(shown) == Matching(posts, cid)
    && |shown| + |rest| == |Matching(posts, cid)|
  }

  lemma SelectingStart(posts: map<string, Post>, cid: string)
    ensures Selecting([], Matching(posts, cid), posts, cid)
  {
    assert ShownIds([]) == {};
  }

  lemma ListedAppend(shown: seq<Post>, posts: map<string, Post>, cid: string, p: Post)
    requires Listed(shown, posts, cid)
    requires p.messageId in posts && posts[p.messageId] == p && p.competitionId == cid
    ensures Listed(shown + [p], posts, cid)
  {
    var shown' := shown + [p];
    forall i | 0 <= i < |shown'|
      ensures shown'[i].messageId in posts && posts[shown'[i].messageId] == shown'[i] && shown'[i].competitionId == cid
    {
      if i < |shown| { assert shown'[i] == shown[i]; }
    }
  }

  lemma DistinctAppend(shown: seq<Post>, p: Post)
    requires DistinctIds(shown) && p.messageId !in ShownIds(shown)
    ensures DistinctIds(shown + [p])
  {
    var shown' := shown + [p];
    forall i, j | 0 <= i < j < |shown'| ensures shown'[i].messageId != shown'[j].messageId {
      assert shown'[i] == shown[i];
      if j < |shown| {
        assert shown'[j] == shown[j];
      } else {
        assert shown[i].messageId in ShownIds(shown);
      }
    }
  }

  lemma SortedAppend(shown: seq<Post>, p: Post)
    requires SortedByVotes(shown) && (|shown| > 0 ==> shown[|shown| - 1].votes >= p.votes)
    ensures SortedByVotes(shown + [p])
  {
    var shown' := shown + [p];
    forall i, j | 0 <= i < j < |shown'| ensures shown'[i].votes >= shown'[j].votes {
      assert shown'[i] == shown[i];
      if j < |shown| {
        assert shown'[j] == shown[j];
      }
    }
  }

  /** Moving a most-voted post of `rest` to the end of the list keeps the selection on track. */
  lemma SelectingStep(shown: seq<Post>, rest: set<string>, posts: map<string, Post>, cid: string, best: string)
    requires Selecting(shown, rest, posts, cid)
    requires best in rest && posts[best].messageId == best
    requires AtMostVotes(rest, posts, posts[best].votes)
    ensures Selecting(shown + [posts[best]], rest - {best}, posts, cid)
  {
    var p := posts[best];
    PartitionedStep(shown, rest, posts, cid, best);
    assert p.messageId !in ShownIds(shown);
    ListedAppend(shown, posts, cid, p);
    DistinctAppend(shown, p);
    SortedAppend(shown, p);
  }

  lemma PartitionedStep(shown: seq<Post>, rest: set<string>, posts: map<string, Post>, cid: string, best: string)
    requires Partitioned(shown, rest, posts, cid)
    requires best in rest && best in posts && posts[best].messageId == best
    ensures Partitioned(shown + [posts[best]], rest - {best}, posts, cid)
  {
    ShownIdsAppend(shown, posts[best]);
  }

  /** A selection that has listed `n` posts, or has none left, is a top-`n` list. */
  lemma SelectingDone(shown: seq<Post>, rest: set<string>, posts: map<string, Post>, cid: string, n: nat)
    requires Selecting(shown, rest, posts, cid)
    requires |shown| <= n && (|shown| == n || rest == {})
    ensures IsTopN(shown, posts, cid, n)
  {
    assert Matching(posts, cid) - ShownIds(shown) == rest;
  }

  /** No two posts of competition `cid` have the same number of votes. */
  ghost predicate DistinctVotes(posts: map<string, Post>, cid: string) {
    forall k1, k2 :: k1 in Matching(posts, cid) && k2 in Matching(posts, cid) && posts[k1].votes == posts[k2].votes ==> k1 == k2
  }

  /** Where two lists with distinct ids agree before position i, none of those posts is the second list's i-th. */
  lemma SharedPrefixOthers(s1: seq<Post>, s2: seq<Post>, i: nat)
    requires DistinctIds(s2) && i < |s2| && i <= |s1| && s1[..i] == s2[..i]
    ensures forall m :: 0 <= m < i ==> s1[m].messageId != s2[i].messageId
  {
    forall m | 0 <= m < i ensures s1[m].messageId != s2[i].messageId {
      assert s1[m] == s1[..i][m] == s2[..i][m] == s2[m];
    }
  }

  /**
   * Where two top lists agree before position i, the second one's post at i
   * has no more votes than the first one's.
   */
  lemma TopNVotesBound(s1: seq<Post>, s2: seq<Post>, posts: map<string, Post>, cid: string, n: nat, i: nat)
    requires IsTopN(s1, posts, cid, n) && IsTopN(s2, posts, cid, n)
    requires i < |s1| && s1[..i] == s2[..i]
    ensures s2[i].votes <= s1[i].votes
  {
    var k := s2[i].messageId;
    assert k in posts && posts[k] == s2[i] && k in Matching(posts, cid);
    if k in ShownIds(s1) {
      var j :| 0 <= j < |s1| && s1[j].messageId == k;
      SharedPrefixOthers(s1, s2, i);
      assert j >= i && s1[j] == posts[k];
    } else {
      assert k in Matching(posts, cid) - ShownIds(s1);
      assert posts[k].votes <= s1[|s1| - 1].votes;
    }
  }

  /**
   * When no two posts of the competition tie, it has exactly one top-`n`
   * list, so repeated leaderboard runs over an unchanged store render the
   * same message.
   */
  lemma {:induction false} TopNUnique(s1: seq<Post>, s2: seq<Post>, posts: map<string, Post>, cid: string, n: nat, guildId: string)
    requires IsTopN(s1, posts, cid, n) && IsTopN(s2, posts, cid, n)
    requires DistinctVotes(posts, cid)
    ensures s1 == s2
    ensures Render(s1, guildId) == Render(s2, guildId)
  {
    var i := 0;
    while i < |s1|
      invariant i <= |s1| && s1[..i] == s2[..i]
    {
      TopNVotesBound(s1, s2, posts, cid, n, i);
      TopNVotesBound(s2, s1, posts, cid, n, i);
      assert s1[i].messageId in Matching(posts, cid) && s2[i].messageId in Matching(posts, cid);
      assert s1[..i + 1] == s1[..i] + [s1[i]] && s2[..i + 1] == s2[..i] + [s2[i]];
      i := i + 1;
    }
    assert s1 == s1[..i] && s2 == s2[..i];
  }

  /** Four posts of competition "c" with 5, 3, 5 and 1 votes. */
  function SamplePosts(): map<string, Post> {
    map[
      "A" := Post("u1", "A", "ch", "c", 5),
      "B" := Post("u2", "B", "ch", "c", 3),
      "C" := Post("u3", "C", "ch", "c", 5),
      "D" := Post("u4", "D", "ch", "c", 1)
    ]
  }

  lemma SampleMatching()
    ensures Matching(SamplePosts(), "c") == {"A", "B", "C", "D"}
    ensures |Matching(SamplePosts(), "c")| == 4
  {
  }

  lemma ShownIdsOfThree(shown: seq<Post>)
    requires |shown| == 3
    ensures ShownIds(shown) == {shown[0].messageId, shown[1].messageId, shown[2].messageId}
  {
    assert shown == [] + [shown[0]] + [shown[1]] + [shown[2]];
    ShownIdsAppend([], shown[0]);
    ShownIdsAppend([shown[0]], shown[1]);
    ShownIdsAppend([shown[0], shown[1]], shown[2]);
    assert ShownIds([]) == {};
  }

  /**
   * Of the sample, any top-3 list shows A, B and C and leaves out D, with A
   * and C (in either order) ahead of B.
   */
  lemma SampleTopThree(shown: seq<Post>)
    requires IsTopN(shown, SamplePosts(), "c", 3)
    ensures ShownIds(shown) == {"A", "B", "C"}
    ensures |shown| == 3 && shown[2].messageId == "B"
  {
    var posts := SamplePosts();
    SampleMatching();
    assert |shown| == 3;
    var a, b, c := shown[0].messageId, shown[1].messageId, shown[2].messageId;
    ShownIdsOfThree(shown);
    assert a != b && a != c && b != c;
    assert a in {"A", "B", "C", "D"} && b in {"A", "B", "C", "D"} && c in {"A", "B", "C", "D"};
    assert posts[a].votes >= posts[b].votes >= posts[c].votes;
    assert a != "D" && b != "D";
    assert c != "D";
    assert c == "B";
    assert {a, b, c} == {"A", "B", "C"};
  }

  /** With a single post in the store, the leaderboard of its competition is that post. */
  lemma TopOfOne(shown: seq<Post>, id: string, p: Post, n: nat)
    requires n >= 1 && p.messageId == id
    requires IsTopN(shown, map[id := p], p.competitionId, n)
    ensures shown == [p]
  {
    assert Matching(map[id := p], p.competitionId) == {id};
  }

  /** The message for a single post is the header and that post's block, ranked 1. */
  lemma RenderOne(p: Post, guildId: string)
    ensures Render([p], guildId) == Header + Entry(1, p, guildId)
  {
    ConcatSnoc([], Entry(1, p, guildId));
  }

  /** The link to a message of the guild. */
  function Permalink(guildId: string, channelId: string, messageId: string): string {
    LinkBase + guildId + "/" + channelId + "/" + messageId
  }

  /** The block for the post at 1-based position `rank`: rank, author mention, tally and link. */
  function Entry(rank: nat, p: Post, guildId: string): string {
    "**" + NatToString(rank) + ".** <@" + p.userId + VotesLead + NatToString(p.votes)
    + LinkLead + Permalink(guildId, p.channelId, p.messageId) + ")\n\n"
  }

  /** The blocks for `shown`, the post at position i ranked i + 1. */
  function Blocks(shown: seq<Post>, guildId: string): (blocks: seq<string>)
    ensures |blocks| == |shown|
  {
    seq(|shown|, i requires 0 <= i < |shown| => Entry(i + 1, shown[i], guildId))
  }

  /** The strings of `parts`, one after the other. */
  function Concat(parts: seq<string>): string {
    if parts == [] then "" else Concat(parts[..|parts| - 1]) + parts[|parts| - 1]
  }

  /** The whole leaderboard message for a list of posts. */
  function Render(shown: seq<Post>, guildId: string): string {
    Header + Concat(Blocks(shown, guildId))
  }

  /** The blocks of a prefix of the list are that prefix of the blocks. */
  lemma BlocksPrefix(shown: seq<Post>, k: nat, guildId: string)
    requires k <= |shown|
    ensures Blocks(shown[..k], guildId) == Blocks(shown, guildId)[..k]
  {
    forall i | 0 <= i < k ensures Blocks(shown[..k], guildId)[i] == Blocks(shown, guildId)[i] {
      assert shown[..k][i] == shown[i];
    }
  }

  lemma ConcatSnoc(parts: seq<string>, x: string)
    ensures Concat(parts + [x]) == Concat(parts) + x
  {
    assert (parts + [x])[..|parts|] == parts;
  }

  lemma {:induction false} ConcatPrefix(parts: seq<string>, k: nat)
    requires k <= |parts|
    ensures Concat(parts[..k]) <= Concat(parts)
    decreases |parts|
  {
    if k < |parts| {
      var init := parts[..|parts| - 1];
      assert init[..k] == parts[..k];
      ConcatPrefix(init, k);
    } else {
      assert parts[..k] == parts;
    }
  }

  /** Rendering a longer list only appends to the message of its prefix. */
  lemma RenderPrefix(shown: seq<Post>, k: nat, guildId: string)
    requires k <= |shown|
    ensures Render(shown[..k], guildId) <= Render(shown, guildId)
  {
    BlocksPrefix(shown, k, guildId);
    ConcatPrefix(Blocks(shown, guildId), k);
  }

  /** Rendering one more post of the list appends that post's block. */
  lemma RenderStep(shown: seq<Post>, i: nat, guildId: string)
    requires i < |shown|
    ensures Render(shown[..i + 1], guildId) == Render(shown[..i], guildId) + Entry(i + 1, shown[i], guildId)
  {
    var blocks, e := Blocks(shown, guildId), Entry(i + 1, shown[i], guildId);
    BlocksPrefix(shown, i, guildId);
    BlocksPrefix(shown, i + 1, guildId);
    assert blocks[..i + 1] == blocks[..i] + [e];
    ConcatSnoc(blocks[..i], e);
    assert (Header + Concat(blocks[..i])) + e == Header + (Concat(blocks[..i]) + e);
  }

  /**
   * The rendered message holds, after the blocks of the posts before it, the
   * block of the i-th (0-based) post under rank i + 1.
   */
  lemma RenderRanks(shown: seq<Post>, guildId: string)
    ensures forall i :: 0 <= i < |shown| ==>
      Render(shown[..i], guildId) + Entry(i + 1, shown[i], guildId) <= Render(shown, guildId)
  {
    forall i | 0 <= i < |shown|
      ensures Render(shown[..i], guildId) + Entry(i + 1, shown[i], guildId) <= Render(shown, guildId)
    {
      RenderStep(shown, i, guildId);
      RenderPrefix(shown, i + 1, guildId);
    }
  }

  /** Builds the leaderboard message by appending one block per post. */
  method BuildContent(shown: seq<Post>, guildId: string) returns (content: string)
    ensures content == Render(shown, guildId)
  {
    content := Header;
    BlocksPrefix(shown, 0, guildId);
    for i := 0 to |shown|
      invariant content == Render(shown[..i], guildId)
    {
      RenderStep(shown, i, guildId);
      content := content + Entry(i + 1, shown[i], guildId);
    }
    assert shown[..|shown|] == shown;
  }

  /** The edit-or-send decision once the content is rendered. */
  function Publish(content: string, latestExists: bool): (a: Action)
    ensures a != NoOp
    ensures a.Edit? <==> latestExists
    ensures a.content == content
  {
    if latestExists then Edit(content) else Send(content)
  }
}
