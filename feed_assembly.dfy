/**
 * Record assembly in `fetchTweets`: the parallel arrays returned by the
 * contract's `getTweets`, the comment ids of each tweet and each comment's
 * fields become `Tweet` and `Comment` records, with timestamps converted
 * from seconds to milliseconds.
 */
module FeedAssembly {
  import opened Wrappers
  import opened JsText
  import opened Tweets

  /** The six parallel arrays of one `getTweets(offset, limit)` call. */
  datatype RawTweets = RawTweets(
    ids: seq<nat>,
    authors: seq<string>,
    contents: seq<string>,
    timestamps: seq<nat>,   // seconds
    likes: seq<nat>,
    dislikes: seq<nat>)

  /** The four values of one `getComment(id)` call. */
  datatype RawComment = RawComment(id: nat, author: string, content: string, timestamp: nat)

  /**
   * What the contract answers during one refresh. `tweets` is `None` when the
   * contract is not initialised or `getTweetCount`/`getTweets` threw; a tweet
   * id missing from `commentIds`, or a comment id missing from `comments`,
   * stands for a `getTweetComments` or `getComment` call that threw.
   */
  datatype Chain = Chain(
    tweets: Option<RawTweets>,
    commentIds: map<string, seq<nat>>,
    comments: map<string, RawComment>)

  /** The contract is assumed to return six arrays of equal length; the page does not check it. */
  predicate Parallel(raw: RawTweets) {
    |raw.authors| == |raw.ids| && |raw.contents| == |raw.ids| && |raw.timestamps| == |raw.ids| &&
    |raw.likes| == |raw.ids| && |raw.dislikes| == |raw.ids|
  }

  predicate WellFormed(chain: Chain) {
    chain.tweets.Some? ==> Parallel(chain.tweets.value)
  }

  /** The record built from one `getComment` answer. */
  function ToComment(c: RawComment): Comment {
    Comment(NatToString(c.id), c.content, c.author, c.timestamp * 1000)
  }

  /** A built comment keeps the contract's id, readable back with `parseInt`, and its time in milliseconds. */
  lemma ToCommentFields(c: RawComment)
    ensures var r := ToComment(c);
      && ParseInt(r.id) == Some(c.id)
      && r.timestamp == c.timestamp * 1000
      && r.content == c.content && r.author == c.author
  {
    ParseIntOfNatToString(c.id);
  }

  predicate CommentsResolve(chain: Chain, cids: seq<nat>) {
    forall j :: 0 <= j < |cids| ==> NatToString(cids[j]) in chain.comments
  }

  /** Every contract call of the refresh answers. */
  predicate Resolves(chain: Chain)
    requires WellFormed(chain)
  {
    && chain.tweets.Some?
    && forall i :: 0 <= i < |chain.tweets.value.ids| ==>
         var tweetId := NatToString(chain.tweets.value.ids[i]);
         tweetId in chain.commentIds && CommentsResolve(chain, chain.commentIds[tweetId])
  }

  function CommentsOf(chain: Chain, cids: seq<nat>): seq<Comment>
    requires CommentsResolve(chain, cids)
  {
    seq(|cids|, j requires 0 <= j < |cids| => ToComment(chain.comments[NatToString(cids[j])]))
  }

  function TweetAt(chain: Chain, i: nat): Tweet
    requires WellFormed(chain) && Resolves(chain) && i < |chain.tweets.value.ids|
  {
    var raw := chain.tweets.value;
    var tweetId := NatToString(raw.ids[i]);
    Tweet(tweetId, raw.contents[i], raw.authors[i], raw.timestamps[i] * 1000,
          raw.likes[i], raw.dislikes[i], CommentsOf(chain, chain.commentIds[tweetId]))
  }

  /**
   * The records of one refresh, or `None` when a contract call threw: one
   * tweet per returned id, in contract order, each with its comments in the
   * order of its comment ids, every timestamp in milliseconds.
   */
  function Assemble(chain: Chain): (r: Option<seq<Tweet>>)
    requires WellFormed(chain)
    ensures r.None? <==> !Resolves(chain)
    ensures r.Some? ==> |r.value| == |chain.tweets.value.ids|
  {
    if Resolves(chain) then
      Some(seq(|chain.tweets.value.ids|, i requires 0 <= i < |chain.tweets.value.ids| => TweetAt(chain, i)))
    else None
  }

  /** The nested loops of `fetchTweets`, pushing one record at a time; a failing call aborts the refresh. */
  method AssembleTweets(chain: Chain) returns (r: Option<seq<Tweet>>)
    requires WellFormed(chain)
    ensures r == Assemble(chain)
  {
    if chain.tweets.None? {
      return None;
    }
    var raw := chain.tweets.value;
    var fetchedTweets: seq<Tweet> := [];
    for i := 0 to |raw.ids|
      invariant |fetchedTweets| == i
      invariant forall k :: 0 <= k < i ==>
        var tweetId := NatToString(raw.ids[k]);
        tweetId in chain.commentIds && CommentsResolve(chain, chain.commentIds[tweetId]) &&
        fetchedTweets[k] == Tweet(tweetId, raw.contents[k], raw.authors[k], raw.timestamps[k] * 1000,
                                  raw.likes[k], raw.dislikes[k], CommentsOf(chain, chain.commentIds[tweetId]))
    {
      var tweetId := NatToString(raw.ids[i]);
      if tweetId !in chain.commentIds {
        assert !Resolves(chain) by {
          assert NatToString(chain.tweets.value.ids[i]) !in chain.commentIds;
        }
        return None;
      }
      var commentIds := chain.commentIds[tweetId];
      var comments: seq<Comment> := [];
      for j := 0 to |commentIds|
        invariant |comments| == j
        invariant forall k :: 0 <= k < j ==>
          NatToString(commentIds[k]) in chain.comments &&
          comments[k] == ToComment(chain.comments[NatToString(commentIds[k])])
      {
        var commentId := NatToString(commentIds[j]);
        if commentId !in chain.comments {
          assert !Resolves(chain) by {
            assert !CommentsResolve(chain, chain.commentIds[NatToString(chain.tweets.value.ids[i])]);
          }
          return None;
        }
        var c := chain.comments[commentId];
        comments := comments + [ToComment(c)];
      }
      fetchedTweets := fetchedTweets + [Tweet(tweetId, raw.contents[i], raw.authors[i],
                                              raw.timestamps[i] * 1000, raw.likes[i], raw.dislikes[i], comments)];
    }
    assert Resolves(chain);
    r := Some(fetchedTweets);
    assert r.value == Assemble(chain).value;
  }

  /**
   * Each assembled tweet carries its contract id as a decimal string, its
   * timestamp in seconds times 1000, and its comments in comment-id order,
   * each with its timestamp in seconds times 1000.
   */
  lemma AssembledFields(chain: Chain, i: nat)
    requires WellFormed(chain) && Assemble(chain).Some? && i < |chain.tweets.value.ids|
    ensures var raw, t := chain.tweets.value, Assemble(chain).value[i];
      && t.id == NatToString(raw.ids[i])
      && t.timestamp == raw.timestamps[i] * 1000
      && t.content == raw.contents[i] && t.author == raw.authors[i]
      && t.likes == raw.likes[i] && t.dislikes == raw.dislikes[i]
      && var cids := chain.commentIds[t.id];
         |t.comments| == |cids| &&
         forall j :: 0 <= j < |cids| ==>
           var c := chain.comments[NatToString(cids[j])];
           t.comments[j] == Comment(NatToString(c.id), c.content, c.author, c.timestamp * 1000)
  {
  }

  /** Distinct contract ids give distinct tweet ids: the decimal conversion loses nothing. */
  lemma AssembledIdsDistinct(chain: Chain)
    requires WellFormed(chain) && Assemble(chain).Some?
    requires var ids := chain.tweets.value.ids; forall i, j :: 0 <= i < j < |ids| ==> ids[i] != ids[j]
    ensures DistinctIds(Assemble(chain).value)
  {
    var ts, ids := Assemble(chain).value, chain.tweets.value.ids;
    forall i, j | 0 <= i < j < |ts|
      ensures ts[i].id != ts[j].id
    {
      NatToStringInjective(ids[i], ids[j]);
    }
  }
}
