/**
 * The in-list updates of the feed page: like and dislike bump one counter
 * on the tweets whose id matches, and in demo mode a comment is appended
 * to a tweet or a new tweet is put in front of the list.
 */
module FeedUpdates {
  import opened Wrappers
  import opened JsText
  import opened Tweets

  /** What one update does to a matching tweet. */
  datatype Edit = AddLike | AddDislike | AddComment(comment: Comment)

  function Edited(t: Tweet, e: Edit): Tweet {
    match e
    case AddLike => t.(likes := t.likes + 1)
    case AddDislike => t.(dislikes := t.dislikes + 1)
    case AddComment(c) => t.(comments := t.comments + [c])
  }

  /** `tweets.map((tweet) => (tweet.id === id ? edited(tweet) : tweet))` */
  function EditWhere(ts: seq<Tweet>, id: string, e: Edit): (r: seq<Tweet>)
    ensures |r| == |ts|
    ensures forall i :: 0 <= i < |ts| ==> r[i] == if ts[i].id == id then Edited(ts[i], e) else ts[i]
  {
    if ts == [] then []
    else [if ts[0].id == id then Edited(ts[0], e) else ts[0]] + EditWhere(ts[1..], id, e)
  }

  /** The like update: one more like on every tweet with this id, nothing else changes. */
  function Like(ts: seq<Tweet>, id: string): (r: seq<Tweet>)
    ensures |r| == |ts|
    ensures forall i :: 0 <= i < |ts| ==>
      r[i] == ts[i].(likes := ts[i].likes + if ts[i].id == id then 1 else 0)
  {
    EditWhere(ts, id, AddLike)
  }

  /** The dislike update: one more dislike on every tweet with this id, nothing else changes. */
  function Dislike(ts: seq<Tweet>, id: string): (r: seq<Tweet>)
    ensures |r| == |ts|
    ensures forall i :: 0 <= i < |ts| ==>
      r[i] == ts[i].(dislikes := ts[i].dislikes + if ts[i].id == id then 1 else 0)
  {
    EditWhere(ts, id, AddDislike)
  }

  /** The demo comment update: `c` goes last in the comments of every tweet with this id. */
  function AppendComment(ts: seq<Tweet>, tweetId: string, c: Comment): (r: seq<Tweet>)
    ensures |r| == |ts|
    ensures forall i :: 0 <= i < |ts| ==>
      r[i] == ts[i].(comments := ts[i].comments + if ts[i].id == tweetId then [c] else [])
  {
    EditWhere(ts, tweetId, AddComment(c))
  }

  /** `address || "0x0000"`: a missing or empty address falls back to the placeholder. */
  function DemoAuthor(address: Option<string>): (r: string)
    ensures r != []
    ensures address.Some? && address.value != [] ==> r == address.value
  {
    if address.Some? && address.value != [] then address.value else "0x0000"
  }

  /** The comment built by the demo-mode comment handler; `randomId` stands for `Math.random().toString()`. */
  function DemoComment(randomId: string, content: string, address: Option<string>, now: int): (r: Comment)
    ensures r.id == randomId && r.content == content && r.timestamp == now
    ensures r.author != [] && (address.Some? && address.value != [] ==> r.author == address.value)
  {
    Comment(randomId, content, DemoAuthor(address), now)
  }

  /** `[newTweet, ...tweets]` of the demo-mode create handler, the new id being `(tweets.length + 1).toString()`. */
  function PrependDemoTweet(ts: seq<Tweet>, content: string, address: Option<string>, now: int): (r: seq<Tweet>)
    ensures |r| == |ts| + 1 && r[1..] == ts
  {
    [Tweet(NatToString(|ts| + 1), content, DemoAuthor(address), now, 0, 0, [])] + ts
  }

  function TotalLikes(ts: seq<Tweet>): int {
    if ts == [] then 0 else ts[0].likes + TotalLikes(ts[1..])
  }

  function TotalDislikes(ts: seq<Tweet>): int {
    if ts == [] then 0 else ts[0].dislikes + TotalDislikes(ts[1..])
  }

  /** How many tweets carry this id. */
  function Occurrences(ts: seq<Tweet>, id: string): nat {
    if ts == [] then 0 else (if ts[0].id == id then 1 else 0) + Occurrences(ts[1..], id)
  }

  /** A like adds one like per tweet carrying the id, and leaves the dislikes alone. */
  lemma {:induction false} LikeTotals(ts: seq<Tweet>, id: string)
    ensures TotalLikes(Like(ts, id)) == TotalLikes(ts) + Occurrences(ts, id)
    ensures TotalDislikes(Like(ts, id)) == TotalDislikes(ts)
  {
    if ts != [] {
      LikeTotals(ts[1..], id);
      assert Like(ts, id)[1..] == Like(ts[1..], id);
    }
  }

  /** A dislike adds one dislike per tweet carrying the id, and leaves the likes alone. */
  lemma {:induction false} DislikeTotals(ts: seq<Tweet>, id: string)
    ensures TotalDislikes(Dislike(ts, id)) == TotalDislikes(ts) + Occurrences(ts, id)
    ensures TotalLikes(Dislike(ts, id)) == TotalLikes(ts)
  {
    if ts != [] {
      DislikeTotals(ts[1..], id);
      assert Dislike(ts, id)[1..] == Dislike(ts[1..], id);
    }
  }

  /** Liking tweet "1" with 5 likes gives it 6 and changes neither its dislikes nor its comments. */
  lemma LikeExample(t: Tweet)
    requires t.id == "1" && t.likes == 5
    ensures var r := Like([t], "1")[0]; r.likes == 6 && r.dislikes == t.dislikes && r.comments == t.comments
  {
  }

  /**
   * The ids of a list built by demo-mode creates alone: the tweet at
   * position `i` of a list of `n` has id `n - i`.
   */
  predicate CountdownIds(ts: seq<Tweet>) {
    forall i :: 0 <= i < |ts| ==> ts[i].id == NatToString(|ts| - i)
  }

  /**
   * A demo create puts one tweet in front of the unchanged list: its id reads
   * back as the new length, it has no likes, dislikes or comments, and its
   * author is the address when there is one.
   */
  lemma DemoCreateShape(ts: seq<Tweet>, content: string, address: Option<string>, now: int)
    ensures var r := PrependDemoTweet(ts, content, address, now);
      && |r| == |ts| + 1 && r[1..] == ts
      && ParseInt(r[0].id) == Some(|r|)
      && r[0].content == content && r[0].timestamp == now
      && r[0].likes == 0 && r[0].dislikes == 0 && r[0].comments == []
      && r[0].author != []
      && (address.Some? && address.value != [] ==> r[0].author == address.value)
  {
    ParseIntOfNatToString(|ts| + 1);
  }

  /** A demo create keeps the ids counting down. */
  lemma DemoCreateKeepsCountdown(ts: seq<Tweet>, content: string, address: Option<string>, now: int)
    requires CountdownIds(ts)
    ensures CountdownIds(PrependDemoTweet(ts, content, address, now))
  {
    var r := PrependDemoTweet(ts, content, address, now);
    forall i | 0 <= i < |r| ensures r[i].id == NatToString(|r| - i) {
      if i > 0 {
        assert r[i] == ts[i - 1];
      }
    }
  }

  /** Likes, dislikes and comments keep every id where it was. */
  lemma EditsKeepIds(ts: seq<Tweet>, id: string, e: Edit)
    ensures Ids(EditWhere(ts, id, e)) == Ids(ts)
  {
  }

  /** Likes, dislikes and comments keep the ids counting down. */
  lemma EditsKeepCountdown(ts: seq<Tweet>, id: string, e: Edit)
    requires CountdownIds(ts)
    ensures CountdownIds(EditWhere(ts, id, e))
  {
  }

  /** Countdown ids are distinct, so a demo-mode like or comment reaches exactly one tweet. */
  lemma CountdownIdsDistinct(ts: seq<Tweet>)
    requires CountdownIds(ts)
    ensures DistinctIds(ts)
  {
    forall i, j | 0 <= i < j < |ts| ensures ts[i].id != ts[j].id {
      NatToStringInjective(|ts| - i, |ts| - j);
    }
  }

  /** A demo create on a countdown list picks an id that no tweet in the list has. */
  lemma DemoCreateFreshId(ts: seq<Tweet>, content: string, address: Option<string>, now: int)
    requires CountdownIds(ts)
    ensures forall i :: 0 <= i < |ts| ==> ts[i].id != PrependDemoTweet(ts, content, address, now)[0].id
  {
    var r := PrependDemoTweet(ts, content, address, now);
    DemoCreateKeepsCountdown(ts, content, address, now);
    CountdownIdsDistinct(r);
    forall i | 0 <= i < |ts| ensures ts[i].id != r[0].id {
      assert r[i + 1] == ts[i];
    }
  }
}
