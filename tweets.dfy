/** The view-model records that the feed and the cards display. */
module Tweets {
  /** A comment, owned by exactly one tweet. */
  datatype Comment = Comment(id: string, content: string, author: string, timestamp: int)

  /** A tweet with its comments in the order the contract returned them. */
  datatype Tweet = Tweet(
    id: string,
    content: string,
    author: string,
    timestamp: int,   // milliseconds since the epoch
    likes: int,
    dislikes: int,
    comments: seq<Comment>)

  function Ids(ts: seq<Tweet>): seq<string> {
    seq(|ts|, i requires 0 <= i < |ts| => ts[i].id)
  }

  predicate DistinctIds(ts: seq<Tweet>) {
    forall i, j :: 0 <= i < j < |ts| ==> ts[i].id != ts[j].id
  }
}
