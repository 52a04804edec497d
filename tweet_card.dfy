/**
 * The helpers of `TweetCard`: the comment submit guard and its button, the
 * abbreviated author, the avatar initials, the avatar colour chosen by
 * `% 4`, the comment-count badge and the comments toggle.
 */
module TweetCard {
  import opened Wrappers
  import opened JsText
  import opened Tweets
  import opened FeedUpdates

  /** The four avatar gradients, in the order of the conditional chain. */
  datatype Gradient = GreenToYellow | PurpleToPink | OrangeToYellow | BlueToTeal

  /** `r === 0 ? … : r === 1 ? … : r === 2 ? … : …` */
  function Bucket(r: int): Gradient {
    if r == 0 then GreenToYellow
    else if r == 1 then PurpleToPink
    else if r == 2 then OrangeToYellow
    else BlueToTeal
  }

  /** The gradient of a tweet's avatar, from `Number.parseInt(tweet.id) % 4`; NaN matches no case. */
  function TweetGradient(id: string): (g: Gradient)
    ensures ParseInt(id).None? ==> g == BlueToTeal
    ensures ParseInt(id).Some? && ParseInt(id).value >= 0 ==> g == Bucket(ParseInt(id).value % 4)
    ensures ParseInt(id).Some? && ParseInt(id).value < 0 ==>
      g == (if ParseInt(id).value % 4 == 0 then GreenToYellow else BlueToTeal)
  {
    match ParseInt(id)
    case None => BlueToTeal
    case Some(n) => Bucket(JsRem(n, 4))
  }

  /** The gradient of the avatar of the comment at `index`, from `index % 4`. */
  function CommentGradient(index: nat): (g: Gradient)
    ensures g == Bucket(index % 4)
  {
    Bucket(JsRem(index, 4))
  }

  /** Buckets 0, 1 and 2 have gradients of their own; every other value shares the last one. */
  lemma BucketsDistinct(r: int)
    ensures Bucket(0) != Bucket(1) && Bucket(1) != Bucket(2) && Bucket(0) != Bucket(2)
    ensures Bucket(r) == BlueToTeal <==> r != 0 && r != 1 && r != 2
  {
  }

  /**
   * A tweet whose id is the decimal string of a contract id `n` gets the
   * colour of the `n`-th comment: `parseInt` reads back exactly `n`.
   */
  lemma TweetGradientOfContractId(n: nat)
    ensures TweetGradient(NatToString(n)) == CommentGradient(n) == Bucket(n % 4)
  {
    ParseIntOfNatToString(n);
  }

  /** Consecutive comments cycle through the gradients with period four. */
  lemma CommentGradientPeriodic(index: nat)
    ensures CommentGradient(index + 4) == CommentGradient(index)
  {
  }

  /**
   * `%` truncates in JavaScript: the id "-6" leaves remainder -2 and falls to
   * the last gradient, where Euclidean remainder 2 would pick the third.
   */
  lemma NegativeIdFallsThrough()
    ensures TweetGradient("-6") == BlueToTeal && Bucket(-6 % 4) == OrangeToYellow
  {
    ParseMinusSix();
    assert JsRem(-6, 4) == -2;
  }

  /** `parseInt("-6")` is -6. */
  lemma ParseMinusSix()
    ensures ParseInt("-6") == Some(-6)
  {
    var s := "-6";
    var t := TrimStart(s);
    assert t == s by {
      assert !IsWhiteSpace(s[0]);
    }
    var u := t[1..];
    assert u == "6" && |u| < 2;
    var z := DigitPrefix(u, 10);
    assert z == "6" by {
      assert IsDigit(u[0], 10);
      assert DigitPrefix(u[1..], 10) == [];
    }
    assert DigitsValue(z, 10) == 6 by {
      assert z[..0] == [];
    }
  }

  /** An id with no leading digits parses to NaN and falls to the last gradient. */
  lemma NonNumericIdFallsThrough(id: string)
    requires id != [] && !IsWhiteSpace(id[0]) && id[0] != '-' && id[0] != '+' && !IsDigit(id[0], 10)
    ensures TweetGradient(id) == BlueToTeal
  {
    assert TrimStart(id) == id;
  }

  /** `author.slice(0, 6) + "..." + author.slice(-4)` */
  function Abbreviate(author: string): (r: string)
    ensures var head := if |author| < 6 then |author| else 6;
      |r| == head + 3 + (if |author| < 4 then |author| else 4) && r[head..head + 3] == "..."
  {
    Slice(author, 0, 6) + "..." + Slice(author, -4, |author|)
  }

  /** An author of at least ten characters shows its first six and last four around the dots. */
  lemma AbbreviateLong(author: string)
    requires |author| >= 10
    ensures Abbreviate(author) == author[..6] + "..." + author[|author| - 4..]
    ensures |Abbreviate(author)| == 13
  {
    AbbreviateClamped(author);
  }

  /**
   * For every length both slices clamp to the ends: a short author shows
   * whatever it has, and for fewer than ten characters the two parts overlap.
   */
  lemma AbbreviateClamped(author: string)
    ensures var n := |author|;
      Abbreviate(author) == author[..(if n < 6 then n else 6)] + "..." + author[(if n < 4 then 0 else n - 4)..]
    ensures |author| <= 4 ==> Abbreviate(author) == author + "..." + author
  {
  }

  /** `author.slice(2, 4).toUpperCase()` */
  function Initials(author: string): (r: string)
    ensures |r| == (if |author| >= 4 then 2 else if |author| == 3 then 1 else 0)
    ensures forall k :: 0 <= k < |r| ==> r[k] == UpperChar(author[2 + k])
  {
    ToUpperCase(Slice(author, 2, 4))
  }

  /** The initials are the third and fourth characters upper-cased, as far as the author reaches. */
  lemma InitialsChars(author: string)
    ensures |author| >= 4 ==> Initials(author) == [UpperChar(author[2]), UpperChar(author[3])]
    ensures |author| == 3 ==> Initials(author) == [UpperChar(author[2])]
    ensures |author| <= 2 ==> Initials(author) == []
  {
  }

  /** `!commentText.trim()`, the send button's `disabled`. */
  function SendDisabled(text: string): (r: bool)
    ensures r <==> forall i :: 0 <= i < |text| ==> IsWhiteSpace(text[i])
  {
    BlankIffAllWhiteSpace(text);
    IsBlank(text)
  }

  /** The comment-count badge. */
  function CommentCount(t: Tweet): (r: nat)
    ensures r > 0 <==> t.comments != []
  {
    |t.comments|
  }

  /** Likes and dislikes leave every comment-count badge as it was. */
  lemma VotesKeepBadge(ts: seq<Tweet>, id: string, i: nat)
    requires i < |ts|
    ensures CommentCount(Like(ts, id)[i]) == CommentCount(ts[i])
    ensures CommentCount(Dislike(ts, id)[i]) == CommentCount(ts[i])
  {
  }

  /** A demo-mode comment raises the badge of each matching tweet by one and of no other. */
  lemma AppendCommentBadge(ts: seq<Tweet>, tweetId: string, c: Comment, i: nat)
    requires i < |ts|
    ensures CommentCount(AppendComment(ts, tweetId, c)[i]) ==
      CommentCount(ts[i]) + if ts[i].id == tweetId then 1 else 0
  {
  }

  /** The call `onAddComment(tweet.id, commentText)`. */
  datatype CommentRequest = CommentRequest(tweetId: string, content: string)

  /** A card's state cells. */
  class Card {
    const tweet: Tweet
    var showComments: bool
    var commentText: string

    constructor (tweet: Tweet)
      ensures this.tweet == tweet && !showComments && commentText == []
    {
      this.tweet := tweet;
      showComments := false;
      commentText := [];
    }

    /** The comments button flips `showComments`. */
    method ToggleComments()
      modifies this
      ensures showComments == !old(showComments) && commentText == old(commentText)
    {
      showComments := !showComments;
    }

    /** `onChange` of the comment input. */
    method Change(text: string)
      modifies this
      ensures commentText == text && showComments == old(showComments)
    {
      commentText := text;
    }

    /**
     * `handleSubmitComment`: it sends exactly when the send button is
     * enabled, passing the untrimmed text with the tweet's id, and then
     * clears the text; blank text changes nothing.
     */
    method HandleSubmitComment() returns (request: Option<CommentRequest>)
      modifies this
      ensures request.Some? <==> !SendDisabled(old(commentText))
      ensures request.Some? ==> request.value == CommentRequest(tweet.id, old(commentText)) && commentText == []
      ensures request.None? ==> commentText == old(commentText)
      ensures showComments == old(showComments)
    {
      if !IsBlank(commentText) {
        request := Some(CommentRequest(tweet.id, commentText));
        commentText := [];
      } else {
        request := None;
      }
    }
  }
}
