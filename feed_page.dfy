/**
 * The feed page's list state and its handlers: `fetchTweets` (assemble,
 * filter, sort), `handleLike`, `handleDislike`, `handleCreateTweet` and
 * `handleAddComment`, each with its confirmed-transaction path, its
 * demo-mode path and its error path.
 */
module FeedPage {
  import opened Wrappers
  import opened Tweets
  import opened FeedAssembly
  import opened FeedOrder
  import opened FeedUpdates

  /** The configured address that switches the page to demo mode. */
  const ZeroAddress: string := "0x0000000000000000000000000000000000000000"

  /** One refresh: assemble, filter, sort; `None` when a contract call threw. */
  function Refresh(chain: Chain, filter: string, sortOption: string, cutoffs: Cutoffs): (r: Option<seq<Tweet>>)
    requires WellFormed(chain)
    ensures r.None? <==> !Resolves(chain)
    ensures r.Some? ==> |r.value| <= |chain.tweets.value.ids|
  {
    match Assemble(chain)
    case None => None
    case Some(fetched) => Some(SortFeed(sortOption, ApplyFilter(filter, cutoffs, fetched)))
  }

  /** The body of the `try` in `fetchTweets`: the filtered list is copied and sorted in place. */
  method FetchFeed(chain: Chain, filter: string, sortOption: string, cutoffs: Cutoffs)
    returns (r: Option<seq<Tweet>>)
    requires WellFormed(chain)
    ensures r == Refresh(chain, filter, sortOption, cutoffs)
  {
    var fetched := AssembleTweets(chain);
    if fetched.None? {
      return None;
    }
    var filteredTweets := ApplyFilter(filter, cutoffs, fetched.value);
    var a := new Tweet[|filteredTweets|](i requires 0 <= i < |filteredTweets| => filteredTweets[i]);
    assert a[..] == filteredTweets;
    SortInPlace(a, sortOption);
    r := Some(a[..]);
  }

  /**
   * A refreshed feed holds exactly the assembled tweets that pass the window
   * (each as often as it was assembled), in the selected order.
   */
  lemma RefreshContents(chain: Chain, filter: string, sortOption: string, cutoffs: Cutoffs)
    requires WellFormed(chain) && Refresh(chain, filter, sortOption, cutoffs).Some?
    ensures var feed, fetched := Refresh(chain, filter, sortOption, cutoffs).value, Assemble(chain).value;
      && multiset(feed) == multiset(ApplyFilter(filter, cutoffs, fetched))
      && (WindowStart(filter, cutoffs).None? ==> multiset(feed) == multiset(fetched))
      && (WindowStart(filter, cutoffs).Some? ==>
            forall t :: t in feed <==> t in fetched && t.timestamp >= WindowStart(filter, cutoffs).value)
      && (ParseSortOption(sortOption).Some? ==> Sorted(ParseSortOption(sortOption).value, feed))
      && (ParseSortOption(sortOption).None? ==> feed == ApplyFilter(filter, cutoffs, fetched))
  {
    var feed, fetched := Refresh(chain, filter, sortOption, cutoffs).value, Assemble(chain).value;
    var filtered := ApplyFilter(filter, cutoffs, fetched);
    forall t ensures t in feed <==> t in filtered {
      assert t in feed <==> t in multiset(feed);
      assert t in filtered <==> t in multiset(filtered);
    }
  }

  /** The state of `TweetsPage`: the displayed list and whether a contract object exists. */
  class TweetsPage {
    var tweets: seq<Tweet>
    var contractReady: bool
    const demoMode: bool

    /** The contract is never initialised for the zero address. */
    ghost predicate Valid()
      reads this
    {
      demoMode ==> !contractReady
    }

    constructor (contractAddress: string)
      ensures Valid()
      ensures demoMode == (contractAddress == ZeroAddress)
      ensures tweets == [] && !contractReady
    {
      tweets := [];
      contractReady := false;
      demoMode := contractAddress == ZeroAddress;
    }

    /**
     * `initializeContract`: with a provider and a non-zero address a contract
     * is created, unless the checksum, the signer or the constructor throws
     * (`initOk` false). An existing contract is kept.
     */
    method InitializeContract(providerPresent: bool, initOk: bool)
      requires Valid()
      modifies this`contractReady
      ensures Valid()
      ensures contractReady == (old(contractReady) || (providerPresent && !demoMode && initOk))
    {
      if providerPresent && !demoMode && initOk {
        contractReady := true;
      }
    }

    /**
     * `fetchTweets`: the refreshed feed replaces the list; on any failure the
     * demo data `mockTweets` replaces it in demo mode, unfiltered and
     * unsorted, and otherwise the list stays as it was.
     */
    method FetchTweets(chain: Chain, filter: string, sortOption: string, cutoffs: Cutoffs, mockTweets: seq<Tweet>)
      requires Valid() && WellFormed(chain)
      modifies this`tweets
      ensures Valid()
      ensures var r := if contractReady then Refresh(chain, filter, sortOption, cutoffs) else None;
        tweets == if r.Some? then r.value else if demoMode then mockTweets else old(tweets)
    {
      var r: Option<seq<Tweet>> := None;
      if contractReady {
        r := FetchFeed(chain, filter, sortOption, cutoffs);
      }
      if r.Some? {
        tweets := r.value;
      } else if demoMode {
        tweets := mockTweets;
      }
    }

    /**
     * `handleLike`: after a confirmed transaction (`txConfirmed`, with a
     * contract present), or in demo mode, the like update is applied to the
     * list; otherwise nothing changes.
     */
    method HandleLike(id: string, txConfirmed: bool)
      requires Valid()
      modifies this`tweets
      ensures Valid()
      ensures tweets == if (contractReady && txConfirmed) || demoMode then Like(old(tweets), id) else old(tweets)
    {
      if (contractReady && txConfirmed) || demoMode {
        tweets := Like(tweets, id);
      }
    }

    /** `handleDislike`, the same as `handleLike` with the dislike update. */
    method HandleDislike(id: string, txConfirmed: bool)
      requires Valid()
      modifies this`tweets
      ensures Valid()
      ensures tweets == if (contractReady && txConfirmed) || demoMode then Dislike(old(tweets), id) else old(tweets)
    {
      if (contractReady && txConfirmed) || demoMode {
        tweets := Dislike(tweets, id);
      }
    }

    /**
     * `handleCreateTweet`: a confirmed transaction asks for a refresh
     * (`refresh`) and leaves the list; in demo mode the new tweet is put in
     * front; otherwise nothing changes.
     */
    method HandleCreateTweet(content: string, txConfirmed: bool, address: Option<string>, now: int)
      returns (refresh: bool)
      requires Valid()
      modifies this`tweets
      ensures Valid()
      ensures refresh == (contractReady && txConfirmed)
      ensures tweets == if !refresh && demoMode then PrependDemoTweet(old(tweets), content, address, now) else old(tweets)
    {
      refresh := contractReady && txConfirmed;
      if !refresh && demoMode {
        tweets := PrependDemoTweet(tweets, content, address, now);
      }
    }

    /**
     * `handleAddComment`: a confirmed transaction asks for a refresh; in
     * demo mode the new comment goes last on the matching tweet; otherwise
     * nothing changes.
     */
    method HandleAddComment(tweetId: string, content: string, txConfirmed: bool, address: Option<string>,
                            now: int, randomId: string)
      returns (refresh: bool)
      requires Valid()
      modifies this`tweets
      ensures Valid()
      ensures refresh == (contractReady && txConfirmed)
      ensures tweets == if !refresh && demoMode
        then AppendComment(old(tweets), tweetId, DemoComment(randomId, content, address, now))
        else old(tweets)
    {
      refresh := contractReady && txConfirmed;
      if !refresh && demoMode {
        tweets := AppendComment(tweets, tweetId, DemoComment(randomId, content, address, now));
      }
    }
  }
}
