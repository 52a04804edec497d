# saysome in Dafny

A model of the logic inside saysome, a small decentralised "tweet" front end
over an Ethereum contract. The model covers the four places where the app
computes something rather than only rendering or calling out:

- **The feed page** (`app/says/page.tsx`).
  - `fetchTweets` turns the contract's parallel arrays and the per-tweet
    comment lookups into `Tweet` records, converting seconds to milliseconds.
  - It keeps the tweets inside the selected time window (`today`, `week`,
    `month`, or everything).
  - It sorts them with one of three comparators, using the stable
    `Array.prototype.sort` of ECMA-262 (2019 and later).
  - The like, dislike, create and comment handlers each have three paths:
    the confirmed-transaction path, the demo-mode path and the error path.
- **The wallet session** (`hooks/use-wallet.tsx`). Three state cells move
  together under the initial check, the `accountsChanged` handler, `connect`
  and `disconnect`.
- **The composition form** (`components/create-tweet.tsx`). It has a submit
  guard, a disabled predicate for the button, the remaining-characters count,
  and the expand/collapse state.
- **The tweet card** (`components/tweet-card.tsx`). It has the comment submit
  guard, the abbreviated author, the avatar initials, one of four avatar
  gradients, the comment-count badge and the comments toggle.

Modules:

| module | file | what it holds |
|---|---|---|
| `Wrappers` | `wrappers.dfy` | `Option` |
| `JsText` | `js_text.dfy` | the JavaScript built-ins the core relies on |
| `Tweets` | `tweets.dfy` | the `Tweet` and `Comment` records of `types/tweet.ts` |
| `FeedAssembly` | `feed_assembly.dfy` | record assembly |
| `FeedOrder` | `feed_order.dfy` | the window filter and the sort |
| `FeedUpdates` | `feed_updates.dfy` | the list updates |
| `FeedPage` | `feed_page.dfy` | the page state and its handlers |
| `Wallet` | `wallet.dfy` | the wallet session |
| `CreateTweet` | `create_tweet.dfy` | the composition form |
| `TweetCard` | `tweet_card.dfy` | the card helpers |

The JavaScript built-ins in `JsText` are:
- `trim` with the full ECMA-262 white-space set;
- `length` in UTF-16 code units;
- `slice` with negative and out-of-range arguments;
- `toUpperCase`;
- `Number.parseInt`;
- decimal `toString`;
- the truncating `%`.

Forms:
- Pure expressions are functions on sequences.
- The nested loops of the assembly are a method with loop invariants,
  proved equal to the function `Assemble`.
- The in-place sort is a method over an `array<Tweet>`, proved equal to the
  stable insertion sort `SortFeed`.
- React state cells are fields of classes (`TweetsPage`, `WalletSession`,
  `Composer`, `Card`). Each handler is a method that states the complete new
  state.

Inputs from outside are parameters:
- **Contract answers.** A `Chain` value records what every call answered. A
  missing map key stands for a call that threw.
- **Wallet answers.** `AccountsAnswer` holds the returned accounts or a thrown
  error.
- **Presence flags.** Whether `window.ethereum` is present, whether the
  provider exists, and whether a transaction was confirmed.
- **Time and randomness.** The calendar cutoffs (`Cutoffs`), `Date.now()`
  (`now`) and `Math.random().toString()` (`randomId`).

One consequence of the code is easy to miss: `newest` and `oldest` are not
each other's reverse. Both sorts are stable, so tied timestamps keep their
input order under either. `FeedOrder.NewestOldestTies` proves this.

## Model

| member | source | states |
|---|---|---|
| JsText.TrimStart | components/create-tweet.tsx:22 | the result is a suffix of the input; only white space was removed, and the result does not start with white space |
| JsText.TrimEnd | components/create-tweet.tsx:22 | the result is a prefix of the input; only white space was removed, and the result does not end with white space |
| JsText.BlankIffAllWhiteSpace | components/tweet-card.tsx:28 | `!s.trim()` holds exactly when every character of `s` is ECMA-262 white space |
| JsText.Utf16Length | components/create-tweet.tsx:52 | `length` lies between the character count and twice it, and equals the character count exactly when no character is outside the Basic Multilingual Plane |
| JsText.RelativeIndex | components/tweet-card.tsx:55 | `slice` clamps an index into `0..len`; a negative index counts from the end |
| JsText.Slice | components/tweet-card.tsx:55 | the slice runs from the clamped start to the clamped end, and is empty when the end does not lie after the start |
| JsText.ToUpperCase | components/tweet-card.tsx:50 | upper-casing keeps the length |
| JsText.DigitPrefix | components/tweet-card.tsx:41 | `parseInt` reads the longest prefix of digits: every character of it is a digit, and the next character is not |
| JsText.ParseInt | components/tweet-card.tsx:41 | blank text, and text whose first non-blank character is neither a sign nor a decimal digit, give NaN; a negative result needs a leading minus |
| JsText.NatToString | app/says/page.tsx:111 | `toString` of a contract id is a non-empty run of decimal digits |
| JsText.DigitsValueOfNatToString | app/says/page.tsx:111 | the digits of `n.toString()` stand for `n` |
| JsText.ParseIntOfDigits | components/tweet-card.tsx:41 | `parseInt` of a non-empty run of decimal digits is the number the digits spell |
| JsText.ParseIntOfNatToString | components/tweet-card.tsx:41 | `parseInt(n.toString())` is `n` for every non-negative `n` |
| JsText.NatToStringInjective | app/says/page.tsx:111 | different contract ids give different id strings, and equal ones give equal strings |
| JsText.JsRem | components/tweet-card.tsx:41 | JavaScript's `%` agrees with the Euclidean remainder for a non-negative left operand; otherwise it is the Euclidean remainder minus the divisor, or 0 when the divisor divides the operand |
| FeedAssembly.Assemble | app/says/page.tsx:108-139 | assembly fails exactly when some contract call threw; otherwise it gives one tweet per returned id |
| FeedAssembly.AssembleTweets | app/says/page.tsx:108-139 | the nested loops return exactly what `Assemble` describes, including the abort when a call throws |
| FeedAssembly.ToCommentFields | app/says/page.tsx:122-127 | `ToComment` builds a comment whose id reads back with `parseInt` as the contract id, whose timestamp is the contract's seconds times 1000, and whose content and author are the contract's |
| FeedAssembly.AssembledFields | app/says/page.tsx:122-138 | the tweet at position i has the i-th id as a decimal string, the i-th content, author, likes and dislikes, and the i-th timestamp times 1000; its comments follow its comment ids in order, each with its timestamp times 1000 |
| FeedAssembly.AssembledIdsDistinct | app/says/page.tsx:111 | distinct contract ids give assembled tweets with distinct ids |
| FeedOrder.KeepSince | app/says/page.tsx:147 | the filter keeps no more tweets than it was given, and each kept tweet is at or after the cutoff |
| FeedOrder.WindowStart | app/says/page.tsx:145-153 | a cutoff applies exactly for `today`, `week` and `month`, which select the start of the day, of the week and of the month; every other filter value selects none |
| FeedOrder.KeepSinceMembers | app/says/page.tsx:147 | a tweet survives the filter exactly when it was in the list and is at or after the cutoff |
| FeedOrder.KeepSinceAppend | app/says/page.tsx:147 | filtering a concatenation filters each part, so kept tweets keep their relative order |
| FeedOrder.KeepSinceAllRecent | app/says/page.tsx:147 | a list whose tweets all meet the cutoff passes the filter unchanged |
| FeedOrder.ApplyFilter | app/says/page.tsx:141-154 | `all` or an unknown filter value leaves the list unchanged; `today`, `week` and `month` keep exactly the tweets at or after their cutoff |
| FeedOrder.Compare | app/says/page.tsx:158-162 | the comparator puts `a` first exactly when it is newer (`newest`), older (`oldest`) or more liked (`mostLiked`), and returns 0 exactly for equal keys |
| FeedOrder.CompareTransitive | app/says/page.tsx:156-163 | each comparator is transitive on "goes no later than" |
| FeedOrder.CompareFlip | app/says/page.tsx:156-163 | each comparator is antisymmetric, so any two tweets compare one way or the other |
| FeedOrder.Insert | app/says/page.tsx:156-163 | one insertion step adds exactly one element |
| FeedOrder.InsertPermutes | app/says/page.tsx:156-163 | an insertion step adds the new tweet and loses nothing |
| FeedOrder.InsertSorted | app/says/page.tsx:156-163 | inserting into a sorted list keeps it sorted |
| FeedOrder.InsertAt | app/says/page.tsx:156-163 | the inserted tweet lands just after the last element it does not go before |
| FeedOrder.InsertionSort | app/says/page.tsx:156-163 | the sort keeps the length |
| FeedOrder.InsertionSortPermutes | app/says/page.tsx:156-163 | the sorted list is a permutation of the input |
| FeedOrder.InsertionSortSorted | app/says/page.tsx:156-163 | the sorted list is in comparator order |
| FeedOrder.KeepKey | app/says/page.tsx:162 | picking the tweets with one key value yields only tweets with that key |
| FeedOrder.InsertKeepKey | app/says/page.tsx:162 | an insertion step puts the new tweet after every earlier tweet with its key and moves no tied tweet past another |
| FeedOrder.InsertionSortKeepsTies | app/says/page.tsx:162 | the sort is stable: the tweets sharing a key come out in the order they went in |
| FeedOrder.SortFeed | app/says/page.tsx:156-163 | the result is a permutation of the input; it is sorted when the option is `newest`, `oldest` or `mostLiked`, and unchanged for any other option |
| FeedOrder.SortFeedOrders | app/says/page.tsx:156-163 | `newest` gives non-increasing timestamps, `oldest` non-decreasing timestamps, `mostLiked` non-increasing likes |
| FeedOrder.SortFeedStable | app/says/page.tsx:156-163 | for every option, tweets with equal keys keep their filtered relative order |
| FeedOrder.MostLikedExample | app/says/page.tsx:162 | likes 5, 10, 8 come out as 10, 8, 5 |
| FeedOrder.NewestOldestTies | app/says/page.tsx:157-160 | with tied timestamps both `newest` and `oldest` keep the input order, so they are not each other's reverse |
| FeedOrder.OptionNames | app/says/page.tsx:157-161 | the three option names select the three orders |
| FeedOrder.ShiftRight | app/says/page.tsx:156-163 | the inner loop shifts one place right exactly the trailing elements of the sorted prefix that the new tweet goes before, and touches nothing else |
| FeedOrder.InsertInPlace | app/says/page.tsx:156-163 | one pass over the array leaves its prefix equal to `Insert` of the old prefix and the old element, and the rest unchanged |
| FeedOrder.SortInPlace | app/says/page.tsx:156-163 | sorting the array in place leaves it equal to `SortFeed` of its old contents |
| FeedUpdates.EditWhere | app/says/page.tsx:305 | a `map` update keeps the length and edits exactly the tweets whose id matches |
| FeedUpdates.Like | app/says/page.tsx:305 | like adds one like to each tweet with the id; every other field, every other tweet, and the list's length and order stay the same |
| FeedUpdates.Dislike | app/says/page.tsx:341 | dislike adds one dislike to each tweet with the id, and nothing else changes |
| FeedUpdates.AppendComment | app/says/page.tsx:396-400 | the demo comment goes last in the comments of each tweet with the id, and nothing else changes |
| FeedUpdates.DemoAuthor | app/says/page.tsx:263 | the author is the address when it is present and non-empty, and is never empty |
| FeedUpdates.DemoComment | app/says/page.tsx:389-394 | the demo comment carries the random id, the content and the current time, and its author is the address when present and non-empty, never empty |
| FeedUpdates.PrependDemoTweet | app/says/page.tsx:260-270 | a demo create adds one tweet in front and the old list follows unchanged |
| FeedUpdates.LikeTotals | app/says/page.tsx:305 | a like raises the total likes by the number of tweets with the id and leaves the total dislikes alone |
| FeedUpdates.DislikeTotals | app/says/page.tsx:341 | a dislike raises the total dislikes by the number of tweets with the id and leaves the total likes alone |
| FeedUpdates.LikeExample | app/says/page.tsx:311 | liking tweet "1" with 5 likes gives it 6, with its dislikes and comments unchanged |
| FeedUpdates.DemoCreateShape | app/says/page.tsx:260-270 | a demo create puts one tweet in front of the unchanged list; its id reads back as the new length, and it has no likes, dislikes or comments |
| FeedUpdates.DemoCreateKeepsCountdown | app/says/page.tsx:261 | lists built by demo creates number their tweets n, n-1, …, 1 from the front |
| FeedUpdates.EditsKeepIds | app/says/page.tsx:305 | likes, dislikes and comments leave every id in place |
| FeedUpdates.EditsKeepCountdown | app/says/page.tsx:311 | likes, dislikes and comments keep the countdown numbering |
| FeedUpdates.CountdownIdsDistinct | app/says/page.tsx:261 | countdown ids are distinct, so a demo like or comment reaches exactly one tweet |
| FeedUpdates.DemoCreateFreshId | app/says/page.tsx:261 | a demo create on a countdown list picks an id that no existing tweet has |
| FeedPage.FetchFeed | app/says/page.tsx:90-165 | assembling, copying, filtering and sorting in place yields exactly `Refresh`: the assembled tweets, filtered and then sorted |
| FeedPage.Refresh | app/says/page.tsx:141-165 | a refresh fails exactly when some contract call threw, and never shows more tweets than were returned |
| FeedPage.RefreshContents | app/says/page.tsx:141-165 | a refreshed feed holds exactly the assembled tweets inside the window, with multiplicity, in the selected order |
| FeedPage.TweetsPage.constructor | app/says/page.tsx:18-25 | the page starts with no tweets and no contract; demo mode is on exactly for the zero address |
| FeedPage.TweetsPage.InitializeContract | app/says/page.tsx:30-50 | a contract appears only with a provider and a non-zero address when nothing throws; in demo mode there is never one |
| FeedPage.TweetsPage.FetchTweets | app/says/page.tsx:89-227 | the list becomes the refreshed feed when a contract exists and every call answers; otherwise it becomes the unfiltered mock data in demo mode, and stays unchanged outside demo mode |
| FeedPage.TweetsPage.HandleLike | app/says/page.tsx:286-320 | the like update is applied after a confirmed transaction or in demo mode; otherwise the list is unchanged |
| FeedPage.TweetsPage.HandleDislike | app/says/page.tsx:322-356 | the dislike update is applied after a confirmed transaction or in demo mode; otherwise the list is unchanged |
| FeedPage.TweetsPage.HandleCreateTweet | app/says/page.tsx:229-284 | a confirmed transaction asks for a refresh and leaves the list; in demo mode the new tweet is put in front; otherwise nothing changes |
| FeedPage.TweetsPage.HandleAddComment | app/says/page.tsx:358-414 | a confirmed transaction asks for a refresh; in demo mode the comment is appended to the matching tweet; otherwise nothing changes |
| Wallet.WalletSession.constructor | hooks/use-wallet.tsx:26-28 | the session starts with no address, not connected and no provider, which satisfies the invariant |
| Wallet.WalletSession.CheckConnection | hooks/use-wallet.tsx:33-48 | the session connects to the first listed account only when a wallet is injected and lists at least one account, which establishes the invariant; otherwise nothing changes and the invariant is kept |
| Wallet.WalletSession.OnAccountsChanged | hooks/use-wallet.tsx:54-68 | from any state, a non-empty list connects to its first account and an empty list clears all three cells; the invariant holds afterwards unless the wallet vanished and there was no provider |
| Wallet.WalletSession.Connect | hooks/use-wallet.tsx:84-115 | from any state, a non-empty answer connects to the first account with the new provider and establishes the invariant; an empty answer, a thrown error or a missing wallet leave all three cells unchanged; the toast kind matches each case |
| Wallet.WalletSession.Disconnect | hooks/use-wallet.tsx:117-126 | all three cells are cleared whatever they held, restoring the invariant |
| CreateTweet.Remaining | components/create-tweet.tsx:52 | the count is at most 280 minus the number of characters, with equality exactly for text inside the Basic Multilingual Plane, so it goes negative once the text is too long |
| CreateTweet.SubmitDisabled | components/create-tweet.tsx:55 | the button is disabled exactly when every character is white space or the text is longer than 280 code units |
| CreateTweet.SubmitAccepted | components/create-tweet.tsx:22 | `handleSubmit` goes ahead exactly when some character is not white space |
| CreateTweet.Rows | components/create-tweet.tsx:40 | the text area has four rows exactly when expanded and two exactly when not |
| CreateTweet.SubmitEnabledIff | components/create-tweet.tsx:55 | the button is enabled exactly for text that has a non-white-space character and fits in 280 code units |
| CreateTweet.ExactlyAtLimitEnabled | components/create-tweet.tsx:55 | 280 characters inside the Basic Multilingual Plane, not all white space, enable the button |
| CreateTweet.OverLimitDisabled | components/create-tweet.tsx:55 | 281 characters of any kind disable the button |
| CreateTweet.EnabledIsAccepted | components/create-tweet.tsx:22-55 | whatever the button lets through, `handleSubmit` accepts |
| CreateTweet.GuardIgnoresLimit | components/create-tweet.tsx:22-55 | `handleSubmit` itself accepts 281 letters that the button refuses: the limit lives only in the button |
| CreateTweet.Composer.constructor | components/create-tweet.tsx:17-18 | the form starts empty and collapsed |
| CreateTweet.Composer.Change | components/create-tweet.tsx:37 | typing replaces the text and keeps the expanded state |
| CreateTweet.Composer.Focus | components/create-tweet.tsx:38-40 | focusing expands the form to four rows and keeps the text |
| CreateTweet.Composer.HandleSubmit | components/create-tweet.tsx:20-27 | non-blank text is posted untrimmed, then the form is cleared and collapsed to two rows; blank text changes nothing |
| TweetCard.CommentGradient | components/tweet-card.tsx:112-118 | the comment avatar's gradient is the bucket of `index % 4` |
| TweetCard.TweetGradient | components/tweet-card.tsx:41-47 | an id that parses to NaN gets the last gradient, a non-negative parsed id gets the bucket of its remainder by 4, and a negative one gets the first gradient when divisible by 4 (JavaScript's `-0 === 0`) and the last otherwise, since the truncating remainder is then negative |
| TweetCard.BucketsDistinct | components/tweet-card.tsx:41-47 | buckets 0, 1 and 2 have distinct gradients, and every other value falls to the last one |
| TweetCard.TweetGradientOfContractId | components/tweet-card.tsx:41-47 | a tweet whose id is the decimal string of `n` gets the bucket of `n % 4`, the same as the `n`-th comment |
| TweetCard.CommentGradientPeriodic | components/tweet-card.tsx:112-118 | comment gradients repeat with period four |
| TweetCard.ParseMinusSix | components/tweet-card.tsx:41 | `parseInt("-6")` is -6 |
| TweetCard.NegativeIdFallsThrough | components/tweet-card.tsx:41-47 | the truncating `%` sends the id "-6" to the last gradient, where a Euclidean remainder would pick the third |
| TweetCard.NonNumericIdFallsThrough | components/tweet-card.tsx:41-47 | an id with no leading digits parses to NaN, which matches no bucket and falls to the last gradient |
| TweetCard.AbbreviateLong | components/tweet-card.tsx:55 | an author of ten or more characters shows its first six and last four characters around "...", 13 characters in all |
| TweetCard.Abbreviate | components/tweet-card.tsx:55 | the display has at most six leading characters, the dots, then at most four trailing characters |
| TweetCard.AbbreviateClamped | components/tweet-card.tsx:55 | for every length the display is the first six characters (or all of them), "...", then the last four (or all of them), so the parts overlap below ten characters; an author of at most four characters appears twice |
| TweetCard.InitialsChars | components/tweet-card.tsx:50 | the initials are the third and fourth characters, upper-cased, as far as the author reaches |
| TweetCard.Initials | components/tweet-card.tsx:50 | the initials are the characters at positions 2 and 3, as far as the author reaches, upper-cased |
| TweetCard.SendDisabled | components/tweet-card.tsx:151 | the send button is disabled exactly when every character of the comment is white space |
| TweetCard.CommentCount | components/tweet-card.tsx:92 | the badge is positive exactly when the tweet has comments |
| TweetCard.VotesKeepBadge | components/tweet-card.tsx:92 | likes and dislikes leave every comment-count badge unchanged |
| TweetCard.AppendCommentBadge | components/tweet-card.tsx:92 | a demo comment raises the comment-count badge of each matching tweet by one and of no other |
| TweetCard.Card.constructor | components/tweet-card.tsx:23-24 | a card starts with its comments hidden and an empty comment text |
| TweetCard.Card.ToggleComments | components/tweet-card.tsx:89 | the comments button flips `showComments` and keeps the text |
| TweetCard.Card.Change | components/tweet-card.tsx:145 | typing replaces the comment text |
| TweetCard.Card.HandleSubmitComment | components/tweet-card.tsx:26-32 | a comment is sent exactly when the send button is enabled. It goes with the tweet's id and the untrimmed text, and then the text is cleared. Blank text changes nothing |

## Left out

- Contract and wallet calls, event subscriptions and `tx.wait()` are outside the model. Their outcomes are parameters: `Chain`, `AccountsAnswer`, `txConfirmed`, and whether `window.ethereum` and the provider are present.
- The contract event listeners (`app/says/page.tsx:60-87`) and the effect that re-fetches on a change of filter or sort (`app/says/page.tsx:53-57`) are left out. They only call `fetchTweets`, which is modelled, but the listeners are registered again only when `contract` changes, so they call the `fetchTweets` of that render with its `filter` and `sortOption`. After a switch to `today`, a `TweetLiked` event (the user's own like emits one) can refill the list under the old filter and sort while the tab shows Today; the model does not capture this staleness.
- The `loading` flag, the toasts other than `connect`'s, `console.error`, `formatDistanceToNow`, animation and rendering carry no logic worth stating.
- `chainChanged` reloads the page (`hooks/use-wallet.tsx:71-73`), which is not modelled.
- Calendar arithmetic for the cutoffs (`app/says/page.tsx:143-153`), `Date.now()` and `Math.random()` depend on the host clock and time zone. The model takes `Cutoffs`, `now` and `randomId` as parameters.
- The batch of `getTweets(0, 10)` is whatever arrays the contract returns. The bound of ten is the contract's business. `getTweetCount` is called but its value is unused; only its throwing matters, and that is folded into `Chain.tweets`.
- FeedAssembly.Assemble: `Number(bigint)` and the double arithmetic of timestamps and counters are unbounded integers, so precision loss above 2^53 is not modelled.
- FeedAssembly.Parallel: the contract is assumed to return six arrays of equal length; the source unpacks them without checking.
- FeedPage.TweetsPage.FetchTweets: the mock tweets are a parameter, not the fixed demo data. They replace the list without filter or sort. In this code the fallback is unreachable in demo mode, because no contract is created for the zero address and the page only fetches with a contract.
- FeedPage.TweetsPage.HandleLike: handlers read the `tweets` of the render that created them, so two quick clicks can apply one update to a stale list. The model applies each update to the current list.
- Wallet.WalletSession.OnAccountsChanged: the three-cell invariant holds afterwards only when `window.ethereum` is still present, the session already had a provider, or the list is empty. When the wallet vanished before a non-empty list arrives, the source sets `isConnected` without a provider, and the model says so.
- Wallet.WalletSession.CheckConnection: `listAccounts` returns signers whose `.address` is used; the model takes the addresses directly. The `typeof window` test is folded into the `ethereum` flag.
- JsText.ToUpperCase: only ASCII letters are upper-cased. Authors are hexadecimal addresses, so full Unicode case mapping is not modelled.
- JsText.Slice: indexes characters, not UTF-16 code units, so an author holding characters outside the Basic Multilingual Plane slices differently. Addresses are ASCII.
- JsText.ParseInt: an exact integer, so rounding of very long digit strings to a double is not modelled.
