/**
 * The filter and sort steps of `fetchTweets`: keep the tweets at or after a
 * time-window cutoff, then sort them with one of three comparators using
 * JavaScript's stable `Array.prototype.sort` (ECMA-262, 2019 and later).
 */
module FeedOrder {
  import opened Wrappers
  import opened Tweets

  /** The three window starts computed from the local clock ("now" is left to the caller). */
  datatype Cutoffs = Cutoffs(startOfDay: int, startOfWeek: int, startOfMonth: int)

  /** The cutoff a filter value selects; `"all"` and unknown values select none. */
  function WindowStart(filter: string, cutoffs: Cutoffs): (r: Option<int>)
    ensures r.None? <==> filter != "today" && filter != "week" && filter != "month"
    ensures filter == "today" ==> r == Some(cutoffs.startOfDay)
    ensures filter == "week" ==> r == Some(cutoffs.startOfWeek)
    ensures filter == "month" ==> r == Some(cutoffs.startOfMonth)
  {
    if filter == "today" then Some(cutoffs.startOfDay)
    else if filter == "week" then Some(cutoffs.startOfWeek)
    else if filter == "month" then Some(cutoffs.startOfMonth)
    else None
  }

  /** `tweets.filter((tweet) => tweet.timestamp >= cutoff)` */
  function KeepSince(ts: seq<Tweet>, cutoff: int): (r: seq<Tweet>)
    ensures |r| <= |ts|
    ensures forall k :: 0 <= k < |r| ==> r[k].timestamp >= cutoff
  {
    if ts == [] then []
    else KeepSince(ts[..|ts| - 1], cutoff) + (if ts[|ts| - 1].timestamp >= cutoff then [ts[|ts| - 1]] else [])
  }

  /** A tweet survives the filter exactly when it was in the list and is recent enough. */
  lemma {:induction false} KeepSinceMembers(ts: seq<Tweet>, cutoff: int)
    ensures forall t :: t in KeepSince(ts, cutoff) <==> t in ts && t.timestamp >= cutoff
  {
    if ts != [] {
      var init := ts[..|ts| - 1];
      KeepSinceMembers(init, cutoff);
      assert ts == init + [ts[|ts| - 1]];
    }
  }

  /** Filtering a concatenation filters each part: the relative order of kept tweets is unchanged. */
  lemma {:induction false} KeepSinceAppend(a: seq<Tweet>, b: seq<Tweet>, cutoff: int)
    ensures KeepSince(a + b, cutoff) == KeepSince(a, cutoff) + KeepSince(b, cutoff)
  {
    if b == [] {
      assert a + b == a;
    } else {
      var init := b[..|b| - 1];
      KeepSinceAppend(a, init, cutoff);
      assert (a + b)[..|a + b| - 1] == a + init;
    }
  }

  /** A list whose tweets are all recent enough passes the filter unchanged. */
  lemma {:induction false} KeepSinceAllRecent(ts: seq<Tweet>, cutoff: int)
    requires forall k :: 0 <= k < |ts| ==> ts[k].timestamp >= cutoff
    ensures KeepSince(ts, cutoff) == ts
  {
    if ts != [] {
      KeepSinceAllRecent(ts[..|ts| - 1], cutoff);
    }
  }

  /** The `if`/`else if` chain of filters at the start of the pipeline. */
  function ApplyFilter(filter: string, cutoffs: Cutoffs, ts: seq<Tweet>): (r: seq<Tweet>)
    ensures WindowStart(filter, cutoffs).None? ==> r == ts
    ensures WindowStart(filter, cutoffs).Some? ==>
      var cutoff := WindowStart(filter, cutoffs).value;
      forall t :: t in r <==> t in ts && t.timestamp >= cutoff
  {
    match WindowStart(filter, cutoffs)
    case None => ts
    case Some(cutoff) => KeepSinceMembers(ts, cutoff); KeepSince(ts, cutoff)
  }

  /** The three orders of the sort selector. */
  datatype SortOrder = Newest | Oldest | MostLiked

  /** The order a `sortOption` value selects; any other value selects none. */
  function ParseSortOption(opt: string): Option<SortOrder> {
    if opt == "newest" then Some(Newest)
    else if opt == "oldest" then Some(Oldest)
    else if opt == "mostLiked" then Some(MostLiked)
    else None
  }

  /** The value an order sorts by. */
  function Key(order: SortOrder, t: Tweet): int {
    if order == MostLiked then t.likes else t.timestamp
  }

  /** The comparator passed to `sort`: negative when `a` goes before `b`. */
  function Compare(order: SortOrder, a: Tweet, b: Tweet): (r: int)
    ensures order == Newest ==> (r < 0 <==> a.timestamp > b.timestamp)
    ensures order == Oldest ==> (r < 0 <==> a.timestamp < b.timestamp)
    ensures order == MostLiked ==> (r < 0 <==> a.likes > b.likes)
    ensures r == 0 <==> Key(order, a) == Key(order, b)
  {
    match order
    case Newest => b.timestamp - a.timestamp
    case Oldest => a.timestamp - b.timestamp
    case MostLiked => b.likes - a.likes
  }

  /** No element of `s` goes after a later one. */
  predicate Sorted(order: SortOrder, s: seq<Tweet>)
  {
    forall i, j :: 0 <= i < j < |s| ==> Compare(order, s[i], s[j]) <= 0
  }

  /**
   * One step of a stable insertion sort: `x` moves left past exactly the
   * trailing elements it must go before, so it stays after every element
   * it ties with.
   */
  function Insert(order: SortOrder, s: seq<Tweet>, x: Tweet): (r: seq<Tweet>)
    ensures |r| == |s| + 1
  {
    if s == [] then [x]
    else
      var init, last := s[..|s| - 1], s[|s| - 1];
      if Compare(order, x, last) < 0 then Insert(order, init, x) + [last] else s + [x]
  }

  /** Inserting adds `x` and loses nothing. */
  lemma {:induction false} InsertPermutes(order: SortOrder, s: seq<Tweet>, x: Tweet)
    ensures multiset(Insert(order, s, x)) == multiset(s) + multiset{x}
  {
    if s != [] {
      var init, last := s[..|s| - 1], s[|s| - 1];
      assert s == init + [last];
      InsertPermutes(order, init, x);
    }
  }

  /** Comparing is a total preorder: it is transitive... */
  lemma CompareTransitive(order: SortOrder, a: Tweet, b: Tweet, c: Tweet)
    requires Compare(order, a, b) <= 0 && Compare(order, b, c) <= 0
    ensures Compare(order, a, c) <= 0
  {
  }

  /** ...and any two tweets compare one way or the other. */
  lemma CompareFlip(order: SortOrder, a: Tweet, b: Tweet)
    ensures Compare(order, a, b) == -Compare(order, b, a)
  {
  }

  /** Appending an element that no earlier element goes after keeps a list sorted. */
  lemma SortedAppend(order: SortOrder, s: seq<Tweet>, y: Tweet)
    requires Sorted(order, s)
    requires forall k :: 0 <= k < |s| ==> Compare(order, s[k], y) <= 0
    ensures Sorted(order, s + [y])
  {
    var r := s + [y];
    forall i, j | 0 <= i < j < |r|
      ensures Compare(order, r[i], r[j]) <= 0
    {
      if j < |s| {
        assert r[i] == s[i] && r[j] == s[j];
      } else {
        assert r[i] == s[i] && r[j] == y;
      }
    }
  }

  /** Inserting into a sorted list keeps it sorted. */
  lemma {:induction false} InsertSorted(order: SortOrder, s: seq<Tweet>, x: Tweet)
    requires Sorted(order, s)
    ensures Sorted(order, Insert(order, s, x))
  {
    if s != [] {
      var init, last := s[..|s| - 1], s[|s| - 1];
      assert Sorted(order, init) by {
        forall i, j | 0 <= i < j < |init| ensures Compare(order, init[i], init[j]) <= 0 {
          assert init[i] == s[i] && init[j] == s[j];
        }
      }
      if Compare(order, x, last) < 0 {
        InsertSorted(order, init, x);
        var r' := Insert(order, init, x);
        forall k | 0 <= k < |r'|
          ensures Compare(order, r'[k], last) <= 0
        {
          InsertPermutes(order, init, x);
          assert r'[k] in multiset(r');
          if r'[k] != x {
            assert r'[k] in init;
            var m :| 0 <= m < |init| && init[m] == r'[k];
            assert s[m] == init[m];
          }
        }
        SortedAppend(order, r', last);
      } else {
        CompareFlip(order, x, last);
        forall k | 0 <= k < |s|
          ensures Compare(order, s[k], x) <= 0
        {
          if k < |s| - 1 {
            CompareTransitive(order, s[k], last, x);
          }
        }
        SortedAppend(order, s, x);
      }
    }
  }

  /** Insertion sort, inserting the elements in input order. */
  function InsertionSort(order: SortOrder, s: seq<Tweet>): (r: seq<Tweet>)
    ensures |r| == |s|
  {
    if s == [] then [] else Insert(order, InsertionSort(order, s[..|s| - 1]), s[|s| - 1])
  }

  /** The sorted list is a permutation of the input. */
  lemma {:induction false} InsertionSortPermutes(order: SortOrder, s: seq<Tweet>)
    ensures multiset(InsertionSort(order, s)) == multiset(s)
  {
    if s != [] {
      var init, last := s[..|s| - 1], s[|s| - 1];
      assert s == init + [last];
      assert multiset(s) == multiset(init) + multiset{last};
      var sortedInit := InsertionSort(order, init);
      assert InsertionSort(order, s) == Insert(order, sortedInit, last);
      InsertionSortPermutes(order, init);
      InsertPermutes(order, sortedInit, last);
    }
  }

  /** The sorted list is in order. */
  lemma {:induction false} InsertionSortSorted(order: SortOrder, s: seq<Tweet>)
    ensures Sorted(order, InsertionSort(order, s))
  {
    if s != [] {
      var init := s[..|s| - 1];
      InsertionSortSorted(order, init);
      InsertSorted(order, InsertionSort(order, init), s[|s| - 1]);
    }
  }

  /** The tweets of `s` whose sort key is `v`, in their order in `s`. */
  function KeepKey(order: SortOrder, s: seq<Tweet>, v: int): (r: seq<Tweet>)
    ensures forall k :: 0 <= k < |r| ==> Key(order, r[k]) == v
  {
    if s == [] then []
    else KeepKey(order, s[..|s| - 1], v) + (if Key(order, s[|s| - 1]) == v then [s[|s| - 1]] else [])
  }

  /** Inserting `x` adds it after every element with the same key and moves nothing else among its ties. */
  lemma {:induction false} InsertKeepKey(order: SortOrder, s: seq<Tweet>, x: Tweet, v: int)
    ensures KeepKey(order, Insert(order, s, x), v) == KeepKey(order, s, v) + (if Key(order, x) == v then [x] else [])
  {
    if s != [] {
      var init, last := s[..|s| - 1], s[|s| - 1];
      if Compare(order, x, last) < 0 {
        var r' := Insert(order, init, x);
        InsertKeepKey(order, init, x, v);
        assert (r' + [last])[..|r'|] == r';
      } else {
        assert (s + [x])[..|s|] == s;
      }
    } else {
      assert [x][..0] == [];
    }
  }

  /**
   * Insertion sort is stable: the tweets sharing a key value come out in
   * the order they went in.
   */
  lemma {:induction false} InsertionSortKeepsTies(order: SortOrder, s: seq<Tweet>, v: int)
    ensures KeepKey(order, InsertionSort(order, s), v) == KeepKey(order, s, v)
  {
    if s != [] {
      var init := s[..|s| - 1];
      InsertionSortKeepsTies(order, init, v);
      InsertKeepKey(order, InsertionSort(order, init), s[|s| - 1], v);
    }
  }

  /** The `if`/`else if` chain of sorts: an unknown option leaves the order alone. */
  function SortFeed(opt: string, s: seq<Tweet>): (r: seq<Tweet>)
    ensures multiset(r) == multiset(s)
    ensures ParseSortOption(opt).Some? ==> Sorted(ParseSortOption(opt).value, r)
    ensures ParseSortOption(opt).None? ==> r == s
  {
    match ParseSortOption(opt)
    case Some(order) =>
      InsertionSortPermutes(order, s);
      InsertionSortSorted(order, s);
      InsertionSort(order, s)
    case None => s
  }

  /** What each option promises about the order of the sorted feed. */
  lemma SortFeedOrders(opt: string, s: seq<Tweet>)
    ensures var r := SortFeed(opt, s);
      && (opt == "newest" ==> forall i, j :: 0 <= i < j < |r| ==> r[i].timestamp >= r[j].timestamp)
      && (opt == "oldest" ==> forall i, j :: 0 <= i < j < |r| ==> r[i].timestamp <= r[j].timestamp)
      && (opt == "mostLiked" ==> forall i, j :: 0 <= i < j < |r| ==> r[i].likes >= r[j].likes)
  {
    var r := SortFeed(opt, s);
    if ParseSortOption(opt).Some? {
      var order := ParseSortOption(opt).value;
      forall i, j | 0 <= i < j < |r| ensures Compare(order, r[i], r[j]) <= 0 { }
    }
  }

  /**
   * The sort is stable for every option: tweets with equal keys (equal
   * timestamps for `newest` and `oldest`, equal likes for `mostLiked`) keep
   * their relative order.
   */
  lemma SortFeedStable(opt: string, s: seq<Tweet>, v: int)
    requires ParseSortOption(opt).Some?
    ensures var order := ParseSortOption(opt).value;
      KeepKey(order, SortFeed(opt, s), v) == KeepKey(order, s, v)
  {
    InsertionSortKeepsTies(ParseSortOption(opt).value, s, v);
  }

  /** Three tweets liked 5, 10 and 8 times come out as 10, 8, 5 under `mostLiked`. */
  lemma MostLikedExample(a: Tweet, b: Tweet, c: Tweet)
    requires a.likes == 5 && b.likes == 10 && c.likes == 8
    ensures SortFeed("mostLiked", [a, b, c]) == [b, c, a]
  {
    OptionNames();
    SortSingle(MostLiked, a);
    assert Insert(MostLiked, [a], b) == [b, a] by {
      assert [a][..0] == [];
    }
    assert InsertionSort(MostLiked, [a, b]) == [b, a] by {
      assert [a, b][..1] == [a];
    }
    assert Insert(MostLiked, [b, a], c) == [b, c, a] by {
      assert [b, a][..1] == [b];
    }
    assert [a, b, c][..2] == [a, b];
  }

  /**
   * With tied timestamps `newest` and `oldest` are not each other's reverse:
   * both keep the tied tweets in input order.
   */
  lemma NewestOldestTies(a: Tweet, b: Tweet)
    requires a.timestamp == b.timestamp
    ensures SortFeed("newest", [a, b]) == [a, b] == SortFeed("oldest", [a, b])
  {
    OptionNames();
    SortSingle(Newest, a);
    SortSingle(Oldest, a);
    assert [a, b][..1] == [a];
  }

  /** The three option names the feed understands. */
  lemma OptionNames()
    ensures ParseSortOption("newest") == Some(Newest)
    ensures ParseSortOption("oldest") == Some(Oldest)
    ensures ParseSortOption("mostLiked") == Some(MostLiked)
  {
    assert "oldest" != "newest" by { assert "oldest"[0] != "newest"[0]; }
    assert "mostLiked" != "newest" by { assert "mostLiked"[0] != "newest"[0]; }
    assert "mostLiked" != "oldest" by { assert "mostLiked"[0] != "oldest"[0]; }
  }

  lemma SortSingle(order: SortOrder, a: Tweet)
    ensures InsertionSort(order, [a]) == [a]
  {
    assert [a][..0] == [];
  }

  /**
   * The insertion x shifts past exactly the elements from position `j` on,
   * landing after an element it does not go before.
   */
  lemma {:induction false} InsertAt(order: SortOrder, s: seq<Tweet>, x: Tweet, j: nat)
    requires j <= |s|
    requires j > 0 ==> Compare(order, x, s[j - 1]) >= 0
    requires forall k :: j <= k < |s| ==> Compare(order, x, s[k]) < 0
    ensures Insert(order, s, x) == s[..j] + [x] + s[j..]
  {
    if s == [] {
    } else if j == |s| {
      assert s[..j] == s && s[j..] == [];
    } else {
      var init := s[..|s| - 1];
      assert forall k :: j <= k < |init| ==> init[k] == s[k];
      InsertAt(order, init, x, j);
      SplitBeforeLast(s, x, j);
    }
  }

  lemma SplitBeforeLast(s: seq<Tweet>, x: Tweet, j: nat)
    requires j < |s|
    ensures s[..|s| - 1][..j] + [x] + s[..|s| - 1][j..] + [s[|s| - 1]] == s[..j] + [x] + s[j..]
  {
    assert s[j..] == s[..|s| - 1][j..] + [s[|s| - 1]];
  }

  /** One pass of the insertion sort: `a[i]` moves left into the sorted prefix `a[..i]`. */
  method InsertInPlace(a: array<Tweet>, order: SortOrder, i: nat)
    requires i < a.Length
    modifies a
    ensures a[..i + 1] == Insert(order, old(a[..i]), old(a[i]))
    ensures forall k :: i < k < a.Length ==> a[k] == old(a[k])
  {
    ghost var sorted := a[..i];
    var x := a[i];
    var j := ShiftRight(a, order, x, i);
    a[j] := x;
    InsertAt(order, sorted, x, j);
    ShiftedInsert(a[..i + 1], sorted, x, j);
  }

  /**
   * The inner loop: shifts one place right every element of `a[..i]`,
   * from the back, that `x` goes before, and returns the gap it leaves.
   */
  method ShiftRight(a: array<Tweet>, order: SortOrder, x: Tweet, i: nat) returns (j: nat)
    requires i < a.Length
    modifies a
    ensures j <= i
    ensures forall k :: 0 <= k < j ==> a[k] == old(a[k])
    ensures forall k :: j < k <= i ==> a[k] == old(a[k - 1])
    ensures forall k :: i < k < a.Length ==> a[k] == old(a[k])
    ensures j > 0 ==> Compare(order, x, old(a[j - 1])) >= 0
    ensures forall k :: j <= k < i ==> Compare(order, x, old(a[k])) < 0
  {
    j := i;
    while j > 0 && Compare(order, x, a[j - 1]) < 0
      invariant 0 <= j <= i
      invariant forall k :: 0 <= k < j ==> a[k] == old(a[k])
      invariant forall k :: j < k <= i ==> a[k] == old(a[k - 1])
      invariant forall k :: i < k < a.Length ==> a[k] == old(a[k])
      invariant forall k :: j <= k < i ==> Compare(order, x, old(a[k])) < 0
    {
      a[j] := a[j - 1];
      j := j - 1;
    }
  }

  /** A sequence that agrees with `sorted` around a gap at `j` holding `x`. */
  lemma ShiftedInsert(b: seq<Tweet>, sorted: seq<Tweet>, x: Tweet, j: nat)
    requires |b| == |sorted| + 1 && j <= |sorted|
    requires forall k :: 0 <= k < j ==> b[k] == sorted[k]
    requires b[j] == x
    requires forall k :: j < k < |b| ==> b[k] == sorted[k - 1]
    ensures b == sorted[..j] + [x] + sorted[j..]
  {
  }

  /** `filteredTweets.sort(comparator)`: a stable sort in place. */
  method SortInPlace(a: array<Tweet>, opt: string)
    modifies a
    ensures a[..] == SortFeed(opt, old(a[..]))
  {
    if ParseSortOption(opt).None? {
      return;
    }
    var order := ParseSortOption(opt).value;
    ghost var input := a[..];
    for i := 0 to a.Length
      invariant a[..i] == InsertionSort(order, input[..i])
      invariant forall k :: i <= k < a.Length ==> a[k] == input[k]
    {
      InsertInPlace(a, order, i);
      assert input[..i + 1][..i] == input[..i];
    }
    assert input[..a.Length] == input;
  }
}
