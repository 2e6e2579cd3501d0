/** Ranking the collected items: `items.sort((a, b) => b.score - a.score).slice(0, 5)`
    (agent.js, lines 43-45). The sort is the engine's stable `Array.prototype.sort`
    with a descending-score comparator; it is specified here by a reference stable
    insertion sort, and `StableSortUnique` shows that every stable descending sort
    yields the same sequence. */
module Ranking {
  import opened Reddit

  /** How many trends the agent keeps. */
  const MaxTrends: nat := 5

  function Min(a: int, b: int): int {
    if a <= b then a else b
  }

  /** Non-increasing score order. */
  predicate SortedByScore(s: seq<TrendItem>) {
    forall i, j :: 0 <= i < j < |s| ==> s[i].score >= s[j].score
  }

  /** The items of score `k`, in their order in `s`. */
  function WithScore(s: seq<TrendItem>, k: int): seq<TrendItem> {
    if s == [] then []
    else (if s[0].score == k then [s[0]] else []) + WithScore(s[1..], k)
  }

  /** Places `x` before the first item whose score is not above its own. */
  function Insert(x: TrendItem, s: seq<TrendItem>): (r: seq<TrendItem>)
    ensures multiset(r) == multiset(s) + multiset{x}
  {
    if s == [] || s[0].score <= x.score then [x] + s
    else
      assert s == [s[0]] + s[1..];
      [s[0]] + Insert(x, s[1..])
  }

  /** A stable sort by descending score. */
  function SortByScore(s: seq<TrendItem>): (r: seq<TrendItem>)
    ensures multiset(r) == multiset(s)
  {
    if s == [] then []
    else
      assert s == [s[0]] + s[1..];
      Insert(s[0], SortByScore(s[1..]))
  }

  /** `slice(0, n)`: at most the first `n` items. */
  function Take(s: seq<TrendItem>, n: nat): (r: seq<TrendItem>)
    ensures |r| == Min(n, |s|)
    ensures r <= s
  {
    if |s| <= n then s else s[..n]
  }

  /** `sort` then `slice(0, 5)` applied to the collected items. */
  function Select(items: seq<TrendItem>): (r: seq<TrendItem>)
    ensures |r| <= MaxTrends
    ensures r <= SortByScore(items)
    ensures forall t :: t in r ==> t in items
  {
    var sorted := SortByScore(items);
    var r := Take(sorted, MaxTrends);
    assert forall t :: t in r ==> t in multiset(sorted);
    r
  }

  /** The trends the agent returns for the given listings. */
  function TopTrends(ls: seq<Listing>): (r: seq<TrendItem>)
    ensures |r| <= MaxTrends
    ensures forall t :: t in r ==> t in Collected(ls) && t.title != ""
  {
    Select(Collected(ls))
  }

  lemma {:induction false} WithScoreMembers(s: seq<TrendItem>, k: int)
    ensures forall x :: x in WithScore(s, k) <==> x in s && x.score == k
  {
    if s != [] {
      WithScoreMembers(s[1..], k);
      assert s == [s[0]] + s[1..];
    }
  }

  lemma {:induction false} WithScoreAppend(a: seq<TrendItem>, b: seq<TrendItem>, k: int)
    ensures WithScore(a + b, k) == WithScore(a, k) + WithScore(b, k)
  {
    if a == [] {
      assert a + b == b;
    } else {
      assert (a + b)[1..] == a[1..] + b;
      WithScoreAppend(a[1..], b, k);
    }
  }

  lemma {:induction false} InsertSorted(x: TrendItem, s: seq<TrendItem>)
    requires SortedByScore(s)
    ensures SortedByScore(Insert(x, s))
  {
    if s != [] && s[0].score > x.score {
      var rest := Insert(x, s[1..]);
      InsertSorted(x, s[1..]);
      forall j | 0 <= j < |rest|
        ensures s[0].score >= rest[j].score
      {
        assert rest[j] in multiset(rest);
        assert rest[j] == x || rest[j] in multiset(s[1..]);
        if rest[j] != x {
          var m :| 0 <= m < |s[1..]| && s[1..][m] == rest[j];
          assert s[m + 1] == rest[j];
        }
      }
    }
  }

  /** Inserting keeps the relative order of every score class and puts `x` first in its own. */
  lemma {:induction false} InsertWithScore(x: TrendItem, s: seq<TrendItem>, k: int)
    ensures WithScore(Insert(x, s), k) == (if x.score == k then [x] else []) + WithScore(s, k)
  {
    if s != [] && s[0].score > x.score {
      InsertWithScore(x, s[1..], k);
    }
  }

  /** The reference sort yields non-increasing scores. */
  lemma {:induction false} SortByScoreSorted(s: seq<TrendItem>)
    ensures SortedByScore(SortByScore(s))
  {
    if s != [] {
      SortByScoreSorted(s[1..]);
      InsertSorted(s[0], SortByScore(s[1..]));
    }
  }

  /** Stability: within every score class the sorted sequence keeps input order. */
  lemma {:induction false} SortByScoreStable(s: seq<TrendItem>, k: int)
    ensures WithScore(SortByScore(s), k) == WithScore(s, k)
  {
    if s != [] {
      SortByScoreStable(s[1..], k);
      InsertWithScore(s[0], SortByScore(s[1..]), k);
    }
  }

  /** Two sequences in non-increasing score order that agree on every score class
      are equal: the sorted, stable result does not depend on the sort algorithm. */
  lemma {:induction false} StableSortUnique(a: seq<TrendItem>, b: seq<TrendItem>)
    requires SortedByScore(a) && SortedByScore(b)
    requires forall k :: WithScore(a, k) == WithScore(b, k)
    ensures a == b
    decreases |a|
  {
    assert a != [] ==> WithScore(a, a[0].score) == [a[0]] + WithScore(a[1..], a[0].score);
    assert b != [] ==> WithScore(b, b[0].score) == [b[0]] + WithScore(b[1..], b[0].score);
    assert WithScore([], 0) == [];
    if a != [] && b != [] {
      var ka, kb := a[0].score, b[0].score;
      WithScoreMembers(a, kb);
      WithScoreMembers(b, ka);
      assert a[0] in WithScore(b, ka);
      assert b[0] in WithScore(a, kb);
      assert ka == kb;
      var ca, cb := WithScore(a, ka), WithScore(b, kb);
      assert ca == [a[0]] + WithScore(a[1..], ka);
      assert cb == [b[0]] + WithScore(b[1..], kb);
      assert ca == cb;
      assert a[0] == ca[0] == cb[0] == b[0];
      forall k
        ensures WithScore(a[1..], k) == WithScore(b[1..], k)
      {
        var head := if ka == k then [a[0]] else [];
        assert WithScore(a, k) == head + WithScore(a[1..], k);
        assert WithScore(b, k) == head + WithScore(b[1..], k);
        assert WithScore(a[1..], k) == WithScore(a, k)[|head|..];
        assert WithScore(b[1..], k) == WithScore(b, k)[|head|..];
      }
      StableSortUnique(a[1..], b[1..]);
      assert a == [a[0]] + a[1..] && b == [b[0]] + b[1..];
    }
  }

  /** Any stable sort by descending score returns what the reference sort returns. */
  lemma SortByScoreCharacterized(s: seq<TrendItem>, r: seq<TrendItem>)
    requires SortedByScore(r)
    requires forall k :: WithScore(r, k) == WithScore(s, k)
    ensures r == SortByScore(s)
  {
    SortByScoreSorted(s);
    forall k
      ensures WithScore(r, k) == WithScore(SortByScore(s), k)
    {
      SortByScoreStable(s, k);
    }
    StableSortUnique(r, SortByScore(s));
  }

  /** A prefix of a sequence keeps, for each score, a prefix of that score class. */
  lemma WithScorePrefix(s: seq<TrendItem>, n: nat, k: int)
    requires n <= |s|
    ensures WithScore(s[..n], k) <= WithScore(s, k)
  {
    assert s == s[..n] + s[n..];
    WithScoreAppend(s[..n], s[n..], k);
  }

  /** Everything a prefix of a sorted sequence leaves out scores no higher than
      anything it keeps. */
  lemma SortedPrefixIsTop(s: seq<TrendItem>, n: nat)
    requires SortedByScore(s) && n <= |s|
    ensures multiset(s[..n]) <= multiset(s)
    ensures forall x, y :: x in multiset(s) - multiset(s[..n]) && y in s[..n] ==> x.score <= y.score
  {
    assert s == s[..n] + s[n..];
    assert multiset(s) - multiset(s[..n]) == multiset(s[n..]);
    forall x, y | x in multiset(s[n..]) && y in s[..n]
      ensures x.score <= y.score
    {
      var i :| 0 <= i < |s[n..]| && s[n..][i] == x;
      var j :| 0 <= j < n && s[j] == y;
      assert s[n + i] == x;
    }
  }

  /** The selection keeps `min(5, |items|)` of the items. */
  lemma SelectionLength(items: seq<TrendItem>)
    ensures |Select(items)| == Min(MaxTrends, |items|)
  {
    assert |SortByScore(items)| == |items| by {
      assert |multiset(SortByScore(items))| == |multiset(items)|;
    }
  }

  /** The selection is in non-increasing score order. */
  lemma SelectionSorted(items: seq<TrendItem>)
    ensures SortedByScore(Select(items))
  {
    SortByScoreSorted(items);
  }

  /** The selection is a true top five: it is drawn from the items, and nothing
      left out scores above anything kept. */
  lemma SelectionIsTop(items: seq<TrendItem>)
    ensures multiset(Select(items)) <= multiset(items)
    ensures forall x, y :: x in multiset(items) - multiset(Select(items)) && y in Select(items) ==>
              x.score <= y.score
  {
    var sorted := SortByScore(items);
    var n := Min(MaxTrends, |sorted|);
    assert Select(items) == sorted[..n];
    SortByScoreSorted(items);
    SortedPrefixIsTop(sorted, n);
  }

  /** Among equal scores the selection keeps the earliest collected items, in
      collection order. */
  lemma SelectionTies(items: seq<TrendItem>, k: int)
    ensures WithScore(Select(items), k) <= WithScore(items, k)
  {
    var sorted := SortByScore(items);
    assert Select(items) == sorted[..Min(MaxTrends, |sorted|)];
    WithScorePrefix(sorted, Min(MaxTrends, |sorted|), k);
    SortByScoreStable(items, k);
  }

  /** `getRedditTrends` with the fetched listings as input: collect, sort by
      descending score (stably), keep the first five. */
  method GetRedditTrends(listings: seq<Listing>) returns (trends: seq<TrendItem>)
    ensures trends == TopTrends(listings)
    ensures |trends| == Min(MaxTrends, TitledCount(listings))
    ensures forall t :: t in trends ==> t.title != ""
    ensures SortedByScore(trends)
    ensures multiset(trends) <= multiset(Collected(listings))
    ensures forall x, y :: x in multiset(Collected(listings)) - multiset(trends) && y in trends ==>
              x.score <= y.score
    ensures forall k :: WithScore(trends, k) <= WithScore(Collected(listings), k)
  {
    var items := Collect(listings);
    var sorted := SortByScore(items);
    trends := Take(sorted, MaxTrends);
    CollectedLength(listings);
    SelectionLength(items);
    SelectionSorted(items);
    SelectionIsTop(items);
    forall k
      ensures WithScore(trends, k) <= WithScore(items, k)
    {
      SelectionTies(items, k);
    }
    forall t | t in trends
      ensures t.title != ""
    {
      assert t in multiset(items);
    }
  }
}
