/** Reddit posts as the hot-listing endpoint delivers them, the engagement
    score of a post, and the collection of titled posts into trend items,
    subreddit by subreddit and post by post (agent.js, lines 19-41). */
module Reddit {

  /** A field of a post's `data` object that may be missing: `None` stands for
      both an absent field and a JSON `null`, which the agent treats alike for
      the title (both falsy) and the counters (both give 0 under `|| 0`). */
  datatype Option<T> = None | Some(value: T)

  /** A string field whose absent and `null` forms a template literal renders
      differently (as "undefined" and "null"). */
  datatype JsonString = Undefined | Null | Str(text: string)

  /** The fields of one listing child's `data` object that the agent reads. */
  datatype Post = Post(
    title: Option<string>,
    ups: Option<int>,
    numComments: Option<int>,
    permalink: JsonString)

  /** One subreddit and the already-parsed children of its hot listing, in listing order. */
  datatype Listing = Listing(sub: string, posts: seq<Post>)

  /** The record the agent pushes for each titled post. */
  datatype TrendItem = TrendItem(source: string, title: string, url: string, score: int)

  /** The subreddits the agent fetches, in the order it fetches them. */
  const Subreddits: seq<string> := ["hiphopheads", "rap", "hiphop101"]

  const SourcePrefix: string := "r/"
  const UrlPrefix: string := "https://reddit.com"

  /** Each subreddit paired with the children its listing returned. */
  function ListingsOf(responses: seq<seq<Post>>): (ls: seq<Listing>)
    requires |responses| == |Subreddits|
    ensures |ls| == |Subreddits|
    ensures forall i :: 0 <= i < |ls| ==> ls[i].sub == Subreddits[i] && ls[i].posts == responses[i]
  {
    seq(|Subreddits|, i requires 0 <= i < |Subreddits| => Listing(Subreddits[i], responses[i]))
  }

  /** `counter || 0`: a missing counter counts as 0 (a present 0 is 0 anyway). */
  function CounterOrZero(c: Option<int>): int {
    match c
    case None => 0
    case Some(n) => n
  }

  /** The engagement score: upvotes plus two per comment, a missing counter adding nothing. */
  function Score(p: Post): (r: int)
    ensures p.ups.Some? && p.numComments.Some? ==> r == p.ups.value + 2 * p.numComments.value
    ensures p.ups.None? && p.numComments.Some? ==> r == 2 * p.numComments.value
    ensures p.ups.Some? && p.numComments.None? ==> r == p.ups.value
    ensures p.ups.None? && p.numComments.None? ==> r == 0
  {
    CounterOrZero(p.ups) + CounterOrZero(p.numComments) * 2
  }

  /** `if (!title) continue;` lets through exactly the present, non-empty titles. */
  predicate Titled(p: Post)
    ensures Titled(p) <==> p.title != None && p.title != Some("")
  {
    p.title.Some? && p.title.value != ""
  }

  /** A template literal renders an absent field as "undefined" and `null` as "null". */
  function TemplateText(s: JsonString): (r: string)
    ensures s.Str? ==> r == s.text
    ensures s == Undefined ==> r == "undefined"
    ensures s == Null ==> r == "null"
  {
    match s
    case Undefined => "undefined"
    case Null => "null"
    case Str(t) => t
  }

  /** The record built for a titled post of subreddit `sub`. */
  function MakeItem(sub: string, p: Post): (r: TrendItem)
    requires Titled(p)
    ensures r.title == p.title.value && r.title != ""
    ensures SourcePrefix <= r.source && r.source[|SourcePrefix|..] == sub
    ensures UrlPrefix <= r.url && r.url[|UrlPrefix|..] == TemplateText(p.permalink)
    ensures r.score == Score(p)
  {
    TrendItem(SourcePrefix + sub, p.title.value, UrlPrefix + TemplateText(p.permalink), Score(p))
  }

  /** The items pushed while walking `posts` of subreddit `sub`, in order. */
  function ItemsOf(sub: string, posts: seq<Post>): (r: seq<TrendItem>)
    ensures |r| <= |posts|
    ensures forall t :: t in r ==> t.title != ""
  {
    if posts == [] then []
    else
      var last := posts[|posts| - 1];
      ItemsOf(sub, posts[..|posts| - 1]) + (if Titled(last) then [MakeItem(sub, last)] else [])
  }

  /** All items pushed while walking the listings in order. */
  function Collected(ls: seq<Listing>): (r: seq<TrendItem>)
    ensures forall t :: t in r ==> t.title != ""
  {
    if ls == [] then []
    else Collected(ls[..|ls| - 1]) + ItemsOf(ls[|ls| - 1].sub, ls[|ls| - 1].posts)
  }

  /** The titled posts of a listing, in listing order (an independent reference definition). */
  function TitledPosts(posts: seq<Post>): seq<Post> {
    if posts == [] then []
    else (if Titled(posts[0]) then [posts[0]] else []) + TitledPosts(posts[1..])
  }

  /** The number of titled posts across all listings. */
  function TitledCount(ls: seq<Listing>): nat {
    if ls == [] then 0
    else TitledCount(ls[..|ls| - 1]) + |TitledPosts(ls[|ls| - 1].posts)|
  }

  /** Each titled post, turned into its item, in the same order. */
  function ItemsFor(sub: string, ps: seq<Post>): (r: seq<TrendItem>)
    requires forall p :: p in ps ==> Titled(p)
    ensures |r| == |ps|
    ensures forall i :: 0 <= i < |ps| ==> r[i] == MakeItem(sub, ps[i])
  {
    if ps == [] then [] else [MakeItem(sub, ps[0])] + ItemsFor(sub, ps[1..])
  }

  lemma {:induction false} TitledPostsAppend(a: seq<Post>, b: seq<Post>)
    ensures TitledPosts(a + b) == TitledPosts(a) + TitledPosts(b)
  {
    if a == [] {
      assert a + b == b;
    } else {
      assert (a + b)[1..] == a[1..] + b;
      TitledPostsAppend(a[1..], b);
    }
  }

  lemma {:induction false} TitledPostsMembers(posts: seq<Post>)
    ensures forall p :: p in TitledPosts(posts) <==> p in posts && Titled(p)
  {
    if posts != [] {
      TitledPostsMembers(posts[1..]);
      assert posts == [posts[0]] + posts[1..];
    }
  }

  /** Walking a listing pushes exactly one item per titled post, in listing order,
      and nothing else. */
  lemma {:induction false} ItemsOfTitledPosts(sub: string, posts: seq<Post>)
    ensures forall p :: p in TitledPosts(posts) ==> Titled(p)
    ensures ItemsOf(sub, posts) == ItemsFor(sub, TitledPosts(posts))
  {
    TitledPostsMembers(posts);
    if posts != [] {
      var init, last := posts[..|posts| - 1], posts[|posts| - 1];
      assert posts == init + [last];
      TitledPostsAppend(init, [last]);
      ItemsOfTitledPosts(sub, init);
      TitledPostsMembers(init);
      assert TitledPosts([last]) == (if Titled(last) then [last] else []) + TitledPosts([]);
    }
  }

  /** Listings are walked in order: the items of a concatenation are the
      concatenation of the items. */
  lemma {:induction false} CollectedAppend(ls1: seq<Listing>, ls2: seq<Listing>)
    ensures Collected(ls1 + ls2) == Collected(ls1) + Collected(ls2)
    decreases |ls2|
  {
    if ls2 == [] {
      assert ls1 + ls2 == ls1;
    } else {
      var init, last := ls2[..|ls2| - 1], ls2[|ls2| - 1];
      var whole := ls1 + ls2;
      assert whole[..|whole| - 1] == ls1 + init;
      assert whole[|whole| - 1] == last;
      CollectedAppend(ls1, init);
      calc {
        Collected(whole);
        Collected(ls1 + init) + ItemsOf(last.sub, last.posts);
        Collected(ls1) + Collected(init) + ItemsOf(last.sub, last.posts);
        Collected(ls1) + Collected(ls2);
      }
    }
  }

  /** One item is collected per titled post, across all listings. */
  lemma {:induction false} CollectedLength(ls: seq<Listing>)
    ensures |Collected(ls)| == TitledCount(ls)
  {
    if ls != [] {
      CollectedLength(ls[..|ls| - 1]);
      ItemsOfTitledPosts(ls[|ls| - 1].sub, ls[|ls| - 1].posts);
    }
  }

  /** Every collected item is the record of a titled post of some listing, with
      source `r/<sub>`, the post's title, url `https://reddit.com<permalink>` and the
      post's score; and every titled post of every listing is collected. */
  lemma {:induction false} CollectedProvenance(ls: seq<Listing>)
    ensures forall t :: t in Collected(ls) ==>
              exists l, p :: l in ls && p in l.posts && Titled(p) && t == MakeItem(l.sub, p)
    ensures forall l, p :: l in ls && p in l.posts && Titled(p) ==> MakeItem(l.sub, p) in Collected(ls)
  {
    if ls != [] {
      var init, last := ls[..|ls| - 1], ls[|ls| - 1];
      assert ls == init + [last];
      CollectedProvenance(init);
      ItemsOfTitledPosts(last.sub, last.posts);
      TitledPostsMembers(last.posts);
      var mine := ItemsOf(last.sub, last.posts);
      var tp := TitledPosts(last.posts);
      forall t | t in mine
        ensures exists l, p :: l in ls && p in l.posts && Titled(p) && t == MakeItem(l.sub, p)
      {
        var i :| 0 <= i < |mine| && mine[i] == t;
        assert tp[i] in tp;
      }
      forall l, p | l in ls && p in l.posts && Titled(p)
        ensures MakeItem(l.sub, p) in Collected(ls)
      {
        if l != last {
          assert l in init;
        } else {
          assert p in tp;
          var i :| 0 <= i < |tp| && tp[i] == p;
          assert mine[i] == MakeItem(l.sub, p);
        }
      }
    }
  }

  /** A missing counter contributes exactly what a zero counter does. */
  lemma ScoreMissingCounterIsZero(p: Post)
    ensures Score(p.(ups := None)) == Score(p.(ups := Some(0)))
    ensures Score(p.(numComments := None)) == Score(p.(numComments := Some(0)))
    ensures Score(p.(ups := None, numComments := None)) == 0
  {
  }

  /** With both counters present the score is `ups + 2 * num_comments`. */
  lemma ScoreOfCounters(p: Post, ups: int, comments: int)
    requires p.ups == Some(ups) && p.numComments == Some(comments)
    ensures Score(p) == ups + 2 * comments
    ensures Score(p.(numComments := Some(comments + 1))) == Score(p) + 2
    ensures Score(p.(ups := Some(ups + 1))) == Score(p) + 1
  {
  }

  /** The walk the agent performs: for each subreddit in order, for each child in
      listing order, skip untitled posts and push the record of the others. */
  method Collect(listings: seq<Listing>) returns (items: seq<TrendItem>)
    ensures items == Collected(listings)
  {
    items := [];
    for i := 0 to |listings|
      invariant items == Collected(listings[..i])
    {
      var sub, posts := listings[i].sub, listings[i].posts;
      for j := 0 to |posts|
        invariant items == Collected(listings[..i]) + ItemsOf(sub, posts[..j])
      {
        var p := posts[j];
        assert posts[..j + 1][..j] == posts[..j];
        if !Titled(p) {
          continue;
        }
        items := items + [MakeItem(sub, p)];
      }
      assert posts[..|posts|] == posts;
      assert listings[..i + 1][..i] == listings[..i];
    }
    assert listings[..|listings|] == listings;
  }
}
