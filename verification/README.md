# Rap Trend Watch — a Dafny model of the trend pipeline

The agent reads the hot listings of three subreddits (`hiphopheads`, `rap` and
`hiphop101`, in that order). It scores each post as upvotes plus two per
comment and skips posts without a title. The rest become `{source, title, url,
score}` records. It sorts these by descending score, keeps the first five, and
posts a Discord message. The message has a bold header with the time of the
run, then the trends as numbered entries separated by blank lines.

This project models the pure part of that pipeline. Fetching and posting are
left out.

- `reddit.dfy` (module `Reddit`) models the data a listing delivers, the
  engagement score and the collection walk. The walk is `Collect`, a method
  with the source's two nested loops. It is proved equal to the specification
  function `Collected`. Lemmas about `Collected` give its length, where each
  item comes from, and its order.
- `ranking.dfy` (module `Ranking`) models `sort((a, b) => b.score - a.score)`
  and `slice(0, 5)`. `Array.prototype.sort` is stable (ECMAScript 2019 and
  later). It is specified by `SortByScore`, a reference stable insertion sort,
  which is proved to be sorted, a permutation and stable. `StableSortUnique`
  proves that any sequence with those properties equals it, so the model does
  not depend on the engine's sort algorithm. `GetRedditTrends` is the whole of
  `getRedditTrends`, with the fetched listings as its input.
- `message.dfy` (module `Message`) models the message expression of `main`.
  `RapTrendWatch` is `main` without its I/O. The time text `now` is an input.

`agent.js` has no deduplication, recency boost, feed parsing, junk filter,
size budget or empty-digest error. With zero trends it posts the header
alone, and `Render` and `RapTrendWatch` do the same.

## Model

| member | source | states |
|---|---|---|
| Reddit.ListingsOf | agent.js:24-28 | the listings pair `hiphopheads`, `rap` and `hiphop101`, in that order, with the children fetched for each |
| Reddit.Score | agent.js:19-21 | `scoreRedditPost`: `ups + 2 * num_comments` when both counters are present; a missing counter adds nothing, so a post with neither scores 0 |
| Reddit.Titled | agent.js:31-32 | a post passes the `!title` test exactly when its title is present and not the empty string |
| Reddit.TemplateText | agent.js:37 | `${p.permalink}` gives the permalink text, "undefined" when the field is absent and "null" when it is `null` |
| Reddit.MakeItem | agent.js:34-39 | the pushed record has the post's (non-empty) title, a source that is `r/` followed by the subreddit, a url that is `https://reddit.com` followed by the permalink text, and the post's score |
| Reddit.ScoreMissingCounterIsZero | agent.js:19-21 | an absent `ups` or `num_comments` contributes what 0 does; with both absent the score is 0 |
| Reddit.ScoreOfCounters | agent.js:19-21 | with both counters present the score is `ups + 2 * num_comments`; one more comment adds 2, one more upvote adds 1 |
| Reddit.ItemsOf | agent.js:29-40 | walking one listing pushes at most one item per post, and every pushed item has a non-empty title |
| Reddit.Collected | agent.js:27-41 | every item collected across all listings has a non-empty title |
| Reddit.ItemsOfTitledPosts | agent.js:29-40 | the items of a listing are exactly its titled posts (present, non-empty title), in listing order, each turned into its record |
| Reddit.CollectedAppend | agent.js:27-41 | subreddits are walked in order: the items of two runs of listings are the first run's items followed by the second's |
| Reddit.CollectedLength | agent.js:27-41 | the number of collected items is the number of titled posts across all listings |
| Reddit.CollectedProvenance | agent.js:31-39 | every collected item is `{source: "r/" + sub, title, url: "https://reddit.com" + permalink, score}` of a titled post of some listing, and every titled post of every listing is collected |
| Reddit.Collect | agent.js:25-41 | the nested loops with `continue` and `push` build exactly `Collected(listings)` |
| Ranking.Insert | agent.js:44 | inserting an item into the sorted run adds exactly that item (multiset), the step of the reference stable sort |
| Ranking.SortByScore | agent.js:44 | sorting returns a permutation of the collected items |
| Ranking.SortByScoreSorted | agent.js:44 | the sorted items are in non-increasing score order |
| Ranking.SortByScoreStable | agent.js:44 | the sort is stable: for every score, the items with that score keep their collection order |
| Ranking.StableSortUnique | agent.js:44 | two sequences in non-increasing score order that agree on every score class are equal |
| Ranking.SortByScoreCharacterized | agent.js:44 | any sequence that is sorted by descending score and stable against the input equals the reference sort |
| Ranking.Take | agent.js:45 | `slice(0, n)` keeps a prefix of length `min(n, length)` |
| Ranking.Select | agent.js:43-45 | sort-then-slice keeps at most five items, a prefix of the sorted items, each one of the input items |
| Ranking.TopTrends | agent.js:23-46 | the returned trends are at most five collected items, each with a non-empty title |
| Ranking.SelectionLength | agent.js:43-45 | the selection keeps `min(5, number of items)` items |
| Ranking.SelectionSorted | agent.js:43-45 | the selection is in non-increasing score order |
| Ranking.SelectionIsTop | agent.js:43-45 | the selection is a sub-multiset of the items and a true top five: nothing left out scores above anything kept |
| Ranking.SelectionTies | agent.js:43-45 | for every score, the selected items with that score are the earliest collected ones with that score, in collection order |
| Ranking.GetRedditTrends | agent.js:23-46 | returns `min(5, titled posts)` trends, all titled, sorted by descending score, a true top five of the collected items, with ties in collection order |
| Message.Header | agent.js:60 | the header is `**Rap Trend Watch — ` then `now` then `**` and a blank line; `now` is exactly the text between the fixed opening and the closing marker |
| Message.Entry | agent.js:62 | entry `k` opens with the decimal number `k` and `. `, then the title, then a newline and the url, with nothing else |
| Message.Entries | agent.js:61-62 | there is one entry per trend, in list order, and the `i`-th (from 0) is entry number `i + 1` of the `i`-th trend |
| Message.Decimal | agent.js:62 | `${i + 1}` is a non-empty run of decimal digits with no leading zero, one digit exactly below 10 |
| Message.DecimalRoundTrip | agent.js:62 | reading the digits of an entry number back gives the number |
| Message.Join | agent.js:63 | `join` of no parts is empty, of one part is that part, and a join starts with its first part |
| Message.JoinSnoc | agent.js:63 | joining one more part appends the separator and the part, so separators stand only between parts |
| Message.Render | agent.js:59-63 | the message starts with the header `**Rap Trend Watch — <now>**` and a blank line, and it is exactly the header if and only if there are no trends |
| Message.RenderSingle | agent.js:59-63 | one trend renders as the header followed by `1. title`, a newline and the url |
| Message.RenderSnoc | agent.js:59-63 | each further trend adds a blank line and entry `k. title\nurl` with the next number `k` |
| Message.RenderEndsWithLastUrl | agent.js:59-63 | a message with trends ends with the last trend's title, a newline and its url; there is no trailing separator |
| Message.RapTrendWatch | agent.js:56-63 | the posted message is the rendering of the top trends of the fetched listings; it is the bare header exactly when no post has a title |

## Left out

- `fetchJson` (agent.js:7-17): HTTP, the `User-Agent` header, the status check and JSON parsing. Each listing enters the model already parsed, as a sequence of posts.
- Fetch failures: in the code, one failed fetch rejects the whole run. The model takes the fetched listings as given and has no error path for this.
- `postToDiscord` (agent.js:48-54): the webhook POST is output only. `RapTrendWatch` returns the message instead.
- The `DISCORD_WEBHOOK_URL` lookup and the error thrown when it is missing (agent.js:2-3). This is process configuration.
- The time text (agent.js:5): a clock read and New York locale formatting. `now` is an opaque input string.
- `async`/`await` and the top-level `main()` call (agent.js:56-68): they only sequence I/O.
- The `limit=20` query parameter: the model does not bound the number of children in a listing.
- Malformed JSON shapes are not modelled: a missing `data` or `children` throws a TypeError in the code. A title that is present but not a string is not modelled either. Titles are missing (absent or `null`), empty or non-empty strings.
- Reddit.Score: JavaScript numbers are doubles. The model uses unbounded integers, which agree with doubles for counts below 2^53.
- Ranking.SortByScore: the engine's own sort algorithm is not modelled. The model gives its specified result: a stable sort under the comparator `b.score - a.score`.
