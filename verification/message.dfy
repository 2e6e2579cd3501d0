/** The message the agent posts: a bold header carrying the time of the run,
    then one numbered entry per trend, entries separated by a blank line
    (agent.js, lines 56-63). The time text is an input. */
module Message {
  import opened Reddit
  import Ranking

  const Separator: string := "\n\n"

  const HeaderOpen: string := "**Rap Trend Watch \U{2014} "
  const HeaderClose: string := "**\n\n"

  /** `**Rap Trend Watch — <now>**` followed by a blank line: the time text can be
      read back from between the fixed opening and the closing bold marker. */
  function Header(now: string): (r: string)
    ensures |r| == |HeaderOpen| + |now| + |HeaderClose|
    ensures HeaderOpen <= r && r[|HeaderOpen|..|r| - |HeaderClose|] == now
    ensures r[|r| - |HeaderClose|..] == HeaderClose
  {
    HeaderOpen + now + HeaderClose
  }

  function DigitChar(d: nat): (c: char)
    requires d < 10
    ensures '0' <= c <= '9'
  {
    "0123456789"[d]
  }

  function DigitValue(c: char): nat
    requires '0' <= c <= '9'
  {
    (c as int - '0' as int) as nat
  }

  predicate AllDigits(s: string) {
    forall i :: 0 <= i < |s| ==> '0' <= s[i] <= '9'
  }

  /** The decimal text of `n`, as `${n}` renders a non-negative integer: at least
      one digit and no leading zero. */
  function Decimal(n: nat): (s: string)
    ensures |s| > 0 && AllDigits(s)
    ensures |s| > 1 ==> s[0] != '0'
    ensures n < 10 <==> |s| == 1
  {
    if n < 10 then [DigitChar(n)] else Decimal(n / 10) + [DigitChar(n % 10)]
  }

  /** The number a string of decimal digits denotes. */
  function DecimalValue(s: string): nat
    requires AllDigits(s)
  {
    if s == [] then 0 else DecimalValue(s[..|s| - 1]) * 10 + DigitValue(s[|s| - 1])
  }

  /** Reading the digits back gives the number: entry numbers are exact. */
  lemma {:induction false} DecimalRoundTrip(n: nat)
    ensures DecimalValue(Decimal(n)) == n
  {
    var s := Decimal(n);
    if n >= 10 {
      DecimalRoundTrip(n / 10);
      assert s[..|s| - 1] == Decimal(n / 10);
    }
  }

  /** `Array.prototype.join`: the parts with `sep` between neighbours and nowhere else. */
  function Join(parts: seq<string>, sep: string): (r: string)
    ensures parts != [] ==> parts[0] <= r
    ensures parts == [] ==> r == ""
    ensures |parts| == 1 ==> r == parts[0]
  {
    if parts == [] then ""
    else if |parts| == 1 then parts[0]
    else parts[0] + sep + Join(parts[1..], sep)
  }

  /** Joining one more part adds a separator and the part at the end. */
  lemma {:induction false} JoinSnoc(parts: seq<string>, x: string, sep: string)
    requires parts != []
    ensures Join(parts + [x], sep) == Join(parts, sep) + sep + x
  {
    var whole := parts + [x];
    assert whole[0] == parts[0];
    if |parts| > 1 {
      assert whole[1..] == parts[1..] + [x];
      JoinSnoc(parts[1..], x, sep);
    } else {
      assert whole[1..] == [x];
    }
  }

  /** The `k`-th entry: `k. title` then the url on the next line. The number
      opens the entry, and the url closes it. */
  function Entry(k: nat, t: TrendItem): (r: string)
    ensures |r| == |Decimal(k)| + 2 + |t.title| + 1 + |t.url|
    ensures Decimal(k) <= r && r[|Decimal(k)|..|Decimal(k)| + 2] == ". "
    ensures r[|Decimal(k)| + 2..|r| - |t.url| - 1] == t.title
    ensures r[|r| - |t.url| - 1..] == "\n" + t.url
  {
    Decimal(k) + ". " + t.title + "\n" + t.url
  }

  /** The entries of a trend list, numbered from 1. */
  function Entries(trends: seq<TrendItem>): (r: seq<string>)
    ensures |r| == |trends|
    ensures forall i :: 0 <= i < |trends| ==> r[i] == Entry(i + 1, trends[i])
  {
    seq(|trends|, i requires 0 <= i < |trends| => Entry(i + 1, trends[i]))
  }

  /** The message built from the time text and the trends. */
  function Render(now: string, trends: seq<TrendItem>): (r: string)
    ensures Header(now) <= r
    ensures r == Header(now) <==> trends == []
  {
    Header(now) + Join(Entries(trends), Separator)
  }

  /** With a single trend the message is the header and entry `1.`. */
  lemma RenderSingle(now: string, t: TrendItem)
    ensures Render(now, [t]) == Header(now) + "1. " + t.title + "\n" + t.url
  {
    assert Entries([t]) == [Entry(1, t)];
  }

  /** Each further trend adds a blank line and the next numbered entry, so the
      message is the header, then entries 1..n in order, with separators only
      between entries. */
  lemma RenderSnoc(now: string, trends: seq<TrendItem>, t: TrendItem)
    requires trends != []
    ensures Render(now, trends + [t]) == Render(now, trends) + Separator + Entry(|trends| + 1, t)
  {
    assert Entries(trends + [t]) == Entries(trends) + [Entry(|trends| + 1, t)];
    JoinSnoc(Entries(trends), Entry(|trends| + 1, t), Separator);
  }

  /** No trailing separator: a non-empty message ends with the last trend's url,
      on its own line after that trend's title. */
  lemma {:induction false} RenderEndsWithLastUrl(now: string, trends: seq<TrendItem>)
    requires trends != []
    ensures var r, last := Render(now, trends), trends[|trends| - 1];
            var tail := last.title + "\n" + last.url;
            |r| >= |tail| && r[|r| - |tail|..] == tail
  {
    var last := trends[|trends| - 1];
    var tail := last.title + "\n" + last.url;
    var e := Entry(|trends|, last);
    assert e == Decimal(|trends|) + ". " + tail;
    if |trends| == 1 {
      assert Entries(trends) == [e];
    } else {
      var init := trends[..|trends| - 1];
      assert trends == init + [last];
      RenderSnoc(now, init, last);
    }
    var r := Render(now, trends);
    assert r[|r| - |e|..] == e;
    assert e[|e| - |tail|..] == tail;
  }

  /** `main` without its I/O: the agent's listings come from fetching each of the
      subreddits in order, and the message is rendered from the trends they give. */
  method RapTrendWatch(now: string, responses: seq<seq<Post>>) returns (message: string)
    requires |responses| == |Subreddits|
    ensures message == Render(now, Ranking.TopTrends(ListingsOf(responses)))
    ensures Header(now) <= message
    ensures message == Header(now) <==> TitledCount(ListingsOf(responses)) == 0
  {
    var trends := Ranking.GetRedditTrends(ListingsOf(responses));
    message := Render(now, trends);
  }
}
