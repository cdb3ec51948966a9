/** The text-building parts of src/main.py: the daily tweet and the line
    appended to the repository README for each posted tweet. Reading and
    writing the README file is left to the caller: the model maps the old
    content to the new one. */
module Tweet {
  import opened Wrappers
  import opened Text
  import NumberFormat
  import History

  type RankedItem = History.RankedItem

  const RepoUrl: string := "https://github.com/anonym-g/Attention"
  const TwitterUsername: string := "trailblaziger"
  /** Ranked lines per tweet. */
  const TweetLines: nat := 3

  /** The language entry of the tweet: its flag, header text and code. */
  datatype LangConfig = LangConfig(flag: string, header: string, code: string)

  /** Display width of a title: tighter for Chinese and Japanese. */
  function TitleLimit(code: string): (n: nat)
    ensures n == (if code == "zh" || code == "ja" then 17 else 35)
    ensures n >= 1
  {
    if code in ["zh", "ja"] then 17 else 35
  }

  /** A title for display: underscores become spaces, and a title longer
      than the limit keeps its first `limit - 1` characters plus "…". */
  function DisplayTitle(title: string, code: string): (r: string)
    ensures |r| <= TitleLimit(code)
    ensures '_' !in r
    ensures |title| <= TitleLimit(code) ==> |r| == |title|
    ensures |title| > TitleLimit(code) ==> |r| == TitleLimit(code) && r[|r| - 1] == '…'
    ensures forall i :: 0 <= i < |r| && (|title| <= TitleLimit(code) || i < TitleLimit(code) - 1) ==>
              r[i] == (if title[i] == '_' then ' ' else title[i])
  {
    var shown := ReplaceChar(title, '_', ' ');
    var limit := TitleLimit(code);
    if |shown| > limit then shown[..limit - 1] + "…" else shown
  }

  /** `"<i + 1>. <title>: <views>"`. */
  function RankLine(i: nat, item: RankedItem, code: string): string {
    Str(i + 1) + ". " + DisplayTitle(item.title, code) + ": " + NumberFormat.FormatNumber(item.views)
  }

  /** The ranked lines of the first three articles, numbered from 1. */
  function RankLines(items: seq<RankedItem>, code: string): (lines: seq<string>)
    ensures |lines| == if |items| < TweetLines then |items| else TweetLines
    ensures forall i :: 0 <= i < |lines| ==> lines[i] == RankLine(i, items[i], code)
  {
    var n := if |items| < TweetLines then |items| else TweetLines;
    seq(n, i requires 0 <= i < n => RankLine(i, items[i], code))
  }

  /** The tweet's first line and the blank line after it. */
  function TweetHead(cfg: LangConfig, date: string): string {
    cfg.flag + " " + cfg.header + " (" + date + ")\n\n"
  }

  /** What follows the ranked lines: the chart heading, ... */
  const ChartHeading: string := "\n\n📊 Visualization & Full List:\n"

  /** ... then the chart link and the project link. */
  function LinksTail(chartLink: string): string {
    chartLink + "\n\n🔗 Project: " + RepoUrl
  }

  /** `construct_tweet`: nothing without articles; otherwise the header,
      the ranked lines, the chart link and the project link. The ranked
      block sits right after the header and right before the chart
      heading. */
  function ConstructTweet(cfg: LangConfig, date: string, items: seq<RankedItem>, chartLink: string): (r: Option<string>)
    ensures r.None? <==> |items| == 0
    ensures r.Some? ==> StartsWith(r.value, cfg.flag + " " + cfg.header + " (" + date + ")\n\n")
    ensures r.Some? ==> EndsWith(r.value, chartLink + "\n\n🔗 Project: " + RepoUrl)
    ensures r.Some? ==>
              var h := |TweetHead(cfg, date)|;
              var block := Join(RankLines(items, cfg.code), '\n');
              && h + |block| <= |r.value|
              && r.value[h..h + |block|] == block
              && StartsWith(r.value[h + |block|..], ChartHeading)
  {
    if |items| == 0 then None
    else
      var head := TweetHead(cfg, date);
      var block := Join(RankLines(items, cfg.code), '\n');
      var tail := LinksTail(chartLink);
      StartsWithAppend(head, block, ChartHeading + tail);
      EndsWithNested(head + block, ChartHeading, tail);
      Pieces(head, block, ChartHeading + tail);
      StartsWithConcat(ChartHeading, tail);
      Some(head + block + (ChartHeading + tail))
  }

  /** The ranked block splits back into its lines when no line contains a
      line break. */
  lemma RankLinesRoundTrip(items: seq<RankedItem>, code: string)
    requires |items| > 0
    requires forall i :: 0 <= i < |RankLines(items, code)| ==> '\n' !in RankLines(items, code)[i]
    ensures Split(Join(RankLines(items, code), '\n'), '\n') == RankLines(items, code)
  {
    SplitJoin(RankLines(items, code), '\n');
  }

  /** Cutting the tweet after its header and before the chart heading gives
      back the ranked lines: the first min(3, n) articles, in order. */
  lemma TweetRankLines(cfg: LangConfig, date: string, items: seq<RankedItem>, chartLink: string)
    requires |items| > 0
    requires forall i :: 0 <= i < |RankLines(items, cfg.code)| ==> '\n' !in RankLines(items, cfg.code)[i]
    ensures var t := ConstructTweet(cfg, date, items, chartLink).value;
            var h := |TweetHead(cfg, date)|;
            var n := |Join(RankLines(items, cfg.code), '\n')|;
            && h + n <= |t|
            && Split(t[h..h + n], '\n') == RankLines(items, cfg.code)
            && StartsWith(t[h + n..], ChartHeading)
  {
    RankLinesRoundTrip(items, cfg.code);
  }

  // ---------------------------------------------------------------------------
  // README tweet list

  const TweetListHeader: string := "## Tweet List"

  function TweetLink(tweetId: string): string {
    "https://x.com/" + TwitterUsername + "/status/" + tweetId
  }

  /** What goes before the new line: the section header when it is missing,
      else a line break when the content does not end with one. */
  function Separator(content: string): (sep: string)
    ensures !Contains(content, TweetListHeader) ==> sep == "\n\n" + TweetListHeader + "\n"
    ensures Contains(content, TweetListHeader) ==> EndsWith(content + sep, "\n")
    ensures Contains(content, TweetListHeader) ==> sep == (if EndsWith(content, "\n") then "" else "\n")
  {
    if !Contains(content, TweetListHeader) then "\n\n" + TweetListHeader + "\n"
    else if !EndsWith(content, "\n") then "\n"
    else ""
  }

  /** The line `update_readme` appends for a tweet. */
  function Entry(date: string, tweetId: string): string {
    "#### " + date + ": " + TweetLink(tweetId) + "\n"
  }

  /** `update_readme` on the README's content (`None` when there is no
      README): unchanged when the link is already there, otherwise the
      separator and the entry line are appended. */
  function UpdateReadme(content: Option<string>, date: string, tweetId: string): (r: Option<string>)
    ensures content.None? ==> r.None?
    ensures content.Some? && Contains(content.value, TweetLink(tweetId)) ==> r == content
    ensures content.Some? && !Contains(content.value, TweetLink(tweetId)) ==>
              r == Some(content.value + Separator(content.value) + Entry(date, tweetId))
  {
    match content
    case None => None
    case Some(c) =>
      if Contains(c, TweetLink(tweetId)) then content
      else Some(c + Separator(c) + Entry(date, tweetId))
  }

  /** Once added, the link is found, so a second update changes nothing. */
  lemma UpdateReadmeIdempotent(content: Option<string>, date: string, tweetId: string)
    ensures UpdateReadme(UpdateReadme(content, date, tweetId), date, tweetId) == UpdateReadme(content, date, tweetId)
  {
    if content.Some? && !Contains(content.value, TweetLink(tweetId)) {
      var c := content.value;
      ContainsMiddle("#### " + date + ": ", TweetLink(tweetId), "\n");
      ContainsPrepended(c + Separator(c), Entry(date, tweetId), TweetLink(tweetId));
    }
  }

  lemma ContainsMiddle(a: string, h: string, b: string)
    ensures Contains(a + h + b, h)
  {
    ContainsSuffix(a, h);
    ContainsExtended(a + h, b, h);
  }

  /** `h` stays contained when wrapped, and when the wrapped text is embedded. */
  lemma ContainsInside(a: string, x: string, h: string, y: string, b: string)
    ensures Contains(a + (x + h + y) + b, h)
  {
    ContainsMiddle(x, h, y);
    ContainsPrepended(a, x + h + y, h);
    ContainsExtended(a + (x + h + y), b, h);
  }

  /** The layout of the appended text, for any separator that ends the
      old content with a line break and keeps or adds the header. */
  lemma AppendLayout(c: string, sep: string, rest: string)
    requires Contains(c, TweetListHeader) || sep == "\n\n" + TweetListHeader + "\n"
    ensures Contains(c + sep + rest, TweetListHeader)
  {
    if Contains(c, TweetListHeader) {
      ContainsExtended(c, sep, TweetListHeader);
      ContainsExtended(c + sep, rest, TweetListHeader);
    } else {
      ContainsInside(c, "\n\n", TweetListHeader, "\n", rest);
    }
  }

  /** After an update that writes, the README has the section header and
      the new entry starts on a line of its own. */
  lemma UpdateReadmeLayout(c: string, date: string, tweetId: string)
    requires !Contains(c, TweetLink(tweetId))
    ensures var r := UpdateReadme(Some(c), date, tweetId).value;
            var before := c + Separator(c);
            && Contains(r, TweetListHeader)
            && EndsWith(before, "\n")
            && r == before + Entry(date, tweetId)
  {
    var sep := Separator(c);
    AppendLayout(c, sep, Entry(date, tweetId));
    if !Contains(c, TweetListHeader) {
      EndsWithNested(c, "\n\n" + TweetListHeader, "\n");
    }
  }
}
