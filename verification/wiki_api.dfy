/** The pure parts of src/wiki_api.py: cleaning the top-articles response
    of the Wikimedia pageviews API, and the parameters of the pageviews
    chart link. The HTTP request is an input. */
module WikiApi {
  import opened Wrappers
  import opened Text
  import Curve
  import History

  type Title = History.Title
  type Day = Curve.Day
  type RankedItem = History.RankedItem

  /** At most this many articles are kept per day. */
  const TopCount: nat := 10

  /** Namespace prefixes of pages that are not articles (src/config.py). */
  const IgnorePrefixes: seq<string> := [
    "Special:", "Wikipedia:", "File:", "Image:", "Category:", "Template:",
    "Help:", "Portal:", "Draft:", "Talk:", "User:", "MediaWiki:", "Book:",
    "文件:", "分类:", "模版:", "模板:", "帮助:", "传送门:", "草稿:", "讨论:", "用户:", "话题:",
    "特別:", "ファイル:", "利用者:", "ノート:", "画像:",
    "Spezial:", "Datei:", "Kategorie:", "Vorlage:", "Hilfe:", "Diskussion:", "Benutzer:",
    "Spécial:", "Wikipédia:", "Fichier:", "Catégorie:", "Modèle:", "Aide:", "Portail:", "Discussion:", "Utilisateur:",
    "Служебная:", "Википедия:", "Файл:", "Категория:", "Шаблон:", "Справка:", "Портал:", "Обсуждение:", "Участник:",
    "Speciale:", "Categoria:", "Aiuto:", "Portale:", "Discussione:", "Utente:"
  ]

  /** Exact titles that are never reported (src/config.py). */
  const SpecificIgnoreTerms: seq<string> := [
    "Main_Page", "Wikipedia:首页", "首页", "メインページ",
    "Wikipedia:Hauptseite", "Wikipédia:Accueil_principal",
    "Заглавная_страница", "Pagina_principale",
    "Special:Search", "Special:搜索", "Special:Recherche", "Spezial:Suche",
    "Служебная:Поиск", "Speciale:Ricerca",
    "-", "404.php", "Nap", "Undefined",
    "Special:CreateAccount", "Special:Watchlist", "Special:RecentChanges",
    "Cookie_Statement", "Privacy_policy", "Wikipedia:About", "Wikipedia:General_disclaimer"
  ]

  /** `title.startswith(prefixes)` for a tuple of prefixes. */
  predicate StartsWithAny(title: string, prefixes: seq<string>) {
    |prefixes| > 0 && (StartsWith(title, prefixes[0]) || StartsWithAny(title, prefixes[1..]))
  }

  lemma {:induction false} StartsWithAnyMeans(title: string, prefixes: seq<string>)
    ensures StartsWithAny(title, prefixes) <==> exists i :: 0 <= i < |prefixes| && StartsWith(title, prefixes[i])
  {
    if |prefixes| > 0 {
      StartsWithAnyMeans(title, prefixes[1..]);
      if StartsWithAny(title, prefixes[1..]) {
        var i :| 0 <= i < |prefixes[1..]| && StartsWith(title, prefixes[1..][i]);
        assert StartsWith(title, prefixes[i + 1]);
      }
      if exists i :: 0 <= i < |prefixes| && StartsWith(title, prefixes[i]) {
        var i :| 0 <= i < |prefixes| && StartsWith(title, prefixes[i]);
        if i > 0 {
          assert StartsWith(title, prefixes[1..][i - 1]);
        }
      }
    }
  }

  predicate Ignored(title: string) {
    title in SpecificIgnoreTerms || StartsWithAny(title, IgnorePrefixes)
  }

  /** One entry of the response's article list. */
  datatype RawArticle = RawArticle(article: string, views: nat)

  /** The outcome of the request: no answer at all, or a status and a body
      whose article list may be missing or malformed (`None`). */
  datatype Response = NetError | Http(status: int, articles: Option<seq<RawArticle>>)

  /** A title filter; the program's is `Ignored`. */
  type Filter = string -> bool

  /** The articles the filter does not ignore, in response order. */
  function Cleaned(raws: seq<RawArticle>, ignored: Filter): (r: seq<RankedItem>)
    ensures |r| <= |raws|
  {
    if |raws| == 0 then []
    else
      var a := raws[0];
      (if ignored(a.article) then [] else [History.RankedItem(a.article, a.views)]) + Cleaned(raws[1..], ignored)
  }

  /** Cleaning keeps exactly the response entries the filter does not ignore. */
  lemma {:induction false} CleanedMembers(raws: seq<RawArticle>, ignored: Filter)
    ensures forall x :: x in Cleaned(raws, ignored) <==> RawArticle(x.title, x.views) in raws && !ignored(x.title)
  {
    if |raws| > 0 {
      CleanedMembers(raws[1..], ignored);
      assert raws == [raws[0]] + raws[1..];
    }
  }

  /** The cleaning loop of `get_top_articles`: skip ignored titles and stop
      once `TopCount` articles are collected. */
  method FilterTopArticles(raws: seq<RawArticle>, ignored: Filter) returns (r: seq<RankedItem>)
    ensures r == Cleaned(raws, ignored)[..if |Cleaned(raws, ignored)| < TopCount then |Cleaned(raws, ignored)| else TopCount]
  {
    r := [];
    var i := 0;
    while i < |raws|
      invariant 0 <= i <= |raws|
      invariant r == Cleaned(raws[..i], ignored) && |r| < TopCount
    {
      CleanedAppend(raws[..i], raws[i], ignored);
      assert raws[..i + 1] == raws[..i] + [raws[i]];
      var a := raws[i];
      if !ignored(a.article) {
        r := r + [History.RankedItem(a.article, a.views)];
        if |r| >= TopCount {
          StopAtTop(raws, i + 1, ignored);
          return;
        }
      }
      i := i + 1;
    }
    assert raws[..i] == raws;
  }

  lemma {:induction false} CleanedAppend(raws: seq<RawArticle>, a: RawArticle, ignored: Filter)
    ensures Cleaned(raws + [a], ignored)
            == Cleaned(raws, ignored) + (if ignored(a.article) then [] else [History.RankedItem(a.article, a.views)])
  {
    if |raws| > 0 {
      assert (raws + [a])[1..] == raws[1..] + [a];
      CleanedAppend(raws[1..], a, ignored);
    } else {
      assert raws + [a] == [a];
    }
  }

  lemma {:induction false} CleanedSplit(a: seq<RawArticle>, b: seq<RawArticle>, ignored: Filter)
    ensures Cleaned(a + b, ignored) == Cleaned(a, ignored) + Cleaned(b, ignored)
  {
    if |a| > 0 {
      assert (a + b)[1..] == a[1..] + b;
      CleanedSplit(a[1..], b, ignored);
    } else {
      assert a + b == b;
    }
  }

  /** Cleaning a prefix gives a prefix of the cleaned whole. */
  lemma CleanedPrefix(raws: seq<RawArticle>, k: nat, ignored: Filter)
    requires k <= |raws|
    ensures Cleaned(raws[..k], ignored) <= Cleaned(raws, ignored)
  {
    assert raws == raws[..k] + raws[k..];
    CleanedSplit(raws[..k], raws[k..], ignored);
  }

  /** Once a prefix of the response has `TopCount` cleaned articles, those are
      the first `TopCount` of the whole. */
  lemma StopAtTop(raws: seq<RawArticle>, k: nat, ignored: Filter)
    requires k <= |raws| && |Cleaned(raws[..k], ignored)| == TopCount
    ensures var c := Cleaned(raws, ignored);
            |c| >= TopCount && Cleaned(raws[..k], ignored) == c[..TopCount]
  {
    CleanedPrefix(raws, k, ignored);
  }

  /** `get_top_articles` on a response: a 404, any other error status
      (`raise_for_status`), a failed request or a malformed body all give
      the empty list. */
  method GetTopArticles(resp: Response) returns (r: seq<RankedItem>)
    ensures resp.NetError? ==> r == []
    ensures resp.Http? && resp.status == 404 ==> r == []
    ensures resp.Http? && 400 <= resp.status < 600 ==> r == []
    ensures resp.Http? && resp.articles.None? ==> r == []
    ensures resp.Http? && !(400 <= resp.status < 600) && resp.articles.Some? ==>
              var c := Cleaned(resp.articles.value, Ignored);
              r == c[..if |c| < TopCount then |c| else TopCount]
  {
    if resp.NetError? || resp.status == 404 || 400 <= resp.status < 600 || resp.articles.None? {
      return [];
    }
    r := FilterTopArticles(resp.articles.value, Ignored);
  }

  /** `a` is `b` with some entries left out, order kept. */
  ghost predicate Subsequence<T>(a: seq<T>, b: seq<T>)
    decreases |b|
  {
    |a| == 0 || (|b| > 0 && ((a[0] == b[0] && Subsequence(a[1..], b[1..])) || Subsequence(a, b[1..])))
  }

  function AsItems(raws: seq<RawArticle>): (r: seq<RankedItem>)
    ensures |r| == |raws|
    ensures forall i :: 0 <= i < |raws| ==> r[i] == History.RankedItem(raws[i].article, raws[i].views)
  {
    if |raws| == 0 then [] else [History.RankedItem(raws[0].article, raws[0].views)] + AsItems(raws[1..])
  }

  lemma {:induction false} CleanedIsSubsequence(raws: seq<RawArticle>, ignored: Filter)
    ensures Subsequence(Cleaned(raws, ignored), AsItems(raws))
  {
    if |raws| > 0 {
      CleanedIsSubsequence(raws[1..], ignored);
      var c := Cleaned(raws, ignored);
      var rest := Cleaned(raws[1..], ignored);
      assert AsItems(raws)[1..] == AsItems(raws[1..]);
      if ignored(raws[0].article) {
        assert c == rest;
      } else {
        assert c[0] == AsItems(raws)[0] && c[1..] == rest;
      }
    }
  }

  lemma {:induction false} PrefixOfSubsequence<T>(a: seq<T>, b: seq<T>, k: nat)
    requires Subsequence(a, b) && k <= |a|
    ensures Subsequence(a[..k], b)
    decreases |b|
  {
    if k > 0 {
      if a[0] == b[0] && Subsequence(a[1..], b[1..]) {
        PrefixOfSubsequence(a[1..], b[1..], k - 1);
        assert a[..k][1..] == a[1..][..k - 1];
      } else {
        PrefixOfSubsequence(a, b[1..], k);
      }
    }
  }

  /** The reported articles: in response order, none ignored by exact title
      or by namespace prefix, and at most `TopCount`. */
  lemma TopArticlesProperties(raws: seq<RawArticle>)
    ensures var c := Cleaned(raws, Ignored);
            var r := c[..if |c| < TopCount then |c| else TopCount];
            && Subsequence(r, AsItems(raws))
            && |r| <= TopCount
            && forall x :: x in r ==> x.title !in SpecificIgnoreTerms
                                      && forall i :: 0 <= i < |IgnorePrefixes| ==> !StartsWith(x.title, IgnorePrefixes[i])
  {
    var c := Cleaned(raws, Ignored);
    var r := c[..if |c| < TopCount then |c| else TopCount];
    CleanedIsSubsequence(raws, Ignored);
    PrefixOfSubsequence(c, AsItems(raws), |r|);
    CleanedMembers(raws, Ignored);
    forall x | x in r
      ensures x.title !in SpecificIgnoreTerms
      ensures forall i :: 0 <= i < |IgnorePrefixes| ==> !StartsWith(x.title, IgnorePrefixes[i])
    {
      assert x in c;
      StartsWithAnyMeans(x.title, IgnorePrefixes);
    }
  }

  // ---------------------------------------------------------------------------
  // Chart link

  /** The days the chart spans before its end date. */
  const ChartSpanDays: nat := 60

  /** The query of a pageviews chart link, before URL encoding. */
  datatype ChartParams = ChartParams(project: string, platform: string, agent: string, redirects: string,
                                     start: Day, end: Day, pages: string)

  function Titles(items: seq<RankedItem>): (r: seq<Title>)
    ensures |r| == |items| && forall i :: 0 <= i < |items| ==> r[i] == items[i].title
  {
    if |items| == 0 then [] else [items[0].title] + Titles(items[1..])
  }

  /** The articles a link shows: the first `topN` when `topN` is truthy
      (given and non-zero, with Python's slice rules), otherwise all. */
  function LinkSubset(items: seq<RankedItem>, topN: Option<int>): (r: seq<RankedItem>)
    ensures r <= items
    ensures topN.None? || topN == Some(0) ==> r == items
    ensures topN.Some? && topN.value > 0 ==> |r| == if topN.value < |items| then topN.value else |items|
  {
    if topN.Some? && topN.value != 0 then PyPrefix(items, topN.value) else items
  }

  /** `generate_chart_link`: `None` without articles, otherwise the chart of
      the chosen titles joined by '|' over the 60 days up to `end`. */
  function ChartLink(project: string, items: seq<RankedItem>, end: Day, topN: Option<int>): (r: Option<ChartParams>)
    ensures r.None? <==> |items| == 0
    ensures r.Some? ==> r.value.end - r.value.start == ChartSpanDays && r.value.end == end
    ensures r.Some? ==> r.value.project == project && r.value.platform == "all-access"
                        && r.value.agent == "user" && r.value.redirects == "0"
  {
    if |items| == 0 then None
    else
      var titles := Titles(LinkSubset(items, topN));
      Some(ChartParams(project, "all-access", "user", "0", end - ChartSpanDays, end, Join(titles, '|')))
  }

  /** The `pages` parameter lists exactly the chosen titles, in order, when
      at least one is chosen and no title contains '|'. */
  lemma ChartPagesRoundTrip(project: string, items: seq<RankedItem>, end: Day, topN: Option<int>)
    requires |LinkSubset(items, topN)| >= 1
    requires forall x :: x in items ==> '|' !in x.title
    ensures ChartLink(project, items, end, topN).Some?
    ensures Split(ChartLink(project, items, end, topN).value.pages, '|') == Titles(LinkSubset(items, topN))
  {
    var sub := LinkSubset(items, topN);
    var titles := Titles(sub);
    forall i | 0 <= i < |titles| ensures '|' !in titles[i] {
      assert sub[i] in items;
    }
    SplitJoin(titles, '|');
  }
}
