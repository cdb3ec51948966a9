/** The history store (`update_data` in src/animator.py): one record per
    article holding raw daily counts and derived minute curves, plus the
    rolling window of retained dates. Loading and saving the JSON file are
    left to the caller: the update takes a snapshot and returns the next. */
module History {
  import opened Wrappers
  import opened Sorting
  import Curve

  type Day = Curve.Day
  type Title = string

  /** Number of dates the rolling window retains. */
  const WindowSize: nat := 30

  datatype Record = Record(dailyRaw: map<Day, nat>, minutes: map<Day, seq<nat>>)

  datatype Snapshot = Snapshot(dates: seq<Day>, articles: map<Title, Record>)

  /** One entry of the day's ranking: a title and its authoritative count. */
  datatype RankedItem = RankedItem(title: Title, views: nat)

  /** The per-article daily-count request for `[start, end]`
      (`fetch_raw_daily_batch`); a failed request yields the empty map. */
  type Fetch = (Title, Day, Day) -> map<Day, nat>

  const EmptyRecord := Record(map[], map[])

  ghost predicate StrictlyIncreasing(s: seq<Day>) {
    forall i, j :: 0 <= i < j < |s| ==> s[i] < s[j]
  }

  /** Window invariant: ascending, no repeats, at most `WindowSize` dates. */
  ghost predicate WindowOk(dates: seq<Day>) {
    StrictlyIncreasing(dates) && |dates| <= WindowSize
  }

  // ---------------------------------------------------------------------------
  // Rolling window

  ghost predicate Ascending(s: seq<Day>) {
    forall i, j :: 0 <= i < j < |s| ==> s[i] <= s[j]
  }

  /** Python's `list.sort()` on dates. */
  function SortDays(s: seq<Day>): (r: seq<Day>)
    ensures Ascending(r)
    ensures multiset(r) == multiset(s)
    ensures |r| == |s|
  {
    IntLeIsTotalPreorder();
    var r := Sort(IntLe, s);
    assert forall i, j :: 0 <= i < j < |r| ==> IntLe(r[i], r[j]);
    r
  }

  /** The last `n` elements of `s` (all of them when there are fewer). */
  function Newest(s: seq<Day>, n: nat): (r: seq<Day>)
    ensures |r| == if |s| <= n then |s| else n
    ensures s == s[..|s| - |r|] + r
  {
    if |s| > n then s[|s| - n..] else s
  }

  /** Registers `today`: a new date is appended, the list sorted and cut to
      the newest `WindowSize`; a date already present changes nothing. */
  function RegisterDate(dates: seq<Day>, today: Day): (r: seq<Day>)
    ensures today in dates ==> r == dates
    ensures today !in dates ==> Ascending(r)
    ensures today !in dates ==> |r| == if |dates| + 1 <= WindowSize then |dates| + 1 else WindowSize
    ensures today !in dates ==> multiset(r) <= multiset(dates + [today])
    ensures today !in dates && |dates| < WindowSize ==> multiset(r) == multiset(dates + [today])
    ensures today !in dates ==>
              forall x, y :: x in dates + [today] && x !in r && y in r ==> x <= y
  {
    if today in dates then dates
    else
      var all := dates + [today];
      var sorted := SortDays(all);
      var r := Newest(sorted, WindowSize);
      EvictedAreOldest(sorted, r);
      assert forall x :: x in all <==> x in sorted by {
        forall x ensures x in all <==> x in sorted {
          assert x in all <==> x in multiset(all);
          assert x in sorted <==> x in multiset(sorted);
        }
      }
      assert |dates| < WindowSize ==> r == sorted;
      r
  }

  /** Cutting a sorted sequence to a suffix evicts only elements no larger
      than the ones kept. */
  lemma EvictedAreOldest(sorted: seq<Day>, r: seq<Day>)
    requires Ascending(sorted)
    requires |r| <= |sorted| && sorted == sorted[..|sorted| - |r|] + r
    ensures multiset(r) <= multiset(sorted)
    ensures forall x, y :: x in sorted && x !in r && y in r ==> x <= y
  {
    var cut := |sorted| - |r|;
    var evicted := sorted[..cut];
    assert multiset(sorted) == multiset(evicted) + multiset(r);
    forall x, y | x in sorted && x !in r && y in r
      ensures x <= y
    {
      assert x in evicted + r;
      var i :| 0 <= i < cut && evicted[i] == x;
      var j :| 0 <= j < |r| && r[j] == y;
      assert sorted[i] == x && sorted[cut + j] == y;
    }
  }

  ghost predicate NoRepeats(s: seq<Day>) {
    forall v :: multiset(s)[v] <= 1
  }

  lemma {:induction false} StrictlyIncreasingNoRepeats(s: seq<Day>)
    requires StrictlyIncreasing(s)
    ensures NoRepeats(s)
  {
    if |s| > 0 {
      StrictlyIncreasingNoRepeats(s[1..]);
      assert s == [s[0]] + s[1..];
      assert s[0] !in s[1..];
    }
  }

  lemma SortedNoRepeatsIncreasing(s: seq<Day>)
    requires Ascending(s) && NoRepeats(s)
    ensures StrictlyIncreasing(s)
  {
    forall i, j | 0 <= i < j < |s|
      ensures s[i] < s[j]
    {
      if s[i] == s[j] {
        CountedTwice(s, i, j);
      }
    }
  }

  /** A sub-multiset of a repeat-free sequence has no repeats either. */
  lemma SubMultisetNoRepeats(r: seq<Day>, dates: seq<Day>, today: Day)
    requires NoRepeats(dates) && today !in dates
    requires multiset(r) <= multiset(dates + [today])
    ensures NoRepeats(r)
  {
    assert multiset(dates + [today]) == multiset(dates) + multiset{today};
    forall v
      ensures multiset(r)[v] <= 1
    {
      assert multiset(r)[v] <= multiset(dates + [today])[v];
    }
  }

  lemma DrawnFrom(r: seq<Day>, all: seq<Day>)
    requires multiset(r) <= multiset(all)
    ensures forall d :: d in r ==> d in all
  {
    forall d | d in r
      ensures d in all
    {
      assert d in multiset(r);
    }
  }

  /** The window invariant survives registration, registering a date while
      fewer than `WindowSize` are retained keeps it, and nothing but the
      retained dates and `today` ever appears. */
  lemma RegisterDateKeepsWindow(dates: seq<Day>, today: Day)
    requires WindowOk(dates)
    ensures WindowOk(RegisterDate(dates, today))
    ensures |dates| < WindowSize ==> today in RegisterDate(dates, today)
    ensures forall d :: d in RegisterDate(dates, today) ==> d in dates || d == today
  {
    var r := RegisterDate(dates, today);
    if today !in dates {
      StrictlyIncreasingNoRepeats(dates);
      SubMultisetNoRepeats(r, dates, today);
      SortedNoRepeatsIncreasing(r);
      DrawnFrom(r, dates + [today]);
      if |dates| < WindowSize {
        assert today in multiset(dates + [today]);
      }
    }
  }

  // ---------------------------------------------------------------------------
  // Raw-count merge for ranked items

  function Titles(items: seq<RankedItem>): set<Title> {
    set i | 0 <= i < |items| :: items[i].title
  }

  lemma TitlesCons(items: seq<RankedItem>)
    requires |items| > 0
    ensures Titles(items) == {items[0].title} + Titles(items[1..])
  {
    forall t | t in Titles(items[1..]) ensures t in Titles(items) {
      var i :| 0 <= i < |items[1..]| && items[1..][i].title == t;
      assert items[i + 1].title == t;
    }
  }

  /** Item `i` is the last one in the ranking with its title. */
  ghost predicate LastWithTitle(items: seq<RankedItem>, i: int) {
    0 <= i < |items| && forall j :: i < j < |items| ==> items[j].title != items[i].title
  }

  /** The count of the last ranked item titled `t`. */
  function LastViews(items: seq<RankedItem>, t: Title): nat
    requires t in Titles(items)
    decreases |items|
  {
    TitlesCons(items);
    if t in Titles(items[1..]) then LastViews(items[1..], t) else items[0].views
  }

  lemma {:induction false} LastViewsIsLastItem(items: seq<RankedItem>, i: int)
    requires LastWithTitle(items, i)
    ensures items[i].title in Titles(items)
    ensures LastViews(items, items[i].title) == items[i].views
    decreases |items|
  {
    TitlesCons(items);
    if i > 0 {
      assert LastWithTitle(items[1..], i - 1);
      LastViewsIsLastItem(items[1..], i - 1);
    } else {
      assert items[0].title !in Titles(items[1..]);
    }
  }

  /** A record after merging: the fetch overwrites, then the ranking's own
      `views` overwrites `today`. */
  function Merged(rec: Record, fetched: map<Day, nat>, today: Day, views: nat): Record {
    rec.(dailyRaw := (rec.dailyRaw + fetched)[today := views])
  }

  /** One ranked item: create its record if new, merge the fetched window
      `today - 3 .. today` over its raw counts, then force `today` to the
      ranking's own count. */
  function MergeOne(articles: map<Title, Record>, item: RankedItem, today: Day, fetch: Fetch): map<Title, Record> {
    var rec := Get(articles, item.title, EmptyRecord);
    articles[item.title := Merged(rec, fetch(item.title, today - 3, today), today, item.views)]
  }

  /** Merging twice with the same fetch is merging once with the later count. */
  lemma MergedTwice(rec: Record, fetched: map<Day, nat>, today: Day, v1: nat, v2: nat)
    ensures Merged(Merged(rec, fetched, today, v1), fetched, today, v2) == Merged(rec, fetched, today, v2)
  {
    var a := Merged(Merged(rec, fetched, today, v1), fetched, today, v2).dailyRaw;
    var b := Merged(rec, fetched, today, v2).dailyRaw;
    assert a.Keys == b.Keys;
    assert forall d :: d in a ==> a[d] == b[d];
  }

  /** Merges every ranked item in ranking order. */
  function MergeRanked(articles: map<Title, Record>, items: seq<RankedItem>, today: Day, fetch: Fetch)
    : (r: map<Title, Record>)
    ensures r.Keys == articles.Keys + Titles(items)
    ensures forall t :: t in articles && t !in Titles(items) ==> r[t] == articles[t]
    decreases |items|
  {
    if |items| == 0 then articles
    else
      TitlesCons(items);
      MergeRanked(MergeOne(articles, items[0], today, fetch), items[1..], today, fetch)
  }

  /** However often a title is ranked, its record ends up merged once with
      its fetch and with the count of its last entry. */
  lemma {:induction false} MergeRankedMergesOnce(articles: map<Title, Record>, items: seq<RankedItem>, today: Day, fetch: Fetch)
    ensures forall t :: t in Titles(items) ==>
              MergeRanked(articles, items, today, fetch)[t]
              == Merged(Get(articles, t, EmptyRecord), fetch(t, today - 3, today), today, LastViews(items, t))
    decreases |items|
  {
    if |items| > 0 {
      var a1 := MergeOne(articles, items[0], today, fetch);
      MergeRankedMergesOnce(a1, items[1..], today, fetch);
      forall t | t in Titles(items)
        ensures MergeRanked(articles, items, today, fetch)[t]
                == Merged(Get(articles, t, EmptyRecord), fetch(t, today - 3, today), today, LastViews(items, t))
      {
        MergeHead(articles, items, today, fetch, t);
      }
    }
  }

  /** The step of `MergeRankedMergesOnce` for one title: the first item's
      merge is absorbed by the merges of the rest. */
  lemma MergeHead(articles: map<Title, Record>, items: seq<RankedItem>, today: Day, fetch: Fetch, t: Title)
    requires |items| > 0 && t in Titles(items)
    requires var a1 := MergeOne(articles, items[0], today, fetch);
             t in Titles(items[1..]) ==>
               MergeRanked(a1, items[1..], today, fetch)[t]
               == Merged(Get(a1, t, EmptyRecord), fetch(t, today - 3, today), today, LastViews(items[1..], t))
    ensures MergeRanked(articles, items, today, fetch)[t]
            == Merged(Get(articles, t, EmptyRecord), fetch(t, today - 3, today), today, LastViews(items, t))
  {
    var a1 := MergeOne(articles, items[0], today, fetch);
    assert MergeRanked(articles, items, today, fetch) == MergeRanked(a1, items[1..], today, fetch);
    TitlesCons(items);
    if t in Titles(items[1..]) {
      assert LastViews(items, t) == LastViews(items[1..], t);
      MergeAgain(articles, items[0], today, fetch, t, LastViews(items[1..], t));
    } else {
      MergeHeadOnly(articles, items, today, fetch);
    }
  }

  /** A title ranked only first keeps the first item's merge. */
  lemma MergeHeadOnly(articles: map<Title, Record>, items: seq<RankedItem>, today: Day, fetch: Fetch)
    requires |items| > 0 && items[0].title !in Titles(items[1..])
    ensures var t := items[0].title;
            t in Titles(items)
            && MergeRanked(MergeOne(articles, items[0], today, fetch), items[1..], today, fetch)[t]
               == Merged(Get(articles, t, EmptyRecord), fetch(t, today - 3, today), today, LastViews(items, t))
  {
    TitlesCons(items);
  }

  /** Merging a title again after an item's merge is merging it once, with
      the later count. */
  lemma MergeAgain(articles: map<Title, Record>, item: RankedItem, today: Day, fetch: Fetch, t: Title, views: nat)
    ensures Merged(Get(MergeOne(articles, item, today, fetch), t, EmptyRecord), fetch(t, today - 3, today), today, views)
            == Merged(Get(articles, t, EmptyRecord), fetch(t, today - 3, today), today, views)
  {
    if t == item.title {
      MergedTwice(Get(articles, t, EmptyRecord), fetch(t, today - 3, today), today, item.views, views);
    }
  }

  /** For each ranked title: its count for `today` is that of its last
      entry, the fetched counts overwrite older ones for the other days, and
      no raw day is dropped. */
  lemma MergeRankedCounts(articles: map<Title, Record>, items: seq<RankedItem>, today: Day, fetch: Fetch)
    ensures forall i :: LastWithTitle(items, i) ==>
              var raw := MergeRanked(articles, items, today, fetch)[items[i].title].dailyRaw;
              today in raw && raw[today] == items[i].views
    ensures forall t :: t in Titles(items) ==>
              MergeRanked(articles, items, today, fetch)[t].dailyRaw.Keys ==
                Get(articles, t, EmptyRecord).dailyRaw.Keys + fetch(t, today - 3, today).Keys + {today}
    ensures forall t, d :: t in Titles(items) && d != today && d in fetch(t, today - 3, today) ==>
              MergeRanked(articles, items, today, fetch)[t].dailyRaw[d] == fetch(t, today - 3, today)[d]
    ensures forall t, d :: (t in Titles(items) && d != today && d !in fetch(t, today - 3, today)
              && d in Get(articles, t, EmptyRecord).dailyRaw) ==>
              MergeRanked(articles, items, today, fetch)[t].dailyRaw[d] == Get(articles, t, EmptyRecord).dailyRaw[d]
  {
    MergeRankedMergesOnce(articles, items, today, fetch);
    forall i | LastWithTitle(items, i)
      ensures var raw := MergeRanked(articles, items, today, fetch)[items[i].title].dailyRaw;
              today in raw && raw[today] == items[i].views
    {
      LastViewsIsLastItem(items, i);
    }
  }

  // ---------------------------------------------------------------------------
  // Maintenance updates

  /** Previously tracked titles missing from today's ranking whose raw counts
      already include yesterday. */
  function MaintenanceTitles(articles: map<Title, Record>, items: seq<RankedItem>, yesterday: Day)
    : (r: set<Title>)
    ensures forall t :: t in r <==>
              t in articles && t !in Titles(items) && yesterday in articles[t].dailyRaw
  {
    set t | t in articles && t !in Titles(items) && yesterday in articles[t].dailyRaw
  }

  /** Refreshes `yesterday .. today` for the maintenance titles; an empty
      fetch leaves the record alone. */
  function Maintain(articles: map<Title, Record>, titles: set<Title>, yesterday: Day, today: Day, fetch: Fetch)
    : (r: map<Title, Record>)
    ensures r.Keys == articles.Keys
    ensures forall t :: t in r ==> r[t].minutes == articles[t].minutes
    ensures forall t :: t in r && (t !in titles || |fetch(t, yesterday, today)| == 0) ==> r[t] == articles[t]
    ensures forall t :: t in r && t in titles && |fetch(t, yesterday, today)| > 0 ==>
              r[t].dailyRaw == articles[t].dailyRaw + fetch(t, yesterday, today)
  {
    map t | t in articles ::
      if t in titles && |fetch(t, yesterday, today)| > 0
      then articles[t].(dailyRaw := articles[t].dailyRaw + fetch(t, yesterday, today))
      else articles[t]
  }

  // ---------------------------------------------------------------------------
  // Curve recomputation and pruning

  /** The three dates whose curves are recomputed: the day before yesterday,
      yesterday and today. */
  function RecalcDays(today: Day): set<Day> {
    {today - 2, today - 1, today}
  }

  /** Recomputes the curves of the recalculation days that have a raw count,
      then drops every curve whose date is not retained. */
  function Refresh(rec: Record, today: Day, keep: set<Day>, pchip: Curve.Pchip): (r: Record)
    ensures r.dailyRaw == rec.dailyRaw
    ensures r.minutes.Keys <= keep
    ensures forall d :: d in RecalcDays(today) && d in rec.dailyRaw && d in keep ==>
              d in r.minutes && r.minutes[d] == Curve.Interpolate(rec.dailyRaw, d, pchip)
    ensures forall d :: d in r.minutes && !(d in RecalcDays(today) && d in rec.dailyRaw) ==>
              d in rec.minutes && r.minutes[d] == rec.minutes[d]
    ensures forall d :: d in rec.minutes && d in keep ==> d in r.minutes
  {
    var recomputed := map d | d in RecalcDays(today) && d in rec.dailyRaw :: Curve.Interpolate(rec.dailyRaw, d, pchip);
    var merged := rec.minutes + recomputed;
    rec.(minutes := map d | d in merged && d in keep :: merged[d])
  }

  // ---------------------------------------------------------------------------
  // The whole update

  function RefreshAll(articles: map<Title, Record>, today: Day, keep: set<Day>, pchip: Curve.Pchip)
    : (r: map<Title, Record>)
    ensures r.Keys == articles.Keys
    ensures forall t :: t in r ==> r[t] == Refresh(articles[t], today, keep, pchip)
  {
    map t | t in articles :: Refresh(articles[t], today, keep, pchip)
  }

  /** The articles after merging the ranking and the maintenance refresh,
      before curves are touched. */
  function MergeAll(articles: map<Title, Record>, today: Day, items: seq<RankedItem>, fetch: Fetch)
    : map<Title, Record>
  {
    var maintenance := MaintenanceTitles(articles, items, today - 1);
    Maintain(MergeRanked(articles, items, today, fetch), maintenance, today - 1, today, fetch)
  }

  /** The new snapshot: register the date, merge the ranked items, refresh
      the maintenance titles, then recompute and prune every record's curves. */
  function UpdateData(s: Snapshot, today: Day, items: seq<RankedItem>, fetch: Fetch, pchip: Curve.Pchip)
    : (r: Snapshot)
    ensures r.dates == RegisterDate(s.dates, today)
    ensures r.articles.Keys == s.articles.Keys + Titles(items)
  {
    var dates := RegisterDate(s.dates, today);
    var keep := set d | d in dates;
    Snapshot(dates, RefreshAll(MergeAll(s.articles, today, items, fetch), today, keep, pchip))
  }

  /** Raw counts after the merge: ranked titles are merged once with the
      count of their last entry; other titles keep theirs, refreshed only
      when they hold yesterday and the fetch is non-empty. */
  lemma MergeAllRaw(articles: map<Title, Record>, today: Day, items: seq<RankedItem>, fetch: Fetch)
    ensures var m := MergeAll(articles, today, items, fetch);
            forall t :: t in Titles(items) ==>
              m[t] == Merged(Get(articles, t, EmptyRecord), fetch(t, today - 3, today), today, LastViews(items, t))
    ensures var m := MergeAll(articles, today, items, fetch);
            forall t :: t in articles && t !in Titles(items) ==>
              m[t].minutes == articles[t].minutes &&
              m[t].dailyRaw ==
                if today - 1 in articles[t].dailyRaw && |fetch(t, today - 1, today)| > 0
                then articles[t].dailyRaw + fetch(t, today - 1, today)
                else articles[t].dailyRaw
  {
    MergeRankedMergesOnce(articles, items, today, fetch);
  }

  /** Curve refreshing leaves the merged raw counts alone. */
  lemma UpdateKeepsRaw(s: Snapshot, today: Day, items: seq<RankedItem>, fetch: Fetch, pchip: Curve.Pchip)
    ensures var r := UpdateData(s, today, items, fetch, pchip);
            var m := MergeAll(s.articles, today, items, fetch);
            r.articles.Keys == m.Keys && forall t :: t in m ==> r.articles[t].dailyRaw == m[t].dailyRaw
  {
  }

  lemma MergeAllCounts(articles: map<Title, Record>, today: Day, items: seq<RankedItem>, fetch: Fetch)
    ensures var m := MergeAll(articles, today, items, fetch);
            forall i :: LastWithTitle(items, i) ==>
              items[i].title in m && today in m[items[i].title].dailyRaw
              && m[items[i].title].dailyRaw[today] == items[i].views
    ensures var m := MergeAll(articles, today, items, fetch);
            forall t :: t in articles ==> t in m && articles[t].dailyRaw.Keys <= m[t].dailyRaw.Keys
  {
    var m := MergeAll(articles, today, items, fetch);
    MergeAllRaw(articles, today, items, fetch);
    forall i | LastWithTitle(items, i)
      ensures items[i].title in m && today in m[items[i].title].dailyRaw
      ensures m[items[i].title].dailyRaw[today] == items[i].views
    {
      LastViewsIsLastItem(items, i);
    }
  }

  /** After an update every ranked title holds the ranking's count for
      `today`, and every raw day an article had before is still there. */
  lemma UpdateRawCounts(s: Snapshot, today: Day, items: seq<RankedItem>, fetch: Fetch, pchip: Curve.Pchip)
    ensures var r := UpdateData(s, today, items, fetch, pchip);
            forall i :: LastWithTitle(items, i) ==>
              today in r.articles[items[i].title].dailyRaw
              && r.articles[items[i].title].dailyRaw[today] == items[i].views
    ensures RawKept(s, UpdateData(s, today, items, fetch, pchip))
  {
    UpdateKeepsRaw(s, today, items, fetch, pchip);
    MergeAllCounts(s.articles, today, items, fetch);
  }

  /** No article and no raw day of `s` is missing from `r`. */
  ghost predicate RawKept(s: Snapshot, r: Snapshot) {
    && r.articles.Keys >= s.articles.Keys
    && forall t :: t in s.articles ==> s.articles[t].dailyRaw.Keys <= r.articles[t].dailyRaw.Keys
  }

  /** An article missing from the ranking is refreshed only when it already
      holds yesterday's count and the fetch returned something. */
  lemma UpdateMaintenance(s: Snapshot, today: Day, items: seq<RankedItem>, fetch: Fetch, pchip: Curve.Pchip)
    ensures var r := UpdateData(s, today, items, fetch, pchip);
            forall t :: t in s.articles && t !in Titles(items) ==>
              r.articles[t].dailyRaw ==
                if today - 1 in s.articles[t].dailyRaw && |fetch(t, today - 1, today)| > 0
                then s.articles[t].dailyRaw + fetch(t, today - 1, today)
                else s.articles[t].dailyRaw
  {
    MergeAllRaw(s.articles, today, items, fetch);
  }

  /** After an update curves exist only for retained dates; the
      recalculation days that have raw counts carry fresh curves, and every
      other curve is the one the article had before. */
  lemma UpdateCurves(s: Snapshot, today: Day, items: seq<RankedItem>, fetch: Fetch, pchip: Curve.Pchip)
    ensures CurvesRefreshed(s, UpdateData(s, today, items, fetch, pchip), today, pchip)
  {
    var m := MergeAll(s.articles, today, items, fetch);
    var r := UpdateData(s, today, items, fetch, pchip);
    var keep := set d | d in r.dates;
    assert r.articles == RefreshAll(m, today, keep, pchip);
    MergeAllMinutes(s.articles, today, items, fetch);
    UpdateKeepsRaw(s, today, items, fetch, pchip);
  }

  /** How the curves of `r` relate to those of `s`: only retained dates
      carry curves; each recalculation day that has a count and is retained
      carries the freshly interpolated curve; every other curve is the
      article's old one. */
  ghost predicate CurvesRefreshed(s: Snapshot, r: Snapshot, today: Day, pchip: Curve.Pchip) {
    && (forall t, d :: t in r.articles && d in r.articles[t].minutes ==> d in r.dates)
    && (forall t, d :: t in r.articles && d in RecalcDays(today) && d in r.articles[t].dailyRaw && d in r.dates ==>
          d in r.articles[t].minutes
          && r.articles[t].minutes[d] == Curve.Interpolate(r.articles[t].dailyRaw, d, pchip))
    && (forall t, d :: (t in r.articles && d in r.articles[t].minutes
          && !(d in RecalcDays(today) && d in r.articles[t].dailyRaw)) ==>
          t in s.articles && d in s.articles[t].minutes
          && r.articles[t].minutes[d] == s.articles[t].minutes[d])
  }

  /** Merging raw counts never touches curves. */
  lemma MergeAllMinutes(articles: map<Title, Record>, today: Day, items: seq<RankedItem>, fetch: Fetch)
    ensures var m := MergeAll(articles, today, items, fetch);
            forall t :: t in m ==> m[t].minutes == Get(articles, t, EmptyRecord).minutes
  {
    MergeRankedMergesOnce(articles, items, today, fetch);
  }

  // ---------------------------------------------------------------------------
  // Snapshot invariant

  /** Every curve belongs to a retained date that has a raw count and spans
      one full day. */
  ghost predicate RecordOk(rec: Record, dates: seq<Day>) {
    forall d :: d in rec.minutes ==>
      d in dates && d in rec.dailyRaw && |rec.minutes[d]| == Curve.MinutesPerDay
  }

  ghost predicate SnapshotOk(s: Snapshot) {
    WindowOk(s.dates) && forall t :: t in s.articles ==> RecordOk(s.articles[t], s.dates)
  }

  /** An update keeps the snapshot invariant. */
  lemma UpdateKeepsSnapshotOk(s: Snapshot, today: Day, items: seq<RankedItem>, fetch: Fetch, pchip: Curve.Pchip)
    requires SnapshotOk(s)
    ensures SnapshotOk(UpdateData(s, today, items, fetch, pchip))
  {
    UpdateKeepsWindow(s, today, items, fetch, pchip);
    UpdateKeepsRecordsOk(s, today, items, fetch, pchip);
  }

  lemma UpdateKeepsWindow(s: Snapshot, today: Day, items: seq<RankedItem>, fetch: Fetch, pchip: Curve.Pchip)
    requires WindowOk(s.dates)
    ensures WindowOk(UpdateData(s, today, items, fetch, pchip).dates)
  {
    RegisterDateKeepsWindow(s.dates, today);
  }

  lemma UpdateKeepsRecordsOk(s: Snapshot, today: Day, items: seq<RankedItem>, fetch: Fetch, pchip: Curve.Pchip)
    requires SnapshotOk(s)
    ensures var r := UpdateData(s, today, items, fetch, pchip);
            forall t :: t in r.articles ==> RecordOk(r.articles[t], r.dates)
  {
    UpdateCurves(s, today, items, fetch, pchip);
    UpdateRawCounts(s, today, items, fetch, pchip);
    RecordsStayOk(s, UpdateData(s, today, items, fetch, pchip), today, pchip);
  }

  lemma RecordsStayOk(s: Snapshot, r: Snapshot, today: Day, pchip: Curve.Pchip)
    requires SnapshotOk(s) && RawKept(s, r) && CurvesRefreshed(s, r, today, pchip)
    ensures forall t :: t in r.articles ==> RecordOk(r.articles[t], r.dates)
  {
    forall t | t in r.articles
      ensures RecordOk(r.articles[t], r.dates)
    {
      forall d | d in r.articles[t].minutes
        ensures d in r.dates && d in r.articles[t].dailyRaw
        ensures |r.articles[t].minutes[d]| == Curve.MinutesPerDay
      {
        if !(d in RecalcDays(today) && d in r.articles[t].dailyRaw) {
          assert RecordOk(s.articles[t], s.dates);
        }
      }
    }
  }
}
