/** What one frame shows (`getValueAt` in docs/js/utils.js and the ranking
    in `renderCurrentState` of docs/js/render.js): the per-minute value of
    each article at the clock's position, and the ten largest positive
    values in descending order. Positions are whole minutes, as in capture
    mode. */
module FrameValues {
  import opened Sorting
  import Curve
  import History

  type Title = History.Title
  type RankedItem = History.RankedItem

  const BarCount: nat := 10

  /** The value at minute `minute` of the day at `dateIndex`, after carrying
      whole days of the minute into the index. Out-of-range days, missing
      articles and missing or empty curves show 0; a short curve repeats its
      last value. */
  function ValueAt(s: History.Snapshot, title: Title, dateIndex: int, minute: int): nat {
    var index := dateIndex + minute / Curve.MinutesPerDay;
    var m := minute % Curve.MinutesPerDay;
    if index < 0 || index >= |s.dates| then 0
    else if title !in s.articles || s.dates[index] !in s.articles[title].minutes then 0
    else
      var arr := s.articles[title].minutes[s.dates[index]];
      if |arr| == 0 then 0 else arr[if m < |arr| - 1 then m else |arr| - 1]
  }

  /** `getValueAt`: normalise the position by whole days with two loops,
      then look the minute up. */
  method GetValueAt(s: History.Snapshot, title: Title, dateIndex: int, minute: int) returns (v: nat)
    ensures v == ValueAt(s, title, dateIndex, minute)
  {
    var m := minute;
    var index := dateIndex;
    while m < 0
      invariant index + m / Curve.MinutesPerDay == dateIndex + minute / Curve.MinutesPerDay
      invariant m % Curve.MinutesPerDay == minute % Curve.MinutesPerDay
      decreases -m
    {
      ShiftMinute(m, 1);
      m := m + Curve.MinutesPerDay;
      index := index - 1;
    }
    while m >= Curve.MinutesPerDay
      invariant index + m / Curve.MinutesPerDay == dateIndex + minute / Curve.MinutesPerDay
      invariant m % Curve.MinutesPerDay == minute % Curve.MinutesPerDay
      invariant m >= 0
      decreases m
    {
      ShiftMinute(m, -1);
      m := m - Curve.MinutesPerDay;
      index := index + 1;
    }
    assert m / Curve.MinutesPerDay == 0 && m % Curve.MinutesPerDay == m;
    if index < 0 || index >= |s.dates| {
      return 0;
    }
    var d := s.dates[index];
    if title !in s.articles || d !in s.articles[title].minutes {
      return 0;
    }
    var arr := s.articles[title].minutes[d];
    if |arr| == 0 {
      return 0;
    }
    v := arr[if m < |arr| - 1 then m else |arr| - 1];
  }

  lemma ShiftMinute(m: int, k: int)
    ensures (m + k * Curve.MinutesPerDay) / Curve.MinutesPerDay == m / Curve.MinutesPerDay + k
    ensures (m + k * Curve.MinutesPerDay) % Curve.MinutesPerDay == m % Curve.MinutesPerDay
  {
  }

  /** A day's worth of minutes moves the position one day, in either
      direction. */
  lemma ValueAtShiftsByDay(s: History.Snapshot, title: Title, dateIndex: int, minute: int)
    ensures ValueAt(s, title, dateIndex, minute + Curve.MinutesPerDay) == ValueAt(s, title, dateIndex + 1, minute)
    ensures ValueAt(s, title, dateIndex, minute - Curve.MinutesPerDay) == ValueAt(s, title, dateIndex - 1, minute)
  {
    ShiftMinute(minute, 1);
    ShiftMinute(minute, -1);
  }

  /** On a well-formed snapshot, a position inside a stored day reads that
      day's curve directly. */
  lemma ValueAtReadsCurve(s: History.Snapshot, title: Title, j: nat, m: nat)
    requires j < |s.dates| && m < Curve.MinutesPerDay
    requires title in s.articles && s.dates[j] in s.articles[title].minutes
    requires |s.articles[title].minutes[s.dates[j]]| == Curve.MinutesPerDay
    ensures ValueAt(s, title, j, m) == s.articles[title].minutes[s.dates[j]][m]
  {
  }

  // ---------------------------------------------------------------------------
  // Ranking

  /** The titles (in key order) whose value is positive, with that value. */
  function Candidates(titles: seq<Title>, value: Title -> nat): (r: seq<RankedItem>)
    ensures |r| <= |titles|
    ensures forall x :: x in r <==> x.title in titles && x.views == value(x.title) && x.views > 0
  {
    if |titles| == 0 then []
    else
      var rest := Candidates(titles[1..], value);
      var v := value(titles[0]);
      (if v > 0 then [History.RankedItem(titles[0], v)] else []) + rest
  }

  /** No title is listed twice, as for the keys of an object. */
  ghost predicate DistinctTitles(titles: seq<Title>) {
    forall i, j :: 0 <= i < j < |titles| ==> titles[i] != titles[j]
  }

  /** The titles whose value is positive. */
  ghost function PositiveTitles(titles: seq<Title>, value: Title -> nat): set<Title> {
    set t | t in titles && value(t) > 0
  }

  /** Without repeated titles, there is one candidate per positive title. */
  lemma {:induction false} CandidatesCount(titles: seq<Title>, value: Title -> nat)
    requires DistinctTitles(titles)
    ensures |Candidates(titles, value)| == |PositiveTitles(titles, value)|
  {
    if |titles| > 0 {
      var rest := titles[1..];
      assert DistinctTitles(rest) by {
        forall i, j | 0 <= i < j < |rest| ensures rest[i] != rest[j] {
          assert rest[i] == titles[i + 1] && rest[j] == titles[j + 1];
        }
      }
      CandidatesCount(rest, value);
      assert titles[0] !in rest by {
        forall k | 0 <= k < |rest| ensures rest[k] != titles[0] {
          assert rest[k] == titles[k + 1];
        }
      }
      assert titles == [titles[0]] + rest;
      if value(titles[0]) > 0 {
        assert PositiveTitles(titles, value) == {titles[0]} + PositiveTitles(rest, value);
      } else {
        assert PositiveTitles(titles, value) == PositiveTitles(rest, value);
      }
    }
  }

  /** Descending by value. */
  function ByValueDesc(a: RankedItem, b: RankedItem): bool {
    a.views >= b.views
  }

  lemma ByValueDescIsTotalPreorder()
    ensures TotalPreorder(ByValueDesc)
  {
  }

  /** The bars of a frame: the candidates sorted by descending value, cut to
      `BarCount`. */
  function TopN(candidates: seq<RankedItem>): (r: seq<RankedItem>)
    ensures |r| == if |candidates| < BarCount then |candidates| else BarCount
    ensures forall i, j :: 0 <= i < j < |r| ==> r[i].views >= r[j].views
    ensures multiset(r) <= multiset(candidates)
    ensures forall x, y :: x in multiset(candidates) - multiset(r) && y in r ==> x.views <= y.views
  {
    ByValueDescIsTotalPreorder();
    var sorted := Sort(ByValueDesc, candidates);
    var n := if |sorted| < BarCount then |sorted| else BarCount;
    TopIsLargest(candidates, sorted, n);
    sorted[..n]
  }

  lemma TopIsLargest(candidates: seq<RankedItem>, sorted: seq<RankedItem>, n: nat)
    requires SortedBy(ByValueDesc, sorted) && n <= |sorted|
    requires multiset(sorted) == multiset(candidates)
    ensures forall i, j :: 0 <= i < j < n ==> sorted[..n][i].views >= sorted[..n][j].views
    ensures multiset(sorted[..n]) <= multiset(candidates)
    ensures forall x, y :: x in multiset(candidates) - multiset(sorted[..n]) && y in sorted[..n] ==> x.views <= y.views
  {
    forall i, j | 0 <= i < j < n
      ensures sorted[..n][i].views >= sorted[..n][j].views
    {
      assert ByValueDesc(sorted[i], sorted[j]);
    }
    assert sorted == sorted[..n] + sorted[n..];
    assert multiset(sorted) == multiset(sorted[..n]) + multiset(sorted[n..]);
    forall x, y | x in multiset(sorted) - multiset(sorted[..n]) && y in sorted[..n]
      ensures x.views <= y.views
    {
      assert x in sorted[n..];
      var k :| 0 <= k < |sorted[n..]| && sorted[n..][k] == x;
      var i :| 0 <= i < n && sorted[i] == y;
      assert ByValueDesc(sorted[i], sorted[n + k]);
    }
  }

  /** The scale of the frame: the largest shown value, and at least 1. */
  function FrameMaxVal(top: seq<RankedItem>): (m: nat)
    requires forall i, j :: 0 <= i < j < |top| ==> top[i].views >= top[j].views
    ensures m >= 1
    ensures forall x :: x in top ==> x.views <= m
    ensures |top| > 0 && top[0].views >= 1 ==> m == top[0].views
  {
    if |top| == 0 then 1 else if top[0].views > 1 then top[0].views else 1
  }

  /** The ranking of one frame: every shown bar has a positive value, no
      hidden article outranks a shown one, and, for distinct titles, the list
      is full whenever at least `BarCount` articles are positive. */
  lemma {:induction false} FrameRanking(titles: seq<Title>, value: Title -> nat)
    ensures var top := TopN(Candidates(titles, value));
            && (forall x :: x in top ==> x.views > 0 && x.title in titles && x.views == value(x.title))
            && (forall t, y :: t in titles && value(t) > 0 && y in top && History.RankedItem(t, value(t)) !in top ==> value(t) <= y.views)
    ensures DistinctTitles(titles) ==>
              var positive := |PositiveTitles(titles, value)|;
              |TopN(Candidates(titles, value))| == if positive < BarCount then positive else BarCount
  {
    if DistinctTitles(titles) {
      CandidatesCount(titles, value);
    }
    var cands := Candidates(titles, value);
    var top := TopN(cands);
    forall x | x in top
      ensures x.views > 0 && x.title in titles && x.views == value(x.title)
    {
      assert x in multiset(top);
    }
    forall t, y | t in titles && value(t) > 0 && y in top && History.RankedItem(t, value(t)) !in top
      ensures value(t) <= y.views
    {
      var x := History.RankedItem(t, value(t));
      assert x in cands;
      assert x in multiset(cands) - multiset(top);
    }
  }
}
