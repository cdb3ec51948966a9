/** The seven-day schedule of `render_video` in src/animator.py: which days
    are rendered, which reuse a cached segment, which are skipped, and which
    segments end up in the final concatenation. File existence and the
    final concatenation are oracles; a day is rendered by
    `RenderPlan.RenderDaySegment`, whose workers and concatenation exit
    code are oracles per day. */
module Schedule {
  import opened Wrappers
  import RenderPlan

  type Day = int

  /** Days in one video: the report day and the six before it. */
  const DaysPerVideo: nat := 7
  /** The last `FreshDays` days are always re-rendered. */
  const FreshDays: nat := 3

  /** The day at position `i` of the week ending on `report`. */
  function DayAt(report: Day, i: nat): Day {
    report - (DaysPerVideo - 1) + i
  }

  function DatesToRender(report: Day): (ds: seq<Day>)
    ensures |ds| == DaysPerVideo && ds[DaysPerVideo - 1] == report
    ensures forall i :: 0 <= i < |ds| ==> ds[i] == DayAt(report, i)
    ensures forall i, j :: 0 <= i < j < |ds| ==> ds[i] < ds[j]
  {
    seq(DaysPerVideo, i requires 0 <= i < DaysPerVideo => DayAt(report, i))
  }

  /** The pre-roll day: the previous day of the week, or for the first day
      the day before it when the history has it. */
  function PrevDay(report: Day, i: nat, history: seq<Day>): (p: Option<Day>)
    ensures p.Some? ==> p.value == DayAt(report, i) - 1
    ensures p.None? <==> i == 0 && DayAt(report, 0) - 1 !in history
  {
    if i > 0 then Some(DayAt(report, i - 1))
    else if DayAt(report, 0) - 1 in history then Some(DayAt(report, 0) - 1)
    else None
  }

  /** Recent days are always rendered; older ones only without a cached
      segment. */
  function ForceRender(report: Day, d: Day, cached: bool): bool {
    d >= report - (FreshDays - 1) || !cached
  }

  datatype Action = SkipNoData | SkipNoPreRoll | Render(prev: Option<Day>) | UseCached

  function Decide(report: Day, i: nat, history: seq<Day>, cached: Day -> bool): (a: Action)
    ensures a == SkipNoData <==> DayAt(report, i) !in history
    ensures a == SkipNoPreRoll <==>
              && DayAt(report, i) in history
              && ForceRender(report, DayAt(report, i), cached(DayAt(report, i)))
              && PrevDay(report, i, history).Some? && PrevDay(report, i, history).value !in history
    ensures a.Render? ==> a.prev == PrevDay(report, i, history)
    ensures a == UseCached ==> cached(DayAt(report, i)) && DayAt(report, i) < report - (FreshDays - 1)
  {
    var d := DayAt(report, i);
    var prev := PrevDay(report, i, history);
    var force := ForceRender(report, d, cached(d));
    if d !in history then SkipNoData
    else if force && prev.Some? && prev.value !in history then SkipNoPreRoll
    else if force then Render(prev)
    else UseCached
  }

  /** Whether the day's segment file exists after its step: a fresh render
      that succeeded, or a file that was already there. */
  function Kept(report: Day, i: nat, history: seq<Day>, cached: Day -> bool, renderOk: Day -> bool): bool {
    var d := DayAt(report, i);
    match Decide(report, i, history, cached)
    case SkipNoData => false
    case SkipNoPreRoll => false
    case Render(_) => renderOk(d) || cached(d)
    case UseCached => true
  }

  /** The segments collected from the first `n` days, in order. */
  function SegmentsUpTo(report: Day, history: seq<Day>, cached: Day -> bool, renderOk: Day -> bool, n: nat): (segs: seq<Day>)
    requires n <= DaysPerVideo
    ensures forall d :: d in segs <==>
              DayAt(report, 0) <= d < DayAt(report, n) && Kept(report, d - DayAt(report, 0), history, cached, renderOk)
    ensures forall j, k :: 0 <= j < k < |segs| ==> segs[j] < segs[k]
  {
    if n == 0 then []
    else
      var prefix := SegmentsUpTo(report, history, cached, renderOk, n - 1);
      assert forall j :: 0 <= j < |prefix| ==> prefix[j] in prefix;
      prefix + (if Kept(report, n - 1, history, cached, renderOk) then [DayAt(report, n - 1)] else [])
  }

  /** Whether `render_day_segment_parallel` succeeds on day `d`, given the
      outcome of each worker attempt and the exit code of the day's
      concatenation. */
  function DayRenderOk(ok: Day -> RenderPlan.Worker, concatExit: Day -> int): Day -> bool {
    d => RenderPlan.AllSucceed(RenderPlan.DayPlan(), ok(d)) && concatExit(d) == 0
  }

  /** The segment list of a week, or `None` when there is no history, no
      segment, or the concatenation produced no file (`concatOk`). Each day
      that must be rendered goes through the day renderer with its worker
      outcomes `ok(d)` and concatenation exit code `concatExit(d)`. */
  method RenderVideo(report: Day, history: seq<Day>, cached: Day -> bool,
                     ok: Day -> RenderPlan.Worker, concatExit: Day -> int, concatOk: bool)
    returns (r: Option<seq<Day>>)
    ensures r.Some? <==> |history| > 0 && concatOk
                         && SegmentsUpTo(report, history, cached, DayRenderOk(ok, concatExit), DaysPerVideo) != []
    ensures r.Some? ==> r.value == SegmentsUpTo(report, history, cached, DayRenderOk(ok, concatExit), DaysPerVideo)
  {
    if |history| == 0 {
      return None;
    }
    var dates := DatesToRender(report);
    var segments: seq<Day> := [];
    var i := 0;
    while i < |dates|
      invariant 0 <= i <= |dates|
      invariant segments == SegmentsUpTo(report, history, cached, DayRenderOk(ok, concatExit), i)
    {
      var d := dates[i];
      var action := Decide(report, i, history, cached);
      var present := false;
      match action {
        case SkipNoData =>
        case SkipNoPreRoll =>
        case Render(_) =>
          var day := RenderPlan.RenderDaySegment(RenderPlan.DayPlan(), ok(d), concatExit(d));
          present := day.success || cached(d);
        case UseCached =>
          present := true;
      }
      if present {
        segments := segments + [d];
      }
      i := i + 1;
    }
    if segments == [] || !concatOk {
      return None;
    }
    r := Some(segments);
  }

  /** The first day never lacks its pre-roll: its pre-roll day is only
      chosen when the history has it. */
  lemma FirstDayNeverSkippedForPreRoll(report: Day, history: seq<Day>, cached: Day -> bool)
    ensures Decide(report, 0, history, cached) != SkipNoPreRoll
  {
  }

  /** A later day whose previous day has no data is skipped when it has to
      be rendered, even though it has data of its own. */
  lemma MissingPreviousDaySkips(report: Day, i: nat, history: seq<Day>, cached: Day -> bool)
    requires 0 < i < DaysPerVideo
    requires DayAt(report, i) in history && DayAt(report, i - 1) !in history
    requires DayAt(report, i) >= report - (FreshDays - 1)
    ensures Decide(report, i, history, cached) == SkipNoPreRoll
    ensures !Kept(report, i, history, cached, (d: Day) => true)
  {
  }

  /** The three most recent days with data and pre-roll are re-rendered even
      when a cached segment exists. */
  lemma RecentDaysAlwaysRendered(report: Day, i: nat, history: seq<Day>, cached: Day -> bool)
    requires DaysPerVideo - FreshDays <= i < DaysPerVideo
    requires DayAt(report, i) in history && DayAt(report, i - 1) in history
    ensures Decide(report, i, history, cached) == Render(Some(DayAt(report, i) - 1))
  {
  }

  /** Older days with data and a cached segment are never re-rendered and
      always contribute their segment. */
  lemma OldCachedDaysReused(report: Day, i: nat, history: seq<Day>, cached: Day -> bool, renderOk: Day -> bool)
    requires i < DaysPerVideo - FreshDays
    requires DayAt(report, i) in history && cached(DayAt(report, i))
    ensures Decide(report, i, history, cached) == UseCached
    ensures DayAt(report, i) in SegmentsUpTo(report, history, cached, renderOk, DaysPerVideo)
  {
  }

  /** A recent day with data and pre-roll data is in the week exactly when
      its render succeeds or an older segment file is still there. */
  lemma RecentDayKeptIffRendered(report: Day, i: nat, history: seq<Day>, cached: Day -> bool,
                                 ok: Day -> RenderPlan.Worker, concatExit: Day -> int)
    requires DaysPerVideo - FreshDays <= i < DaysPerVideo
    requires DayAt(report, i) in history && DayAt(report, i - 1) in history
    ensures var d := DayAt(report, i);
            d in SegmentsUpTo(report, history, cached, DayRenderOk(ok, concatExit), DaysPerVideo) <==>
              (RenderPlan.AllSucceed(RenderPlan.DayPlan(), ok(d)) && concatExit(d) == 0) || cached(d)
  {
    RecentDaysAlwaysRendered(report, i, history, cached);
  }
}
