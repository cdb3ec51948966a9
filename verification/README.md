# Attention — a Dafny model of the daily Wikipedia top-10 video pipeline

Every day the Attention pipeline does the following:

- It fetches the top Wikipedia articles per language and filters out non-articles.
- It merges their daily view counts into a rolling 30-day history.
- It reconstructs a per-minute popularity curve for each day.
- It renders a 7-day bar-chart race video, one day per 1440-frame segment. Each segment is rendered as two chunks in a headless browser page driven frame by frame.
- It posts a tweet and appends the tweet link to the repository README.
- It cleans up old videos and old date directories.

This project models the deterministic core of that pipeline as pure Dafny functions and a few loop-based methods, and proves properties of it. Every outside effect is a parameter:

- the per-article daily-count request (`History.Fetch`);
- the PCHIP interpolator (`Curve.Pchip`, which may fail);
- the per-chunk renderer (`RenderPlan.Worker`), one per day when a week is rendered;
- the ffmpeg exit status;
- file existence;
- the HTTP response (`WikiApi.Response`);
- directory listings (`Cleanup.Entry`).

Dates are day numbers. The program compares `YYYY-MM-DD` strings, and their order is chronological order.

Modules:

- `Wrappers`: the option type, map lookup with a default, and Python's `s[:stop]`.
- `Sorting`: the sort the program relies on, plus Python's string order.
- `Text` and `NumberFormat`: the string helpers and `format_number`.
- `Curve`: `interpolate_curve_for_date`.
- `History`: `update_data`, which covers the rolling date window, the raw-count merge, maintenance fetches, curve recomputation and pruning.
- `RenderPlan`: the chunk split and the bounded retry of `render_day_segment_parallel`.
- `Schedule`: the seven-day loop of `render_video`.
- `Capture`: the page's capture-mode clock (`initializeToFrame`, `advanceFrame`, `advanceSimulation`).
- `FrameValues`: `getValueAt` and the top-10 selection of `renderCurrentState`.
- `Cleanup`: `cleanup_video_directories` and `cleanup_old_videos`.
- `WikiApi`: the filtering in `get_top_articles`, and `generate_chart_link`.
- `Tweet`: `construct_tweet` and `update_readme`.

## Model

| member | source | states |
|---|---|---|
| Wrappers.PyPrefix | src/utils.py:82-83 | Python's `s[:stop]`: a prefix of `s`. A non-negative stop is clamped to the length. A negative stop drops that many items from the end (nothing is left if it exceeds the length), so `s[:-0]` is empty. |
| Sorting.Sort | src/animator.py:119-120 | For any total preorder, the result is sorted and is a permutation of the input (same multiset, same length). |
| Sorting.LexLeIsTotalPreorder | src/utils.py:79 | Python's code-point string comparison is total and transitive, so names can be sorted with it. |
| Sorting.LexAntisymmetric | src/utils.py:79 | Two strings that are each ordered no later than the other are equal. |
| Text.DigitsRoundTrip | src/utils.py:14-16 | Reading back the decimal digits of `n` gives `n`. The digits have no leading zero. |
| Text.SplitJoin | src/wiki_api.py:135 | Splitting a join on the separator gives the parts back, when no part contains the separator. |
| Text.AfterLast | src/utils.py:55-56 | `s.split(c)[-1]` is a suffix of `s` without `c`. When shorter than `s`, it is preceded by `c`. |
| Text.ContainsExtended | src/main.py:69 | Text contained in a string is still contained after appending to it. |
| NumberFormat.Group | src/utils.py:14-16 | Grouped digits carry a comma exactly at every fourth position from the right (never first), and have `(n-1)/3` commas. Deleting the commas gives the digits back. |
| NumberFormat.FormatNumber | src/utils.py:14-16 | Deleting the commas gives `str(num)`. The digits of `abs(num)` are grouped in threes from the right, with a leading "-" for negatives. |
| Curve.Anchors | src/animator.py:90-97 | There are five anchors at x = (i+1)·24 for days target-2..target+2. A present day gives its raw count. A missing earlier day gives 0. A missing target or later day gives the target's count, or 0. |
| Curve.SumZeroIffAllZero | src/animator.py:99-100 | The anchor sum is zero exactly when every anchor is zero. |
| Curve.SamplePoint | src/animator.py:104 | Sample k of `linspace(0, 24, 1440, endpoint=False)` is k/60, which lies in [0, 24). |
| Curve.ClampTruncate | src/animator.py:106 | `int(max(0, y))`: 0 for non-positive y, otherwise the floor of y. |
| Curve.Interpolate | src/animator.py:83-108 | The curve always has 1440 non-negative entries. All-zero anchors give all zeros. A failing interpolator gives 1440 copies of the target anchor. Otherwise entry k is the clamped, truncated interpolant at k/60, over the span from the day-before anchor to the target anchor. |
| Curve.InterpolateIsLocal | src/animator.py:90-97 | Two count maps that agree on target-2..target+2 yield the same curve. |
| History.Newest | src/animator.py:121-122 | `dates[-30:]` keeps the last min(n, 30) dates, and they are a suffix. |
| History.RegisterDate | src/animator.py:118-122 | A present date leaves the list unchanged. A new date gives a sorted list of length min(n+1, 30), drawn from the old dates plus the new one (all of them while under 30). Every evicted date is no later than every kept one. |
| History.EvictedAreOldest | src/animator.py:120-122 | Keeping the suffix of a sorted list drops only elements no later than every kept one. |
| History.RegisterDateKeepsWindow | src/animator.py:118-122 | The window invariant (strictly increasing, at most 30 dates) is preserved. The new date is present when there was room. Nothing else appears. |
| History.LastViewsIsLastItem | src/animator.py:137-143 | For a title ranked twice, the count that stays is that of its last entry. |
| History.MergedTwice | src/animator.py:141-143 | Merging the same fetch twice for one day equals merging it once with the later count. |
| History.MergeRanked | src/animator.py:137-143 | Every ranked title gets a record. Unranked records are untouched. |
| History.MergeRankedMergesOnce | src/animator.py:137-143 | The ranked loop in closed form. Each ranked title's record is its old record (or an empty one), updated with the fetch for today-3..today and then today's count from its last ranking entry. |
| History.MergeRankedCounts | src/animator.py:137-143 | Each ranked title's `daily_raw[today]` is the views of its last entry. Fetched days overwrite older values. Other days keep their values, and no raw key is removed. |
| History.MaintenanceTitles | src/animator.py:124-131 | A title is maintained exactly when it is stored, not ranked, and already holds yesterday's count. |
| History.Maintain | src/animator.py:145-148 | The maintenance loop keeps every key and every curve. It changes only maintained titles whose fetch for yesterday..today is non-empty, merging that fetch into their counts. |
| History.Refresh | src/animator.py:150-162 | Counts are untouched. Curves of recalculation days that have counts and are retained are recomputed. Every other curve is an old one. Only retained dates keep curves, and retained old curves survive. |
| History.UpdateData | src/animator.py:111-165 | The dates become the registered window. The articles are the old ones plus every ranked title. |
| History.MergeAllRaw | src/animator.py:124-148 | After both fetch loops, ranked titles hold the closed-form merge. Unranked titles change their counts only when maintained with a non-empty fetch, and keep their curves. |
| History.UpdateRawCounts | src/animator.py:137-143 | After `update_data`, every ranked title has `daily_raw[today]` equal to its ranking count, and no article loses a raw day. |
| History.UpdateMaintenance | src/animator.py:145-148 | After `update_data`, an unranked article's counts change only if it held yesterday's count and the fetch was non-empty. |
| History.UpdateCurves | src/animator.py:150-162 | After `update_data`, curve dates are a subset of `dates`. Each of today-2..today that has a count and is retained carries the freshly interpolated curve. Every other curve is the article's old one. |
| History.UpdateKeepsSnapshotOk | src/animator.py:111-165 | `update_data` preserves the snapshot invariant: a valid window, and each curve is 1440 long on a retained date that has a count. |
| RenderPlan.PreRollFrames | src/animator.py:260 | `int(chunk * factor)` is the floor of the product. |
| RenderPlan.ChunkPlan | src/animator.py:258-273 | There are `workers` tasks. Task i starts at i·c with c = total // workers. All but the last end at (i+1)·c, and the last ends at `total`. Every task has the same pre-roll. |
| RenderPlan.DayPlanIsTwoHalves | src/animator.py:258-273 | With 1440 frames, 2 workers and factor 1.0, the plan is [0,720) and [720,1440), each with a 720-frame pre-roll. |
| RenderPlan.ChunkPlanTiles | src/animator.py:267-271 | The chunks start at 0, end at `total`, are contiguous, and never run backwards. |
| RenderPlan.TilesPartition | src/animator.py:267-271 | Tiling chunks put every frame of [0, total) in exactly one chunk. |
| RenderPlan.FailedMembers | src/animator.py:286-297 | A round's failures are exactly the submitted tasks the worker rejects in that attempt. |
| RenderPlan.RoundsShape | src/animator.py:275-300 | The first round submits all tasks. Each later round resubmits exactly the previous round's (non-empty) failures. Rounds stop at the first round without failures or at attempt 3. |
| RenderPlan.RenderDaySegment | src/animator.py:275-323 | The loop's rounds equal the functional rounds: at most 3, with retries of failures only. Concatenation happens iff some round had no failure. The temp directory is removed, and the result is true, iff additionally the concat exit code is 0. |
| RenderPlan.TransientFailureRecovers | src/animator.py:280-300 | A single chunk failing once and then succeeding is resubmitted alone, and the day succeeds in two rounds. |
| RenderPlan.PermanentFailureFails | src/animator.py:302-304 | A chunk failing every attempt exhausts all three rounds, and the day fails. |
| Schedule.DatesToRender | src/animator.py:407 | Seven consecutive days ending at the report day, in strictly increasing order. |
| Schedule.PrevDay | src/animator.py:411-419 | The pre-roll day is always the day before. For the first day it is chosen only when that day is in the history. |
| Schedule.Decide | src/animator.py:424-441 | Skip iff the day is not in the history. Skip for pre-roll iff the day must be rendered and its chosen pre-roll day is missing. Render with that pre-roll day when forced. Otherwise reuse the cached segment of a day older than report-2. |
| Schedule.SegmentsUpTo | src/animator.py:410-441 | A day contributes a segment iff it was not skipped and its file exists afterwards. Segments are in strictly increasing day order. |
| Schedule.RenderVideo | src/animator.py:402-463 | The loop collects exactly those segments, rendering each forced day with `RenderPlan.RenderDaySegment`. There is no result for an empty history, no segments, or a failed final concatenation. |
| Schedule.FirstDayNeverSkippedForPreRoll | src/animator.py:413-430 | The first day is never skipped for a missing pre-roll day. |
| Schedule.MissingPreviousDaySkips | src/animator.py:428-430 | A forced later day whose previous day has no data is skipped and yields no segment. |
| Schedule.RecentDaysAlwaysRendered | src/animator.py:424 | The last three days, with data and pre-roll, are re-rendered even when cached. |
| Schedule.OldCachedDaysReused | src/animator.py:424-441 | An older cached day with data is reused and contributes its segment. |
| Schedule.RecentDayKeptIffRendered | src/animator.py:424-441 | One of the last three days, with data and pre-roll, is in the week iff the day renderer succeeds (every task within three attempts and concatenation exit 0) or an old segment file exists. |
| Capture.MinutesPerFrame | docs/js/render.js:18-20 | A frame advances 1440/24 · 1/60 · speed minutes. In capture mode that is exactly 1, whatever the playback speed. |
| Capture.NextIndexTimesMod | docs/js/render.js:22-26 | Crossing k day boundaries from a valid index lands at (index + k) mod n. |
| Capture.AdvanceBy | docs/js/render.js:15-28 | With no dates nothing changes. Otherwise the minute ends in [0, 1440), and a valid index moves by the whole days carried, wrapping modulo n. |
| Capture.AdvanceSimulation | docs/js/render.js:15-28 | The subtract-and-step loop computes exactly the closed-form advance. |
| Capture.AdvanceFrame | docs/js/app.js:67-69 | `advanceFrame` is one capture-mode step of one minute. |
| Capture.ShownIndex | docs/js/render.js:33 | An index past the end is shown as 0 and an index in range is shown unchanged, so a non-negative index is shown in range. |
| Capture.ShownIndexAfterAdvance | docs/js/render.js:22-33 | After any advance from a valid date the reset does not fire: the date shown is the simulation's own date. |
| Capture.AdvanceByAdd | docs/js/render.js:20-26 | Advancing by a and then by b equals advancing by a + b, from any non-negative minute. |
| Capture.FramesIsOneJump | docs/js/app.js:58-61 | Simulating k one-minute frames equals one advance by k minutes. |
| Capture.IndexOf | docs/js/app.js:40 | `indexOf` is the first position of the date, or -1 exactly when it is absent. |
| Capture.InitialState | docs/js/app.js:33-56 | If start - preRoll ≥ 0: start at (index of date, start - preRoll) and simulate preRoll frames. If negative with the previous date present: start at (index of previous date, 1440 + start - preRoll). If negative with it absent: start at (index of date, 0) with 0 frames. |
| Capture.InitializeToFrame | docs/js/app.js:33-62 | The method ends at the initial state advanced by the non-negative frame count. |
| Capture.PreRollLandsOnStart | docs/js/app.js:30-61 | When the previous date sits right before the date and preRoll ≤ 1440, initialisation ends exactly at (index of date, start). |
| Capture.NoPreviousDayStartsAtMidnight | docs/js/app.js:48-52 | Without a previous date, a recording from minute 0 starts at (index of date, 0). |
| Capture.CapturedFrameMinute | docs/js/app.js:67-69 | The t-th captured frame of a chunk shows minute start + t of its day, up to the end of the day. |
| Capture.ChunkStartsOnTime | docs/js/app.js:33-62 | Every chunk recording begins at its start minute of its day, with or without a previous day. Without one, only a chunk starting at midnight may reach back. |
| FrameValues.GetValueAt | docs/js/utils.js:5-16 | The two loops normalise the position exactly as Euclidean division by 1440 does. The value is 0 out of range or when the article or curve is missing or empty. Otherwise the index is clamped to the last entry. |
| FrameValues.ValueAtShiftsByDay | docs/js/utils.js:6-8 | Adding or subtracting 1440 minutes equals moving the day index by one in the same direction. |
| FrameValues.ValueAtReadsCurve | docs/js/utils.js:10-15 | Inside a stored full-day curve, the value is that curve's entry at the minute. |
| FrameValues.Candidates | docs/js/render.js:44-51 | Candidates are exactly the titles with a positive value, paired with that value. |
| FrameValues.TopN | docs/js/render.js:53-54 | The result has min(10, n) entries in non-increasing order, drawn from the candidates. Every candidate left out is no larger than every one kept. |
| FrameValues.FrameMaxVal | docs/js/render.js:55 | The scale is at least 1 and at least every shown value. It equals the top value when that is at least 1. |
| FrameValues.CandidatesCount | docs/js/render.js:44-51 | With distinct titles there is exactly one candidate per title with a positive value. |
| FrameValues.FrameRanking | docs/js/render.js:44-55 | Every bar shown has a positive value that is its title's value. No positive title left out outranks a shown bar. With distinct titles, as the keys of an object are, the frame shows min(10, number of positive titles) bars. |
| Cleanup.SubdirsMembers | src/utils.py:77 | The names kept are exactly those of directory entries. |
| Cleanup.DirsToRemove | src/utils.py:68-88 | Nothing is removed without the video directory. With n sorted names and n > keep > 0, the first n - keep are removed, and they sort before all kept ones. With n ≤ keep or keep = 0, nothing is removed. |
| Cleanup.TempTakesARetentionSlot | src/utils.py:77-83 | With the `temp` directory beside date directories, `temp` sorts last and is never removed, so only keep - 1 date directories survive. |
| Cleanup.OnlyDateDirectoryRemoved | src/utils.py:77-83 | One date directory plus `temp` with keep = 1: the date directory is deleted. |
| Cleanup.DateDirsToRemove | src/utils.py:68-70 | In the corrected retention, only `YYYY-MM-DD` directories are ever removed. |
| Cleanup.CorrectedKeepsDateCount | src/utils.py:68-88 | In the corrected retention, exactly `keep` date directories remain when there are more, the oldest go first, and `temp` is never removed. |
| Cleanup.Basename | src/utils.py:54 | `basename` is a suffix of the path without '/'. |
| Cleanup.Removals | src/utils.py:60-64 | A path is removed iff it joins the directory with a listed regular file that ends with the suffix, and differs from the current path. |
| Cleanup.OldVideosToRemove | src/utils.py:49-66 | Nothing happens for an empty path or a file name without '_'. The current path is never removed. Only files ending in the text after the last '_' are removed, and all such other files are removed when the path has a directory part. |
| Cleanup.SplitJoinPath | src/utils.py:53-62 | For `<dir>/<name>`, dirname and basename give the parts back, and joining them rebuilds the path. So the current file's own entry is the one skipped. |
| WikiApi.StartsWithAnyMeans | src/wiki_api.py:102 | `startswith` with a tuple holds iff some prefix in it matches. |
| WikiApi.CleanedMembers | src/wiki_api.py:96-105 | Cleaned entries are exactly the response entries the filter does not ignore. |
| WikiApi.FilterTopArticles | src/wiki_api.py:96-110 | The early-exit loop returns the first min(10, n) cleaned entries. |
| WikiApi.GetTopArticles | src/wiki_api.py:86-113 | A 404, any other 4xx/5xx, a failed request or a malformed body give []. Otherwise the result is the first ten cleaned articles. |
| WikiApi.CleanedIsSubsequence | src/wiki_api.py:96-105 | Cleaning keeps response order: the result is a subsequence of the response. |
| WikiApi.TopArticlesProperties | src/wiki_api.py:96-110 | The reported list is an order-preserving subsequence of at most 10 entries. No entry's title is in the exact-title list or starts with an ignored namespace prefix. |
| WikiApi.LinkSubset | src/wiki_api.py:123 | The first `top_n` articles when `top_n` is truthy, otherwise all of them. Always a prefix. |
| WikiApi.ChartLink | src/wiki_api.py:115-137 | `None` iff there are no articles. Otherwise the link spans the 60 days up to the end date, with fixed platform, agent and redirects. |
| WikiApi.ChartPagesRoundTrip | src/wiki_api.py:123-135 | The `pages` parameter splits on '\|' back into exactly the chosen titles. |
| Tweet.TitleLimit | src/main.py:34 | The limit is 17 for zh and ja and 35 otherwise. |
| Tweet.DisplayTitle | src/main.py:31-38 | Underscores become spaces and the length never exceeds the limit. A longer title keeps its first limit - 1 characters and ends with "…". |
| Tweet.RankLines | src/main.py:29-41 | There are min(3, n) lines, the i-th numbered i + 1, in input order. |
| Tweet.ConstructTweet | src/main.py:22-52 | `None` iff there are no articles. Otherwise the tweet starts with the flag, header and date, and ends with the chart link and project link. The newline-joined ranked lines sit right after the header's blank line and right before the "📊" chart heading. |
| Tweet.RankLinesRoundTrip | src/main.py:43 | The ranked block splits back into its lines. |
| Tweet.TweetRankLines | src/main.py:27-52 | Cutting the tweet between its header and the chart heading and splitting on line breaks gives back the ranked lines of the first min(3, n) articles, in order. |
| Tweet.Separator | src/main.py:74-77 | The header block is added iff the header is absent. Otherwise only a single line break is added, and only when the content does not already end with one. |
| Tweet.UpdateReadme | src/main.py:55-81 | Nothing is written without a README or when the link is already present. Otherwise the separator and the `#### <date>: <link>` line are appended. |
| Tweet.UpdateReadmeIdempotent | src/main.py:69-78 | A second update with the same tweet changes nothing. |
| Tweet.UpdateReadmeLayout | src/main.py:73-78 | After a write, the README contains the "## Tweet List" header, and the new entry starts on its own line. |

## Left out

- Network and file I/O are parameters or inputs, not modelled:
  - HTTP requests (`fetch_raw_daily_batch`, the top-articles request, site-view scaling);
  - JSON loading and saving of the history;
  - reading and writing README.md;
  - `os.listdir`, `os.remove`, `shutil.rmtree`.
- The per-chunk renderer (`_render_chunk_worker`) is not modelled. It drives a browser and pipes frames to ffmpeg, so it is an oracle per attempt and task.
- ffmpeg and ffprobe calls, and `add_background_music`, are not modelled. They are subprocesses with random offsets, so the concatenation is reduced to its exit status or to whether its output exists.
- Parallelism of chunk rendering and the `as_completed` order are not modelled. The failures of a round are taken in submission order, and the next round's order does not affect the result.
- The PCHIP interpolant (scipy, floating point) is an uninterpreted function that may fail. Its shape properties are not modelled.
- URL encoding of the chart-link query is not modelled: the parameters are kept as a record.
- The tweet header's flag and header text come from configuration as given.
- `calculateTrend`, colours, bar easing and DOM updates in render.js are not modelled. They are floating-point presentation.
- In normal playback the minute is a float. Only capture mode, with exactly one minute per frame, is modelled, so `Math.floor` of the minute is the identity.
- Capture.MinutesPerFrame: computed on exact reals. In capture mode the product 60 · (1/60) is taken to be exactly 1, not its IEEE rounding.
- Schedule.Kept: a segment whose re-render failed is counted when an older file already existed at that path. This follows the existence check after the render. A failed render that left a partial file is not modelled.
- FrameValues.TopN: the order among equal values is not pinned down. The page's comparator sorts stably, but the model states only the non-increasing order and which values can be shown.
- Cleanup.OldVideosToRemove: paths are compared as text, as in the program. The same file reached through a different spelling (such as a doubled '/') is not recognised as the current file.
- `main()`, `capture_screenshots`, the Twitter client, docs/js/ui.js, docs/js/state.js and docs/js/data_loader.js are not part of this model. They are orchestration, browser automation and UI.

## Findings

| source | as written | input that shows it | evidently intended | confidence | as-written member | corrected member |
|---|---|---|---|---|---|---|
| src/utils.py:77-83 | Every subdirectory of the video directory competes for the `keep_count` places, including the renderer's persistent `temp` directory. `temp` sorts after every `YYYY-MM-DD` name. | Directories `2024-05-01` and `temp` with keep = 1: the only date directory is deleted. With the program's keep = 15 and 16 or more date directories, only 14 survive. | Keep the newest `keep_count` date directories, as the function's doc comment and the caller's comment ("keep the last 15 days") say. | medium, not executed | Cleanup.TempTakesARetentionSlot, Cleanup.OnlyDateDirectoryRemoved | Cleanup.DateDirsToRemove, Cleanup.CorrectedKeepsDateCount |
