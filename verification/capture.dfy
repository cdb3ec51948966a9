/** The page's simulation clock in capture mode (docs/js/app.js and
    docs/js/render.js): a position is a day index into the snapshot's dates
    and a minute of that day; each captured frame advances one minute, and a
    chunk's recording is prepared by silently simulating its pre-roll. */
module Capture {
  import opened Wrappers
  import Curve
  import History

  type Day = Curve.Day

  const Fps: nat := 60
  const SecondsPerDay: nat := 24

  datatype Mode = Capture | Normal

  /** Simulated minutes per rendered frame: 1440 minutes per 24 seconds, one
      frame lasting 1/60 s, scaled by the playback speed outside capture. */
  function MinutesPerFrame(mode: Mode, playbackSpeed: real): (m: real)
    ensures mode == Capture ==> m == 1.0
    ensures mode == Normal ==> m == playbackSpeed
  {
    var baseSpeed := Curve.MinutesPerDay as real / SecondsPerDay as real;
    var dt := 1.0 / Fps as real;
    baseSpeed * dt * (if mode == Capture then 1.0 else playbackSpeed)
  }

  /** `currentDateIndex` and `currentMinute`; in capture mode the minute only
      ever moves in whole frames, so it stays an integer. */
  datatype SimState = SimState(dateIndex: int, minute: int)

  /** One day boundary crossed: the next day, wrapping past the last date. */
  function NextIndex(i: int, n: nat): (j: int)
    ensures 0 <= i < n ==> j == (i + 1) % n
  {
    if i + 1 >= n then 0 else i + 1
  }

  function NextIndexTimes(i: int, n: nat, k: nat): int
    decreases k
  {
    if k == 0 then i else NextIndexTimes(NextIndex(i, n), n, k - 1)
  }

  lemma {:induction false} NextIndexTimesAdd(i: int, n: nat, p: nat, q: nat)
    ensures NextIndexTimes(NextIndexTimes(i, n, p), n, q) == NextIndexTimes(i, n, p + q)
    decreases p
  {
    if p > 0 {
      NextIndexTimesAdd(NextIndex(i, n), n, p - 1, q);
    }
  }

  /** Crossing `k` day boundaries from a valid index lands `k` dates later,
      modulo the number of dates. */
  lemma {:induction false} NextIndexTimesMod(i: int, n: nat, k: nat)
    requires 0 <= i < n
    ensures NextIndexTimes(i, n, k) == (i + k) % n
    decreases k
  {
    if k > 0 {
      var j := NextIndex(i, n);
      NextIndexTimesMod(j, n, k - 1);
      assert j == (i + 1) % n;
      ModAddOne(i, n, k);
    }
  }

  lemma ModAddOne(i: int, n: nat, k: nat)
    requires 0 <= i < n && k > 0
    ensures ((i + 1) % n + (k - 1)) % n == (i + k) % n
  {
    if i + 1 == n {
      DivModUnique(i + 1, n, 1, 0);
      ModPlusModulus(k - 1, n);
      assert i + k == k - 1 + n;
    } else {
      DivModUnique(i + 1, n, 0, i + 1);
    }
  }

  lemma ModPlusModulus(x: int, n: int)
    requires n > 0
    ensures (x + n) % n == x % n
  {
    DivModUnique(x + n, n, x / n + 1, x % n);
  }

  /** Euclidean division is determined by quotient and remainder. */
  lemma DivModUnique(x: int, n: int, q: int, r: int)
    requires n > 0 && 0 <= r < n && x == q * n + r
    ensures x / n == q && x % n == r
  {
    var q', r' := x / n, x % n;
    assert (q - q') * n == r' - r;
    if q > q' {
      MulAtLeast(q - q', n);
    } else if q < q' {
      MulAtLeast(q' - q, n);
    }
  }

  lemma {:induction false} MulAtLeast(a: int, n: int)
    requires a >= 1 && n >= 0
    ensures a * n >= n
    decreases a
  {
    if a > 1 {
      MulAtLeast(a - 1, n);
      assert a * n == (a - 1) * n + n;
    }
  }

  /** The state after adding `delta` minutes, in closed form: minutes past
      the end of the day carry into the day index. Nothing moves without
      dates. */
  function AdvanceBy(s: SimState, n: nat, delta: nat): (r: SimState)
    ensures n == 0 ==> r == s
    ensures n > 0 && s.minute + delta >= 0 ==> 0 <= r.minute < Curve.MinutesPerDay
    ensures n > 0 && 0 <= s.dateIndex < n && s.minute + delta >= 0 ==>
              r.dateIndex == (s.dateIndex + (s.minute + delta) / Curve.MinutesPerDay) % n
              && 0 <= r.dateIndex < n
  {
    if n == 0 then s
    else
      var m := s.minute + delta;
      if m < Curve.MinutesPerDay then SimState(s.dateIndex, m)
      else
        var r := SimState(NextIndexTimes(s.dateIndex, n, m / Curve.MinutesPerDay), m % Curve.MinutesPerDay);
        NextIndexTimesModAt(s.dateIndex, n, m / Curve.MinutesPerDay);
        r
  }

  lemma NextIndexTimesModAt(i: int, n: nat, k: nat)
    ensures 0 <= i < n ==> NextIndexTimes(i, n, k) == (i + k) % n
  {
    if 0 <= i < n {
      NextIndexTimesMod(i, n, k);
    }
  }

  /** `advanceSimulation` by `delta` minutes: add, then subtract whole days
      one at a time, stepping the day index and wrapping it to 0. */
  method AdvanceSimulation(s: SimState, n: nat, delta: nat) returns (r: SimState)
    ensures r == AdvanceBy(s, n, delta)
  {
    if n == 0 {
      return s;
    }
    var minute := s.minute + delta;
    var index := s.dateIndex;
    ghost var wraps: nat := 0;
    while minute >= Curve.MinutesPerDay
      invariant minute + wraps * Curve.MinutesPerDay == s.minute + delta
      invariant wraps > 0 ==> minute >= 0
      invariant index == NextIndexTimes(s.dateIndex, n, wraps)
      decreases minute
    {
      minute := minute - Curve.MinutesPerDay;
      index := index + 1;
      if index >= n {
        index := 0;
      }
      NextIndexTimesAdd(s.dateIndex, n, wraps, 1);
      wraps := wraps + 1;
    }
    r := SimState(index, minute);
  }

  /** `advanceFrame`: one `advanceSimulation(1 / fps)` step, which in
      capture mode is one minute. */
  method AdvanceFrame(s: SimState, n: nat) returns (r: SimState)
    ensures r == AdvanceBy(s, n, 1)
  {
    var minutes := MinutesPerFrame(Capture, 1.0);
    assert minutes == 1.0;
    r := AdvanceSimulation(s, n, minutes.Floor);
  }

  /** The day index `renderCurrentState` shows: an index past the end
      starts over at the first date. */
  function ShownIndex(i: int, n: nat): (j: int)
    ensures 0 <= i ==> 0 <= j && (n > 0 ==> j < n)
    ensures i < n ==> j == i
    ensures n <= i ==> j == 0
  {
    if i >= n then 0 else i
  }

  /** After any advance from a state on a valid date, the index the frame
      shows is the simulation's own index: the reset never fires. */
  lemma ShownIndexAfterAdvance(s: SimState, n: nat, delta: nat)
    requires n > 0 && 0 <= s.dateIndex < n && s.minute >= 0
    ensures ShownIndex(AdvanceBy(s, n, delta).dateIndex, n) == AdvanceBy(s, n, delta).dateIndex
  {
  }

  lemma DivModOfDays(x: int, q: int, rem: int)
    requires x == q * Curve.MinutesPerDay + rem && 0 <= rem < Curve.MinutesPerDay
    ensures x / Curve.MinutesPerDay == q && x % Curve.MinutesPerDay == rem
  {
  }

  /** Advancing twice is advancing by the sum, from any non-negative minute:
      a frame-by-frame simulation equals one jump. */
  lemma AdvanceByAdd(s: SimState, n: nat, a: nat, b: nat)
    requires s.minute >= 0
    ensures AdvanceBy(AdvanceBy(s, n, a), n, b) == AdvanceBy(s, n, a + b)
  {
    if n > 0 {
      var m := s.minute + a;
      if m >= Curve.MinutesPerDay {
        var q := m / Curve.MinutesPerDay;
        var rem := m % Curve.MinutesPerDay;
        var t := rem + b;
        var q2 := t / Curve.MinutesPerDay;
        var r2 := t % Curve.MinutesPerDay;
        DivModOfDays(m + b, q + q2, r2);
        if t >= Curve.MinutesPerDay {
          NextIndexTimesAdd(s.dateIndex, n, q, q2);
        } else {
          assert q2 == 0;
        }
      } else if m + b >= Curve.MinutesPerDay {
      }
    }
  }

  /** `frames` captured frames, one minute each. */
  function Frames(s: SimState, n: nat, frames: nat): SimState
    decreases frames
  {
    if frames == 0 then s else AdvanceBy(Frames(s, n, frames - 1), n, 1)
  }

  lemma {:induction false} FramesIsOneJump(s: SimState, n: nat, frames: nat)
    requires 0 <= s.minute < Curve.MinutesPerDay
    ensures Frames(s, n, frames) == AdvanceBy(s, n, frames)
    decreases frames
  {
    if frames > 0 {
      FramesIsOneJump(s, n, frames - 1);
      AdvanceByAdd(s, n, frames - 1, 1);
    }
  }

  /** `Array.prototype.indexOf`: the first position of `d`, or -1. */
  function IndexOf(dates: seq<Day>, d: Day): (i: int)
    ensures -1 <= i < |dates|
    ensures i == -1 <==> d !in dates
    ensures i >= 0 ==> dates[i] == d && d !in dates[..i]
  {
    if |dates| == 0 then -1
    else if dates[0] == d then 0
    else
      var j := IndexOf(dates[1..], d);
      assert j >= 0 ==> dates[..j + 1] == [dates[0]] + dates[1..][..j];
      if j == -1 then -1 else j + 1
  }

  /** Where `initializeToFrame` starts simulating and for how many frames:
      `recordingStart - preRoll` minutes into the day, reaching back into
      the previous day when negative and that day is present, and otherwise
      starting at the day's midnight with nothing to simulate. */
  function InitialState(dates: seq<Day>, date: Day, prev: Option<Day>, recordingStart: int, preRoll: int): (r: (SimState, int))
    ensures var simStart := recordingStart - preRoll;
            var prevIndex := if prev.Some? then IndexOf(dates, prev.value) else -1;
            && (simStart >= 0 ==> r == (SimState(IndexOf(dates, date), simStart), preRoll))
            && (simStart < 0 && prevIndex != -1 ==>
                  r == (SimState(prevIndex, Curve.MinutesPerDay + simStart), preRoll))
            && (simStart < 0 && prevIndex == -1 ==> r == (SimState(IndexOf(dates, date), 0), 0))
  {
    var simStart := recordingStart - preRoll;
    var frames := recordingStart - simStart;
    if simStart < 0 then
      var prevIndex := if prev.Some? then IndexOf(dates, prev.value) else -1;
      if prevIndex != -1 then (SimState(prevIndex, Curve.MinutesPerDay + simStart), frames)
      else (SimState(IndexOf(dates, date), 0), 0)
    else (SimState(IndexOf(dates, date), simStart), frames)
  }

  /** `initializeToFrame`: place the clock, then simulate the pre-roll one
      frame at a time (a negative count simulates nothing). */
  method InitializeToFrame(dates: seq<Day>, date: Day, prev: Option<Day>, recordingStart: int, preRoll: int)
    returns (r: SimState)
    ensures var (s0, frames) := InitialState(dates, date, prev, recordingStart, preRoll);
            r == Frames(s0, |dates|, if frames < 0 then 0 else frames)
  {
    var (s0, frames) := InitialState(dates, date, prev, recordingStart, preRoll);
    r := s0;
    var i := 0;
    while i < frames
      invariant 0 <= i && (frames >= 0 ==> i <= frames) && (frames < 0 ==> i == 0)
      invariant r == Frames(s0, |dates|, i)
    {
      r := AdvanceSimulation(r, |dates|, 1);
      i := i + 1;
    }
  }

  /** Pre-roll continuity: with the day at position `j` and its previous day
      just before it, a recording starting at minute `start` (after a
      pre-roll of at most one day) begins exactly at that minute of that
      day, whether or not the pre-roll reaches into the previous day. */
  lemma {:induction false} PreRollLandsOnStart(dates: seq<Day>, j: nat, start: int, preRoll: nat)
    requires History.StrictlyIncreasing(dates)
    requires 0 < j < |dates|
    requires 0 <= start < Curve.MinutesPerDay && preRoll <= Curve.MinutesPerDay
    ensures var (s0, frames) := InitialState(dates, dates[j], Some(dates[j - 1]), start, preRoll);
            Frames(s0, |dates|, frames) == SimState(j, start)
  {
    IndexOfIncreasing(dates, j);
    IndexOfIncreasing(dates, j - 1);
    var (s0, frames) := InitialState(dates, dates[j], Some(dates[j - 1]), start, preRoll);
    FramesIsOneJump(s0, |dates|, frames);
    if start - preRoll < 0 {
      assert s0 == SimState(j - 1, Curve.MinutesPerDay + start - preRoll);
      DivModOfDays(Curve.MinutesPerDay + start, 1, start);
      assert NextIndexTimes(j - 1, |dates|, 1) == j;
    }
  }

  /** Without a previous day, a recording from midnight still begins at
      midnight of its own day. */
  lemma NoPreviousDayStartsAtMidnight(dates: seq<Day>, j: nat, preRoll: nat)
    requires History.StrictlyIncreasing(dates) && j < |dates|
    ensures var (s0, frames) := InitialState(dates, dates[j], None, 0, preRoll);
            Frames(s0, |dates|, frames) == SimState(j, 0)
  {
    IndexOfIncreasing(dates, j);
    var (s0, frames) := InitialState(dates, dates[j], None, 0, preRoll);
    FramesIsOneJump(s0, |dates|, frames);
  }

  lemma IndexOfIncreasing(dates: seq<Day>, j: nat)
    requires History.StrictlyIncreasing(dates) && j < |dates|
    ensures IndexOf(dates, dates[j]) == j
  {
  }

  /** After initialisation, the `t`-th captured frame of a chunk shows
      minute `start + t` of its day, for every frame before the day ends. */
  lemma CapturedFrameMinute(dates: seq<Day>, j: nat, start: int, t: nat)
    requires j < |dates| && 0 <= start && start + t < Curve.MinutesPerDay
    ensures Frames(SimState(j, start), |dates|, t) == SimState(j, start + t)
  {
    FramesIsOneJump(SimState(j, start), |dates|, t);
  }

  /** A chunk recording from minute `start` of the day at position `j`
      begins on that minute, with the previous day as pre-roll or without
      one; without one, only a chunk starting at midnight may reach back
      before its day. Both chunks of `RenderPlan.DayPlan` meet these
      conditions (`RenderPlan.DayPlanIsTwoHalves`). */
  lemma {:induction false} ChunkStartsOnTime(dates: seq<Day>, j: nat, prev: Option<Day>, start: int, preRoll: nat)
    requires History.StrictlyIncreasing(dates) && j < |dates|
    requires 0 <= start < Curve.MinutesPerDay && preRoll <= Curve.MinutesPerDay
    requires prev.None? || (j > 0 && prev == Some(dates[j - 1]))
    requires prev.None? && start < preRoll ==> start == 0
    ensures var (s0, frames) := InitialState(dates, dates[j], prev, start, preRoll);
            Frames(s0, |dates|, frames) == SimState(j, start)
  {
    if prev.Some? {
      PreRollLandsOnStart(dates, j, start, preRoll);
    } else if start < preRoll {
      NoPreviousDayStartsAtMidnight(dates, j, preRoll);
    } else {
      IndexOfIncreasing(dates, j);
      CapturedFrameMinute(dates, j, start - preRoll, preRoll);
    }
  }
}
