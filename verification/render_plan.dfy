/** Render planning for one day (`render_day_segment_parallel` in
    src/animator.py): the day's frames are split into chunks, the chunks are
    rendered in rounds with a bounded number of retries, and the chunk files
    are concatenated. The per-chunk worker and the concatenation command are
    oracles. */
module RenderPlan {

  const Fps: nat := 60
  const SecondsPerDay: nat := 24
  /** One frame per simulated minute: 60 fps times 24 seconds. */
  const TotalFramesPerDay: nat := Fps * SecondsPerDay
  const Workers: nat := 2
  /** Pre-roll length as a fraction of one chunk. */
  const PreRollFactor: real := 1.0
  const MaxAttempts: nat := 3

  /** One chunk: its index, the frame range `[start, end)` it captures and
      the lead-in frames it simulates first. Resubmitted unchanged on retry. */
  datatype Task = Task(index: nat, start: nat, end: nat, preRoll: nat)

  /** Python's `int(chunk * factor)` for a non-negative factor. */
  function PreRollFrames(chunk: nat, factor: real): (n: nat)
    requires factor >= 0.0
    ensures n as real <= chunk as real * factor < n as real + 1.0
  {
    (chunk as real * factor).Floor
  }

  /** `workers` chunks of `total / workers` frames; the last one also takes
      the remainder. Every chunk gets the same pre-roll. */
  function ChunkPlan(total: nat, workers: nat, factor: real): (tasks: seq<Task>)
    requires workers >= 1 && factor >= 0.0
    ensures |tasks| == workers
    ensures forall i :: 0 <= i < workers ==>
              tasks[i].index == i && tasks[i].start == i * (total / workers)
              && tasks[i].preRoll == PreRollFrames(total / workers, factor)
    ensures forall i :: 0 <= i < workers - 1 ==> tasks[i].end == (i + 1) * (total / workers)
    ensures tasks[workers - 1].end == total
  {
    var c := total / workers;
    var p := PreRollFrames(c, factor);
    seq(workers, i requires 0 <= i < workers => Task(i, i * c, if i < workers - 1 then (i + 1) * c else total, p))
  }

  /** The plan the program uses: two chunks of the 1440-frame day. */
  function DayPlan(): seq<Task> {
    ChunkPlan(TotalFramesPerDay, Workers, PreRollFactor)
  }

  lemma DayPlanIsTwoHalves()
    ensures DayPlan() == [Task(0, 0, 720, 720), Task(1, 720, 1440, 720)]
  {
    assert PreRollFrames(720, 1.0) == 720;
  }

  /** Chunks that start at 0, end at `total`, each start where the previous
      ended, and never run backwards. */
  ghost predicate Tiles(tasks: seq<Task>, total: nat) {
    && |tasks| > 0
    && tasks[0].start == 0
    && tasks[|tasks| - 1].end == total
    && (forall i :: 0 <= i < |tasks| - 1 ==> tasks[i].end == tasks[i + 1].start)
    && (forall i :: 0 <= i < |tasks| ==> tasks[i].start <= tasks[i].end)
  }

  ghost predicate InChunk(t: Task, f: int) {
    t.start <= f < t.end
  }

  ghost predicate Covered(tasks: seq<Task>, f: int) {
    exists i :: 0 <= i < |tasks| && InChunk(tasks[i], f)
  }

  lemma ChunkPlanTiles(total: nat, workers: nat, factor: real)
    requires workers >= 1 && factor >= 0.0
    ensures Tiles(ChunkPlan(total, workers, factor), total)
  {
    var tasks := ChunkPlan(total, workers, factor);
    var c := total / workers;
    assert total == workers * c + total % workers;
    forall i | 0 <= i < workers
      ensures tasks[i].start <= tasks[i].end
    {
      if i < workers - 1 {
        assert (i + 1) * c == i * c + c;
      } else {
        assert i * c == workers * c - c;
      }
    }
  }

  lemma {:induction false} EndsBeforeLaterStarts(tasks: seq<Task>, total: nat, i: nat, j: nat)
    requires Tiles(tasks, total) && i < j < |tasks|
    ensures tasks[i].end <= tasks[j].start
    decreases j - i
  {
    if i + 1 < j {
      EndsBeforeLaterStarts(tasks, total, i + 1, j);
    }
  }

  lemma {:induction false} FindChunk(tasks: seq<Task>, total: nat, f: nat, k: nat) returns (i: nat)
    requires Tiles(tasks, total) && f < total
    requires k < |tasks| && tasks[k].start <= f
    ensures i < |tasks| && InChunk(tasks[i], f)
    decreases |tasks| - k
  {
    if k == |tasks| - 1 || f < tasks[k + 1].start {
      i := k;
    } else {
      i := FindChunk(tasks, total, f, k + 1);
    }
  }

  /** Tiling chunks put every frame of `[0, total)` in exactly one chunk. */
  lemma TilesPartition(tasks: seq<Task>, total: nat)
    requires Tiles(tasks, total)
    ensures forall f :: 0 <= f < total ==> Covered(tasks, f)
    ensures forall f, i, j :: 0 <= i < |tasks| && 0 <= j < |tasks| && InChunk(tasks[i], f) && InChunk(tasks[j], f) ==> i == j
  {
    forall f | 0 <= f < total
      ensures Covered(tasks, f)
    {
      var i := FindChunk(tasks, total, f, 0);
    }
    forall f, i, j | 0 <= i < |tasks| && 0 <= j < |tasks| && InChunk(tasks[i], f) && InChunk(tasks[j], f)
      ensures i == j
    {
      if i < j {
        EndsBeforeLaterStarts(tasks, total, i, j);
      } else if j < i {
        EndsBeforeLaterStarts(tasks, total, j, i);
      }
    }
  }

  // ---------------------------------------------------------------------------
  // Bounded retry

  /** The worker's verdict for a task in a given attempt (1-based). */
  type Worker = (nat, Task) -> bool

  /** The tasks of a round that failed, in submission order. */
  function Failed(attempt: nat, tasks: seq<Task>, ok: Worker): (r: seq<Task>)
    ensures |r| <= |tasks|
  {
    if |tasks| == 0 then []
    else (if ok(attempt, tasks[0]) then [] else [tasks[0]]) + Failed(attempt, tasks[1..], ok)
  }

  /** A round's failures are exactly the submitted tasks the worker rejects. */
  lemma {:induction false} FailedMembers(attempt: nat, tasks: seq<Task>, ok: Worker)
    ensures forall t :: t in Failed(attempt, tasks, ok) <==> t in tasks && !ok(attempt, t)
  {
    if |tasks| > 0 {
      FailedMembers(attempt, tasks[1..], ok);
      assert tasks == [tasks[0]] + tasks[1..];
    }
  }

  /** The tasks submitted in each round from `attempt` on: a round with no
      failure, or the last allowed round, ends the sequence. */
  function Rounds(toRun: seq<Task>, ok: Worker, attempt: nat): (r: seq<seq<Task>>)
    requires 1 <= attempt <= MaxAttempts
    ensures 1 <= |r| <= MaxAttempts - attempt + 1
    decreases MaxAttempts - attempt
  {
    var failed := Failed(attempt, toRun, ok);
    if failed == [] || attempt == MaxAttempts then [toRun]
    else [toRun] + Rounds(failed, ok, attempt + 1)
  }

  /** Each round after the first resubmits exactly the (non-empty) failures
      of the round before; the first of `r` is attempt number `attempt`. */
  ghost predicate RetriesFailures(r: seq<seq<Task>>, ok: Worker, attempt: nat) {
    forall k :: 1 <= k < |r| ==> r[k] == Failed(attempt + k - 1, r[k - 1], ok) && r[k] != []
  }

  lemma RetriesFailuresCons(first: seq<Task>, t: seq<seq<Task>>, ok: Worker, attempt: nat)
    requires |t| >= 1 && t[0] == Failed(attempt, first, ok) && t[0] != []
    requires RetriesFailures(t, ok, attempt + 1)
    ensures RetriesFailures([first] + t, ok, attempt)
  {
    var r := [first] + t;
    forall k | 1 <= k < |r|
      ensures r[k] == Failed(attempt + k - 1, r[k - 1], ok) && r[k] != []
    {
      assert r[k] == t[k - 1];
      if k > 1 {
        assert r[k - 1] == t[k - 2];
      }
    }
  }

  /** The shape of the rounds: the first submits everything, each later
      round resubmits exactly the failures of the one before (and only when
      there were some), and the last round either had no failure or was the
      last allowed attempt. */
  lemma {:induction false} RoundsShape(toRun: seq<Task>, ok: Worker, attempt: nat)
    requires 1 <= attempt <= MaxAttempts
    ensures var r := Rounds(toRun, ok, attempt);
            && r[0] == toRun
            && RetriesFailures(r, ok, attempt)
            && (Failed(attempt + |r| - 1, r[|r| - 1], ok) == [] || attempt + |r| - 1 == MaxAttempts)
    decreases MaxAttempts - attempt
  {
    var failed := Failed(attempt, toRun, ok);
    if failed != [] && attempt < MaxAttempts {
      RoundsShape(failed, ok, attempt + 1);
      var t := Rounds(failed, ok, attempt + 1);
      RetriesFailuresCons(toRun, t, ok, attempt);
      var r := Rounds(toRun, ok, attempt);
      assert r == [toRun] + t;
      assert |r| == |t| + 1 && r[|r| - 1] == t[|t| - 1];
    }
  }

  /** A day's rounds: at most `MaxAttempts`, the first submits every task,
      each later one resubmits exactly the (non-empty) failures of the round
      before, and the last either had no failure or was the last attempt. */
  ghost predicate DayRounds(tasks: seq<Task>, ok: Worker, r: seq<seq<Task>>) {
    && 1 <= |r| <= MaxAttempts
    && r[0] == tasks
    && RetriesFailures(r, ok, 1)
    && (Failed(|r|, r[|r| - 1], ok) == [] || |r| == MaxAttempts)
  }

  lemma DayRoundsShape(tasks: seq<Task>, ok: Worker)
    ensures DayRounds(tasks, ok, Rounds(tasks, ok, 1))
  {
    RoundsShape(tasks, ok, 1);
  }

  /** Whether the rounds end with a round in which nothing failed. */
  function AllSucceed(tasks: seq<Task>, ok: Worker): bool {
    var rs := Rounds(tasks, ok, 1);
    Failed(|rs|, rs[|rs| - 1], ok) == []
  }

  /** The state of the retry loop after `attempt` rounds: `rounds` followed
      by the rounds still to come is the whole sequence of rounds, and the
      loop has stopped exactly when a round had no failure or the attempts
      are used up. */
  ghost predicate Progress(tasks: seq<Task>, ok: Worker, rounds: seq<seq<Task>>, toRun: seq<Task>,
                           attempt: nat, allSucceeded: bool)
  {
    && attempt <= MaxAttempts && |rounds| == attempt
    && (!allSucceeded && attempt < MaxAttempts ==>
          rounds + Rounds(toRun, ok, attempt + 1) == Rounds(tasks, ok, 1))
    && (allSucceeded || attempt == MaxAttempts ==> rounds == Rounds(tasks, ok, 1))
    && (attempt > 0 ==> (allSucceeded <==> Failed(attempt, rounds[attempt - 1], ok) == []))
  }

  lemma ProgressStep(tasks: seq<Task>, ok: Worker, rounds: seq<seq<Task>>, toRun: seq<Task>, attempt: nat)
    requires attempt < MaxAttempts && Progress(tasks, ok, rounds, toRun, attempt, false)
    ensures var failed := Failed(attempt + 1, toRun, ok);
            Progress(tasks, ok, rounds + [toRun], if failed == [] then toRun else failed,
                     attempt + 1, failed == [])
  {
    var failed := Failed(attempt + 1, toRun, ok);
    var rest := Rounds(toRun, ok, attempt + 1);
    assert (rounds + [toRun])[attempt] == toRun;
    if failed != [] && attempt + 1 < MaxAttempts {
      assert rest == [toRun] + Rounds(failed, ok, attempt + 2);
      assert rounds + rest == (rounds + [toRun]) + Rounds(failed, ok, attempt + 2);
    } else {
      assert rest == [toRun];
    }
  }

  lemma ProgressDone(tasks: seq<Task>, ok: Worker, rounds: seq<seq<Task>>, toRun: seq<Task>,
                     attempt: nat, allSucceeded: bool)
    requires Progress(tasks, ok, rounds, toRun, attempt, allSucceeded)
    requires !(attempt < MaxAttempts && !allSucceeded)
    ensures rounds == Rounds(tasks, ok, 1)
    ensures allSucceeded <==> AllSucceed(tasks, ok)
    ensures !allSucceeded ==> |rounds| == MaxAttempts
  {
  }

  /** What happened to one day's render. */
  datatype DayRender = DayRender(rounds: seq<seq<Task>>, allSucceeded: bool, concatenated: bool,
                                 tempRemoved: bool, success: bool)

  /** Runs the rounds, then concatenates (exit code `concatExit`) only when
      every chunk succeeded, and removes the temporary directory only when
      concatenation exited with 0. */
  method RenderDaySegment(tasks: seq<Task>, ok: Worker, concatExit: int) returns (out: DayRender)
    ensures out.rounds == Rounds(tasks, ok, 1) && DayRounds(tasks, ok, out.rounds)
    ensures out.allSucceeded <==> AllSucceed(tasks, ok)
    ensures !out.allSucceeded ==> |out.rounds| == MaxAttempts
    ensures out.concatenated <==> out.allSucceeded
    ensures out.tempRemoved <==> out.allSucceeded && concatExit == 0
    ensures out.success <==> out.allSucceeded && concatExit == 0
  {
    var toRun := tasks;
    var attempt := 0;
    var allSucceeded := false;
    var rounds: seq<seq<Task>> := [];
    while attempt < MaxAttempts && !allSucceeded
      invariant Progress(tasks, ok, rounds, toRun, attempt, allSucceeded)
    {
      var failed := Failed(attempt + 1, toRun, ok);
      ProgressStep(tasks, ok, rounds, toRun, attempt);
      attempt := attempt + 1;
      rounds := rounds + [toRun];
      if failed == [] {
        allSucceeded := true;
      } else {
        toRun := failed;
      }
    }
    ProgressDone(tasks, ok, rounds, toRun, attempt, allSucceeded);
    DayRoundsShape(tasks, ok);
    // Concatenation runs only after every chunk succeeded.
    var concatenated := allSucceeded;
    var success := concatenated && concatExit == 0;
    out := DayRender(rounds, allSucceeded, concatenated, success, success);
  }

  /** A chunk that fails once and then succeeds is retried and the day
      renders, resubmitting only that chunk. */
  lemma TransientFailureRecovers(tasks: seq<Task>, ok: Worker, bad: Task)
    requires multiset(tasks)[bad] == 1
    requires forall t :: t in tasks && t != bad ==> ok(1, t)
    requires !ok(1, bad) && ok(2, bad)
    ensures |Rounds(tasks, ok, 1)| == 2 && Rounds(tasks, ok, 1)[1] == [bad]
    ensures AllSucceed(tasks, ok)
  {
    FailedOnly(tasks, ok, bad);
    assert Failed(2, [bad], ok) == [];
  }

  lemma {:induction false} FailedOnly(tasks: seq<Task>, ok: Worker, bad: Task)
    requires forall t :: t in tasks && t != bad ==> ok(1, t)
    requires !ok(1, bad)
    requires multiset(tasks)[bad] <= 1
    ensures Failed(1, tasks, ok) == if bad in tasks then [bad] else []
  {
    if |tasks| > 0 {
      assert tasks == [tasks[0]] + tasks[1..];
      assert multiset(tasks) == multiset{tasks[0]} + multiset(tasks[1..]);
      FailedOnly(tasks[1..], ok, bad);
      if tasks[0] == bad {
        assert bad !in tasks[1..];
      }
    }
  }

  /** A chunk that fails in every attempt fails the day after three rounds. */
  lemma PermanentFailureFails(tasks: seq<Task>, ok: Worker, bad: Task)
    requires bad in tasks
    requires forall a :: 1 <= a <= MaxAttempts ==> !ok(a, bad)
    ensures |Rounds(tasks, ok, 1)| == MaxAttempts
    ensures !AllSucceed(tasks, ok)
  {
    var r1 := Failed(1, tasks, ok);
    FailedMembers(1, tasks, ok);
    var r2 := Failed(2, r1, ok);
    FailedMembers(2, r1, ok);
    FailedMembers(3, r2, ok);
    assert bad in Failed(3, r2, ok);
  }
}
