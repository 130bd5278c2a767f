/** mcrit/jobs.py: waiting for a job by polling a server that may answer anything. */
module Jobs {
  import opened Collections

  /** A time stamp field: absent, present but false in a condition, or present and true. */
  datatype Stamp = Absent | Falsy | Truthy

  /** The fields of a job that the wait reads; truth values stand for how the field tests in a condition. */
  datatype Job = Job(
    finishedAt: Stamp, started: bool, locked: bool, terminated: bool, isTerminated: bool, isFinished: bool,
    attemptsLeft: Option<int>, result: Option<string>)

  datatype State = InProgress | Failed | Queued | Finished | Terminated | Unknown

  function StateOf(job: Job): State {
    var finished := job.finishedAt.Truthy?;
    if job.started && job.locked && !(finished || job.terminated) then InProgress
    else if job.attemptsLeft == Some(0) && !finished && !job.terminated then Failed
    else if !finished && !job.locked && !job.terminated then Queued
    else if finished && !job.terminated then Finished
    else if job.terminated then Terminated
    else Unknown
  }

  predicate JobFailed(job: Job) {
    StateOf(job) == Failed && job.result.None?
  }

  predicate JobTerminated(job: Job) {
    job.terminated || job.isTerminated
  }

  predicate JobFinished(job: Job) {
    job.result.Some? || !job.finishedAt.Absent? || job.isFinished
  }

  /** What one poll meets: no such job, or a job with what the two ways to its result would give. */
  datatype Answer<V> = Missing | Found(job: Job, direct: Option<V>, viaJob: Option<V>)
  {
    /** The job has ended one way or another and has not been terminated or failed. */
    predicate Complete() {
      Found? && !JobTerminated(job) && !JobFailed(job) && JobFinished(job)
    }

    /** The job runs or waits: the poll after it comes a delay later. */
    predicate Live() {
      Found? && !JobTerminated(job) && !JobFailed(job) && !JobFinished(job)
    }

    /** Complete, but its result is not written yet. */
    predicate Unwritten() {
      Complete() && job.result.None? && viaJob.None?
    }

    /** The result a complete job gives. */
    function Value(): Option<V>
      requires Complete()
    {
      if job.result.Some? && direct.Some? then direct else viaJob
    }
  }

  datatype Outcome<V> =
    | Returned(value: V)
    | Cancelled
    | NotFound
    | WasTerminated
    | HasFailed
    | NeverWritten
    | ResultMissing

  // ---------------------------------------------------------------- what a story of answers does to a wait

  /** How many of the answers before poll `n` are live. */
  ghost function Lives<V(!new)>(story: nat -> Answer<V>, n: nat): nat {
    if n == 0 then 0 else Lives(story, n - 1) + if story(n - 1).Live() then 1 else 0
  }

  /** How many of the answers before poll `n` are complete without a result. */
  ghost function Unwrittens<V(!new)>(story: nat -> Answer<V>, n: nat): nat {
    if n == 0 then 0 else Unwrittens(story, n - 1) + if story(n - 1).Unwritten() then 1 else 0
  }

  /** How many answers in a row, up to poll `n`, are missing. */
  ghost function MissingRun<V(!new)>(story: nat -> Answer<V>, n: nat): nat {
    if n == 0 || !story(n - 1).Missing? then 0 else MissingRun(story, n - 1) + 1
  }

  /** Below one the allowance for missing answers acts as one. */
  function Allowance(maxConsecutiveMissing: int): nat {
    if maxConsecutiveMissing < 1 then 1 else maxConsecutiveMissing
  }

  /** What the wait ends with at poll `n`, if it ends there. */
  ghost function EndAt<V(!new)>(story: nat -> Answer<V>, n: nat, allowance: nat): Option<Outcome<V>> {
    var answer := story(n);
    if answer.Missing? then (if MissingRun(story, n + 1) >= allowance then Some(NotFound) else None)
    else if JobTerminated(answer.job) then Some(WasTerminated)
    else if JobFailed(answer.job) then Some(HasFailed)
    else if answer.Live() then None
    else if answer.Unwritten() then (if Unwrittens(story, n + 1) >= allowance then Some(NeverWritten) else None)
    else if answer.Value().Some? then Some(Returned(answer.Value().value))
    else Some(ResultMissing)
  }

  /** The wait after the `k`-th live answer: the start delay, doubled each time up to the cap. */
  function Delay(start: real, cap: real, k: nat): real {
    if k == 0 then start
    else
      var doubled := Delay(start, cap, k - 1) * 2.0;
      if cap <= doubled then cap else doubled
  }

  /** Whether polls 0 to `n` - 1 all let the wait go on. */
  ghost predicate GoesOn<V(!new)>(story: nat -> Answer<V>, stop: nat -> bool, n: nat, allowance: nat) {
    forall k: nat :: k < n ==> !stop(k) && EndAt(story, k, allowance).None?
  }

  lemma {:induction false} RunsAreShort<V(!new)>(story: nat -> Answer<V>, stop: nat -> bool, n: nat, allowance: nat)
    requires allowance >= 1 && GoesOn(story, stop, n, allowance)
    ensures MissingRun(story, n) < allowance && Unwrittens(story, n) < allowance
    ensures n <= (Lives(story, n) + Unwrittens(story, n)) * allowance + MissingRun(story, n)
  {
    if n > 0 {
      RunsAreShort(story, stop, n - 1, allowance);
      assert EndAt(story, n - 1, allowance).None?;
      var before := Lives(story, n - 1) + Unwrittens(story, n - 1);
      if !story(n - 1).Missing? {
        assert Lives(story, n) + Unwrittens(story, n) == before + 1;
        assert (before + 1) * allowance == before * allowance + allowance;
      }
    }
  }

  /** With at most `lives` live answers, a wait goes on for less than (lives + allowance) * allowance polls. */
  lemma WaitIsBounded<V(!new)>(story: nat -> Answer<V>, stop: nat -> bool, n: nat, allowance: nat, lives: nat)
    requires allowance >= 1 && GoesOn(story, stop, n, allowance) && Lives(story, n) <= lives
    ensures n < (lives + allowance) * allowance
  {
    RunsAreShort(story, stop, n, allowance);
    var steps := Lives(story, n) + Unwrittens(story, n);
    var spare := lives + allowance - 1 - steps;
    assert (lives + allowance) * allowance == (steps + spare + 1) * allowance
           == steps * allowance + spare * allowance + allowance;
    assert spare * allowance >= 0;
  }

  lemma NextCounts<V(!new)>(story: nat -> Answer<V>, n: nat, start: real, cap: real)
    ensures Lives(story, n + 1) == Lives(story, n) + if story(n).Live() then 1 else 0
    ensures Unwrittens(story, n + 1) == Unwrittens(story, n) + if story(n).Unwritten() then 1 else 0
    ensures MissingRun(story, n + 1) == (if story(n).Missing? then MissingRun(story, n) + 1 else 0)
    ensures var delay := Delay(start, cap, Lives(story, n));
            Delay(start, cap, Lives(story, n) + 1) == (if cap <= delay * 2.0 then cap else delay * 2.0)
  {
  }

  // ---------------------------------------------------------------- the wait

  /** The server gives at most this many live answers. */
  ghost predicate LiveAtMost<V(!new)>(story: nat -> Answer<V>, lives: nat) {
    forall n :: Lives(story, n) <= lives
  }

  /** A wait that has gone on for `polls` polls and one more is within the bound for any bound on the live answers. */
  lemma WaitIsWithin<V(!new)>(story: nat -> Answer<V>, stop: nat -> bool, n: nat, allowance: nat)
    requires allowance >= 1 && GoesOn(story, stop, n, allowance)
    ensures forall lives: nat :: LiveAtMost(story, lives) ==> n < (lives + allowance) * allowance
  {
    forall lives: nat | LiveAtMost(story, lives) ensures n < (lives + allowance) * allowance {
      WaitIsBounded(story, stop, n, allowance, lives);
    }
  }

  /**
   * Polls until the job ends or the caller stops: the first `horizon` polls of that, for any horizon, since a job that
   * stays live is waited for without a timeout. No outcome means that the wait still goes on. `polls` counts the polls
   * made and `sleeps` records every sleep.
   */
  method AwaitJob<V(!new)>(
    story: nat -> Answer<V>, stop: nat -> bool, start: real, cap: real, maxConsecutiveMissing: int, horizon: nat)
    returns (outcome: Option<Outcome<V>>, polls: nat, sleeps: seq<real>)
    ensures outcome.None? ==> polls == horizon && GoesOn(story, stop, polls, Allowance(maxConsecutiveMissing))
    ensures outcome == Some(Cancelled) ==>
              stop(polls) && GoesOn(story, stop, polls, Allowance(maxConsecutiveMissing))
    ensures outcome.Some? && !outcome.value.Cancelled? ==>
              && polls > 0 && !stop(polls - 1) && GoesOn(story, stop, polls - 1, Allowance(maxConsecutiveMissing))
              && EndAt(story, polls - 1, Allowance(maxConsecutiveMissing)) == outcome
    ensures forall lives: nat :: LiveAtMost(story, lives) ==>
              var bound := (lives + Allowance(maxConsecutiveMissing)) * Allowance(maxConsecutiveMissing);
              polls <= bound && (horizon >= bound ==> outcome.Some?)
    ensures |sleeps| == (if outcome.Some? && !outcome.value.Cancelled? then polls - 1 else polls)
    ensures forall k :: 0 <= k < |sleeps| ==>
              sleeps[k] == (if story(k).Live() then Delay(start, cap, Lives(story, k)) else start)
  {
    ghost var allowance := Allowance(maxConsecutiveMissing);
    var delay, missingCount, unwrittenResults := start, 0, 0;
    polls, sleeps := 0, [];
    while polls < horizon
      invariant polls <= horizon
      invariant GoesOn(story, stop, polls, allowance)
      invariant delay == Delay(start, cap, Lives(story, polls))
      invariant missingCount == MissingRun(story, polls) && unwrittenResults == Unwrittens(story, polls)
      invariant |sleeps| == polls
      invariant forall k :: 0 <= k < polls ==>
                  sleeps[k] == (if story(k).Live() then Delay(start, cap, Lives(story, k)) else start)
    {
      WaitIsWithin(story, stop, polls, allowance);
      NextCounts(story, polls, start, cap);
      hide Lives, Unwrittens, MissingRun, Delay;
      if stop(polls) {
        return Some(Cancelled), polls, sleeps;
      }
      var answer := story(polls);
      polls := polls + 1;
      if answer.Missing? {
        missingCount := missingCount + 1;
        if missingCount >= maxConsecutiveMissing {
          return Some(NotFound), polls, sleeps;
        }
        sleeps := sleeps + [start];
        continue;
      }
      missingCount := 0;
      var job := answer.job;
      if JobTerminated(job) {
        return Some(WasTerminated), polls, sleeps;
      }
      if JobFailed(job) {
        return Some(HasFailed), polls, sleeps;
      }
      if JobFinished(job) {
        if job.result.None? {
          if answer.viaJob.Some? {
            return Some(Returned(answer.viaJob.value)), polls, sleeps;
          }
          unwrittenResults := unwrittenResults + 1;
          if unwrittenResults >= maxConsecutiveMissing {
            return Some(NeverWritten), polls, sleeps;
          }
          sleeps := sleeps + [start];
          continue;
        }
        var result := answer.direct;
        if result.None? {
          result := answer.viaJob;
        }
        if result.None? {
          return Some(ResultMissing), polls, sleeps;
        }
        return Some(Returned(result.value)), polls, sleeps;
      }
      sleeps := sleeps + [delay];
      delay := if cap <= delay * 2.0 then cap else delay * 2.0;
    }
    WaitIsWithin(story, stop, polls, allowance);
    outcome := None;
  }

  // ---------------------------------------------------------------- what it promises

  function Power(k: nat): real {
    if k == 0 then 1.0 else 2.0 * Power(k - 1)
  }

  function CappedDoubling(start: real, cap: real, k: nat): real {
    if cap <= start * Power(k) then cap else start * Power(k)
  }

  lemma {:induction false} DelayDoubles(start: real, cap: real, k: nat)
    requires 0.0 <= start <= cap
    ensures Delay(start, cap, k) == CappedDoubling(start, cap, k)
  {
    if k > 0 {
      DelayDoubles(start, cap, k - 1);
      assert start * Power(k) == 2.0 * (start * Power(k - 1));
    }
  }

  /** The live waits are the capped doubling exactly when the start delay is within the cap. */
  lemma DelaysDoubleIffCapped(start: real, cap: real)
    requires 0.0 <= start
    ensures (forall k: nat :: Delay(start, cap, k) == CappedDoubling(start, cap, k)) <==> start <= cap
  {
    if start <= cap {
      forall k: nat ensures Delay(start, cap, k) == CappedDoubling(start, cap, k) {
        DelayDoubles(start, cap, k);
      }
    } else {
      assert Delay(start, cap, 0) != CappedDoubling(start, cap, 0);
    }
  }

  /** A wait can only go on for ever if the server never stops giving live answers. */
  lemma EndlessOnlyIfEndlesslyLive<V(!new)>(story: nat -> Answer<V>, stop: nat -> bool, allowance: nat, lives: nat)
    requires allowance >= 1 && forall n :: GoesOn(story, stop, n, allowance)
    ensures exists n :: Lives(story, n) > lives
  {
    WaitIsWithin(story, stop, (lives + allowance) * allowance, allowance);
    assert !LiveAtMost(story, lives);
  }

  /** A wait returns only what a job that finished, and was neither terminated nor failed, really had. */
  lemma OnlyResultsAreReturned<V(!new)>(story: nat -> Answer<V>, n: nat, allowance: nat, value: V)
    ensures EndAt(story, n, allowance) == Some(Returned(value))
            <==> && story(n).Found? && JobFinished(story(n).job)
                 && !JobTerminated(story(n).job) && !JobFailed(story(n).job)
                 && ((story(n).viaJob == Some(value) && (story(n).job.result.None? || story(n).direct.None?))
                     || (story(n).job.result.Some? && story(n).direct == Some(value)))
  {
  }

  /**
   * A job is waited for exactly while nothing says it has ended: no termination, no finish, no result, and attempts
   * left or a worker at it. A finish time that tests false still ends the wait.
   */
  lemma LiveMeansNotEnded<V(!new)>(answer: Answer<V>)
    ensures answer.Live() <==>
              && answer.Found? && !answer.job.terminated && !answer.job.isTerminated
              && answer.job.finishedAt.Absent? && !answer.job.isFinished && answer.job.result.None?
              && (answer.job.attemptsLeft != Some(0) || (answer.job.started && answer.job.locked))
  {
  }

  /**
   * A job ends a wait as failed exactly if it has no attempts left, no result and no finish time that tests true, no
   * worker is at it and it was not terminated; and as terminated exactly if either field says so.
   */
  lemma FailureMeansNoAttemptsLeft<V(!new)>(story: nat -> Answer<V>, n: nat, allowance: nat)
    requires story(n).Found?
    ensures EndAt(story, n, allowance) == Some(WasTerminated)
            <==> story(n).job.terminated || story(n).job.isTerminated
    ensures EndAt(story, n, allowance) == Some(HasFailed)
            <==> && !story(n).job.terminated && !story(n).job.isTerminated
                 && story(n).job.attemptsLeft == Some(0) && story(n).job.result.None?
                 && !story(n).job.finishedAt.Truthy? && !(story(n).job.started && story(n).job.locked)
  {
  }

  /** A wait gives up on a missing job only after `allowance` missing answers in a row. */
  lemma {:induction false} RunIsMissing<V(!new)>(story: nat -> Answer<V>, n: nat, k: nat)
    requires k < MissingRun(story, n)
    ensures MissingRun(story, n) <= n && story(n - 1 - k).Missing?
  {
    if k > 0 {
      RunIsMissing(story, n - 1, k - 1);
    } else if MissingRun(story, n) > 1 {
      RunIsMissing(story, n - 1, 0);
    }
  }

  lemma {:induction false} LongRunIsMissing<V(!new)>(story: nat -> Answer<V>, n: nat, count: nat)
    ensures MissingRun(story, n) >= count <==> count <= n && forall j: nat :: n - count <= j < n ==> story(j).Missing?
  {
    if count > 0 && n > 0 {
      LongRunIsMissing(story, n - 1, count - 1);
    }
  }

  /** A job counts as gone exactly at the end of as many missing answers in a row as allowed, but at least one. */
  lemma GoneMeansMissing<V(!new)>(story: nat -> Answer<V>, n: nat, maxConsecutiveMissing: int)
    ensures var times := if maxConsecutiveMissing > 1 then maxConsecutiveMissing else 1;
            EndAt(story, n, Allowance(maxConsecutiveMissing)) == Some(NotFound)
            <==> times <= n + 1 && forall j: nat :: n + 1 - times <= j <= n ==> story(j).Missing?
  {
    LongRunIsMissing(story, n + 1, Allowance(maxConsecutiveMissing));
    hide MissingRun;
  }

  /**
   * A job counts as ended without a result exactly when it has ended with neither way to a result giving one, and
   * that for as many times as allowed, but at least once.
   */
  lemma NeverWrittenMeansEnded<V(!new)>(story: nat -> Answer<V>, n: nat, maxConsecutiveMissing: int)
    ensures story(n).Unwritten()
            <==> && story(n).Found? && !story(n).job.terminated && !story(n).job.isTerminated
                 && (!story(n).job.finishedAt.Absent? || story(n).job.isFinished)
                 && story(n).job.result.None? && story(n).viaJob.None?
                 && (story(n).job.attemptsLeft != Some(0) || story(n).job.finishedAt.Truthy?
                     || (story(n).job.started && story(n).job.locked))
    ensures EndAt(story, n, Allowance(maxConsecutiveMissing)) == Some(NeverWritten)
            <==> story(n).Unwritten() && Unwrittens(story, n) + 1 >= maxConsecutiveMissing
  {
  }

  // ---------------------------------------------------------------- the bound is the best possible

  /** The slowest server: before each answer that counts, as many missing ones as are let pass. */
  function Slowest(lives: nat, allowance: nat): nat -> Answer<string>
    requires allowance >= 1
  {
    (n: nat) =>
      if n % allowance != allowance - 1 then Missing
      else if n / allowance < lives then Found(Job(Absent, true, true, false, false, false, None, None), None, None)
      else Found(Job(Truthy, true, false, false, false, false, None, None), None, None)
  }

  lemma BlockStep(n: nat, m: nat)
    requires m >= 1
    ensures (n + 1) / m == n / m + (if n % m == m - 1 then 1 else 0)
    ensures (n + 1) % m == (if n % m == m - 1 then 0 else n % m + 1)
  {
    var q, r := n / m, n % m;
    assert n == q * m + r;
    if r == m - 1 {
      assert n + 1 == (q + 1) * m + 0;
      Division(n + 1, m, q + 1, 0);
    } else {
      Division(n + 1, m, q, r + 1);
    }
  }

  lemma Multiples(d: int, m: int)
    requires m >= 1
    ensures d >= 1 ==> d * m >= m
    ensures d >= 0 ==> d * m >= 0
    ensures d <= -1 ==> d * m <= -m
  {
    if d >= 1 {
      assert (d - 1) * m >= 0;
    } else if d <= -1 {
      assert (-d - 1) * m >= 0;
    }
  }

  lemma Division(n: int, m: int, q: int, r: int)
    requires 0 <= r < m && n == q * m + r
    ensures n / m == q && n % m == r
  {
    Multiples(n / m - q, m);
    assert (n / m - q) * m == r - n % m;
  }

  lemma QuotientBelow(n: int, m: int, c: int)
    requires m >= 1 && n < c * m
    ensures n / m < c
  {
    Multiples(n / m - c, m);
    assert (n / m - c) * m == (n / m) * m - c * m;
  }

  lemma {:induction false} SlowestCounts(lives: nat, allowance: nat, n: nat)
    requires allowance >= 1
    ensures var story, blocks := Slowest(lives, allowance), n / allowance;
            && MissingRun(story, n) == n % allowance
            && Lives(story, n) == (if blocks <= lives then blocks else lives)
            && Unwrittens(story, n) == (if blocks <= lives then 0 else blocks - lives)
  {
    if n == 0 {
      Division(0, allowance, 0, 0);
    } else {
      SlowestCounts(lives, allowance, n - 1);
      BlockStep(n - 1, allowance);
    }
  }

  /** Against the slowest server every poll of the bound is needed. */
  lemma BoundIsReached(lives: nat, allowance: nat)
    requires allowance >= 1
    ensures var story, last := Slowest(lives, allowance), (lives + allowance) * allowance - 1;
            && (forall n :: Lives(story, n) <= lives)
            && (forall k: nat :: k < last ==> EndAt(story, k, allowance).None?)
            && EndAt(story, last, allowance) == Some(NeverWritten)
  {
    var story, bound := Slowest(lives, allowance), (lives + allowance) * allowance;
    forall n ensures Lives(story, n) <= lives {
      SlowestCounts(lives, allowance, n);
    }
    forall k: nat | k < bound - 1 ensures EndAt(story, k, allowance).None? {
      SlowestGoesOn(lives, allowance, k);
    }
    SlowestCounts(lives, allowance, bound);
    Division(bound, allowance, lives + allowance, 0);
    BlockStep(bound - 1, allowance);
  }

  lemma SlowestGoesOn(lives: nat, allowance: nat, k: nat)
    requires allowance >= 1 && k < (lives + allowance) * allowance - 1
    ensures EndAt(Slowest(lives, allowance), k, allowance).None?
  {
    SlowestCounts(lives, allowance, k + 1);
    BlockStep(k, allowance);
    QuotientBelow(k + 1, allowance, lives + allowance);
    var answer := Slowest(lives, allowance)(k);
    hide MissingRun, Unwrittens, Lives;
    assert answer.Missing? <==> k % allowance != allowance - 1;
    assert answer.Found? ==> (answer.Live() <==> k / allowance < lives) && (answer.Live() || answer.Unwritten());
    hide Slowest;
  }
}
