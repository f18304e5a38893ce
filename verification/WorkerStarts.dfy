/** When the worker starts what: each start, timer and exit of a run, stated over
    the events that brought it about and not over the functions of the loop. */
module WorkerStarts {
  import opened Outcomes
  import opened Backoff
  import opened Worker
  import opened WorkerRuns

  // ---------- One pass ----------

  predicate RecoveryDue(w: World) { w.now >= w.s.recoveryAt }

  /** At every top of the loop a recovery is in flight afterwards exactly when one
      was or its time has come, a batch exactly when one was or the worker is not
      blocked and its timer is due, and nothing else of the state changes. */
  lemma TopStartsExactly(run: seq<World>, events: seq<Event>, fraction: real, i: nat)
    requires IsRun(run, events, fraction) && i < |events| && events[i].Top?
    ensures var was, now := run[i], run[i + 1];
            && (now.s.recovering <==> was.s.recovering || RecoveryDue(was))
            && (now.s.batching <==>
                  was.s.batching || (!was.s.blocked && was.s.retryAt.Some? && was.now >= was.s.retryAt.value))
            && now.s == was.s.(recovering := now.s.recovering, batching := now.s.batching)
            && now.(s := was.s, waiting := was.waiting) == was
  {
    assert Enabled(run[i], events[i], fraction);
  }

  /** The times the loop waits for once it has started what is due. */
  function Awaited(s: State): set<real> {
    (if s.recovering then {} else {s.recoveryAt})
    + (if !s.batching && !s.blocked && s.retryAt.Some? then {s.retryAt.value} else {})
  }

  /** The deadline is the earliest of the times it waits for, an hour if there is none. */
  lemma DeadlineExact(run: seq<World>, events: seq<Event>, fraction: real, i: nat)
    requires IsRun(run, events, fraction) && i < |events| && events[i].Top?
    ensures run[i + 1].waiting.Some?
    ensures var deadline, awaited := run[i + 1].waiting.value, Awaited(run[i + 1].s);
            && (forall time :: time in awaited ==> deadline <= time)
            && (deadline in awaited || (awaited == {} && deadline == run[i].now + 3600.0))
  {
    assert Enabled(run[i], events[i], fraction);
  }

  // ---------- From a turn to the next pass ----------

  /** `j` is the first top of the loop behind the event at `i`. */
  ghost predicate NextPass(events: seq<Event>, i: nat, j: nat) {
    i < j < |events| && events[j].Top? && forall k :: i < k < j ==> !events[k].Top?
  }

  lemma {:induction false} QuietUntilPass(run: seq<World>, events: seq<Event>, fraction: real, i: nat, j: nat)
    requires IsRun(run, events, fraction) && i < j <= |events| && events[i].Branch?
    requires forall k :: i < k < j ==> !events[k].Top?
    ensures run[j].s == run[i + 1].s && run[j].waiting.None? && run[j].now >= run[i].now == run[i + 1].now
  {
    hide OnTurn;
    assert Enabled(run[i], events[i], fraction);
    if j > i + 1 {
      QuietUntilPass(run, events, fraction, i, j - 1);
      assert Enabled(run[j - 1], events[j - 1], fraction);
    }
  }

  predicate AsksForRecovery(e: Event) {
    IsBatchResult(e) && e.turn.result in {Failed(AuthorizationRequired), Failed(RetryAfterRecovery)}
  }

  /** Both answers that blame the credential have a recovery in flight at the next pass. */
  lemma RecoveryAtNextPass(run: seq<World>, events: seq<Event>, fraction: real, i: nat, j: nat)
    requires IsRun(run, events, fraction) && NextPass(events, i, j) && AsksForRecovery(events[i])
    ensures run[j + 1].s.recovering
    ensures events[i].turn.result == Failed(AuthorizationRequired) ==> run[j + 1].s.blocked && !run[j + 1].s.batching
  {
    hide RetryDelay;
    InvHolds(run, events, fraction, i);
    QuietUntilPass(run, events, fraction, i, j);
    TopStartsExactly(run, events, fraction, j);
  }

  /** A full batch, a renewal, and a notification that finds neither a block nor a
      timer each have a batch in flight at the next pass. */
  lemma BatchAtNextPass(run: seq<World>, events: seq<Event>, fraction: real, i: nat, j: nat)
    requires IsRun(run, events, fraction) && NextPass(events, i, j)
    requires || (IsBatchResult(events[i]) && events[i].turn.result.BatchComplete?)
             || IsRenewal(events[i])
             || (events[i] == Branch(NotificationReady) && !run[i].s.blocked && run[i].s.retryAt.None?)
    ensures run[j + 1].s.batching
  {
    hide RetryDelay;
    assert Enabled(run[i], events[i], fraction);
    InvHolds(run, events, fraction, i);
    QuietUntilPass(run, events, fraction, i, j);
    TopStartsExactly(run, events, fraction, j);
  }

  // ---------- Recovery polls ----------

  predicate IsRecoveryResult(e: Event) { e.Branch? && e.turn.RecoveryReady? }

  predicate InPollRange(seconds: real) { 0.1 <= seconds <= 3600.0 }

  predicate IsPoll(e: Event) {
    IsRecoveryResult(e) && !e.turn.update.RecoveryFailed? && InPollRange(e.turn.update.pollAfter)
  }

  /** The n-th failure in a row delays by the capped doubling of a second, jittered
      and capped again. */
  function DelayAfter(n: nat, multiplier: real): real { Lesser(Jittered(PlainDelay(n), multiplier), 300.0) }

  function PlainDelay(n: nat): real { Lesser(Doubled(1.0, if n <= 30 then n else 30), 300.0) }

  /** Failed polls since the last one that answered. */
  function FailedPolls(events: seq<Event>): nat {
    if events == [] then 0
    else
      var e, before := events[|events| - 1], FailedPolls(events[..|events| - 1]);
      if !IsRecoveryResult(e) then before else if e.turn.update.RecoveryFailed? then before + 1 else 0
  }

  /** The time at which this event schedules the next recovery, if it does. */
  ghost function Schedules(run: seq<World>, events: seq<Event>, i: nat): Option<real>
    requires i < |events| && i < |run|
  {
    var e, now := events[i], run[i].now;
    if IsPoll(e) then Some(now + e.turn.update.pollAfter)
    else if IsRecoveryResult(e) && e.turn.update.RecoveryFailed? then
      Some(now + DelayAfter(FailedPolls(events[..i]), e.turn.multiplier))
    else if AsksForRecovery(e) then Some(now)
    else None
  }

  lemma DelayAfterAttempts(n: nat, multiplier: real)
    ensures RetryDelay(AttemptAfter(n), multiplier) == DelayAfter(n, multiplier)
  {
    hide Bounded, PlainDelay, AttemptAfter, Lesser, Jittered;
    PlainIsBounded(n);
  }

  lemma PlainIsBounded(n: nat)
    ensures Bounded(AttemptAfter(n), RETRY_BASE, MAX_RETRY_BACKOFF) == PlainDelay(n)
  {
    hide Doubled;
    AttemptCounts(n);
  }

  lemma {:induction false} RecoveryAttempts(run: seq<World>, events: seq<Event>, fraction: real, i: nat)
    requires IsRun(run, events, fraction) && i < |run| && run[i].s.exit.None?
    ensures run[i].s.recoveryAttempt == AttemptAfter(FailedPolls(events[..i]))
  {
    hide RetryDelay, Deadline;
    if i > 0 {
      var e := events[i - 1];
      assert Enabled(run[i - 1], e, fraction);
      ExitIsFinal(run[i - 1], e, fraction);
      RecoveryAttempts(run, events, fraction, i - 1);
      assert events[..i][..i - 1] == events[..i - 1];
      assert events[..i][i - 1] == e;
    }
  }

  lemma RecoveryTurn(w: World, e: Event, fraction: real)
    requires Enabled(w, e, fraction) && Next(w, e).s.exit.None?
    ensures Next(w, e).s.recoveryAt ==
            if IsPoll(e) then w.now + e.turn.update.pollAfter
            else if IsRecoveryResult(e) then w.now + RetryDelay(w.s.recoveryAttempt, e.turn.multiplier)
            else if AsksForRecovery(e) then w.now
            else w.s.recoveryAt
    ensures IsRecoveryResult(e) && !IsPoll(e) ==> e.turn.update.RecoveryFailed?
    ensures Next(w, e).s.recovering <==>
              if IsRecoveryResult(e) then false else w.s.recovering || (e.Top? && RecoveryDue(w))
  {
    hide RetryDelay, Deadline;
  }

  /** The event sets the time of the next recovery exactly as `Schedules` says, and
      a result of the recovery itself ends the one in flight. */
  lemma ScheduleStep(run: seq<World>, events: seq<Event>, fraction: real, i: nat)
    requires IsRun(run, events, fraction) && i < |events| && run[i + 1].s.exit.None?
    ensures var due := Schedules(run, events, i);
            run[i + 1].s.recoveryAt == if due.Some? then due.value else run[i].s.recoveryAt
    ensures run[i + 1].s.recovering <==>
              if IsRecoveryResult(events[i]) then false
              else run[i].s.recovering || (events[i].Top? && RecoveryDue(run[i]))
  {
    hide RetryDelay, DelayAfter, FailedPolls, Next, Enabled;
    var e := events[i];
    RecoveryTurn(run[i], e, fraction);
    ExitIsFinal(run[i], e, fraction);
    RecoveryAttempts(run, events, fraction, i);
    if IsRecoveryResult(e) { DelayAfterAttempts(FailedPolls(events[..i]), e.turn.multiplier); }
  }

  /** Until another event reschedules it, the next recovery starts at the first
      pass that is not earlier than the time the event at `i` asked for: `d` after
      a poll that answers `d`, the delay of its own failure count after a failed
      one, and at once after an answer that blames the credential. */
  lemma {:induction false} RecoveryStartsWhenDue(
    run: seq<World>, events: seq<Event>, fraction: real, i: nat, j: nat)
    requires IsRun(run, events, fraction) && i < j <= |events| && run[j].s.exit.None?
    requires Schedules(run, events, i).Some? && !run[i + 1].s.recovering
    requires forall k :: i < k < j ==> Schedules(run, events, k).None?
    ensures run[j].s.recoveryAt == Schedules(run, events, i).value
    ensures run[j].s.recovering <==>
              exists k :: i < k < j && events[k].Top? && run[k].now >= Schedules(run, events, i).value
  {
    hide Schedules, Next;
    assert Enabled(run[j - 1], events[j - 1], fraction);
    ExitIsFinal(run[j - 1], events[j - 1], fraction);
    ScheduleStep(run, events, fraction, j - 1);
    if j > i + 1 {
      RecoveryStartsWhenDue(run, events, fraction, i, j - 1);
      ResultsSchedule(run, events, fraction, j - 1);
    }
  }

  /** Every result of a recovery schedules the next one or ends the run. */
  lemma ResultsSchedule(run: seq<World>, events: seq<Event>, fraction: real, i: nat)
    requires IsRun(run, events, fraction) && i < |events| && run[i + 1].s.exit.None?
    ensures IsRecoveryResult(events[i]) ==> Schedules(run, events, i).Some?
  {
    hide RetryDelay, DelayAfter, FailedPolls, Deadline;
    assert Enabled(run[i], events[i], fraction);
  }

  // ---------- The delivery timer ----------

  /** The time at which this event arms the delivery timer. A drained queue and an
      authorization failure clear it instead. */
  ghost function Arms(run: seq<World>, events: seq<Event>, i: nat): Option<real>
    requires i < |events| && i < |run|
  {
    var e, now := events[i], run[i].now;
    if IsRenewal(e) || (IsBatchResult(e) && e.turn.result.BatchComplete?) then Some(now)
    else if IsDelayed(e) then Some(now + DelayAfter(DelaysSinceReset(events[..i]), e.turn.multiplier))
    else if e == Branch(NotificationReady) && !run[i].s.blocked && run[i].s.retryAt.None? then Some(now)
    else None
  }

  predicate Disarms(e: Event) {
    IsBatchResult(e) && e.turn.result in {BatchResult.Drained, Failed(AuthorizationRequired)}
  }

  /** The timer changes exactly as these two say, a batch is in flight from its
      start to its result or the next renewal, and the worker is blocked from an
      authorization failure to the next renewal. */
  lemma TimerStep(run: seq<World>, events: seq<Event>, fraction: real, i: nat)
    requires IsRun(run, events, fraction) && i < |events| && run[i + 1].s.exit.None?
    ensures var e, was, now, armed := events[i], run[i].s, run[i + 1].s, Arms(run, events, i);
            && now.retryAt == (if armed.Some? then armed else if Disarms(e) then None else was.retryAt)
            && (now.batching <==> !IsBatchResult(e) && !IsRenewal(e) && (was.batching || StartsBatch(run[i], e)))
            && (now.blocked <==>
                  !IsRenewal(e)
                  && (was.blocked || (IsBatchResult(e) && e.turn.result == Failed(AuthorizationRequired))))
  {
    hide RetryDelay, DelayAfter, DelaysSinceReset, Deadline;
    var e := events[i];
    assert Enabled(run[i], e, fraction);
    ExitIsFinal(run[i], e, fraction);
    AttemptCountsDelays(run, events, fraction, i);
    if IsDelayed(e) { DelayAfterAttempts(DelaysSinceReset(events[..i]), e.turn.multiplier); }
  }

  /** While nothing rearms, clears or renews, the batch starts at the first pass
      that is not earlier than the time the timer was armed for. */
  lemma {:induction false} BatchStartsWhenDue(run: seq<World>, events: seq<Event>, fraction: real, i: nat, j: nat)
    requires IsRun(run, events, fraction) && i < j <= |events| && run[j].s.exit.None?
    requires Arms(run, events, i).Some?
    requires forall k :: i < k < j ==> !IsBatchResult(events[k]) && !IsRenewal(events[k])
    ensures run[j].s.retryAt == Arms(run, events, i) && !run[j].s.blocked
    ensures run[j].s.batching <==>
              exists k :: i < k < j && events[k].Top? && run[k].now >= Arms(run, events, i).value
  {
    hide Next, DelaysSinceReset, DelayAfter, Inv;
    assert Enabled(run[j - 1], events[j - 1], fraction);
    ExitIsFinal(run[j - 1], events[j - 1], fraction);
    TimerStep(run, events, fraction, j - 1);
    if j > i + 1 {
      BatchStartsWhenDue(run, events, fraction, i, j - 1);
    } else {
      ArmedIsIdle(run, events, fraction, i);
    }
  }

  lemma ArmedIsIdle(run: seq<World>, events: seq<Event>, fraction: real, i: nat)
    requires IsRun(run, events, fraction) && i < |events| && run[i + 1].s.exit.None? && Arms(run, events, i).Some?
    ensures !run[i + 1].s.batching && !run[i + 1].s.blocked
  {
    hide DelaysSinceReset, RetryDelay, DelayAfter, Deadline;
    assert Enabled(run[i], events[i], fraction);
    ExitIsFinal(run[i], events[i], fraction);
    InvHolds(run, events, fraction, i);
  }

  lemma TimeMovesOn(w: World, e: Event, fraction: real)
    requires Enabled(w, e, fraction)
    ensures Next(w, e).now >= w.now
  {
    hide OnTurn;
  }

  /** A fresh worker polls at its first pass and starts its first batch at the first
      pass a millisecond or more after its start. */
  lemma {:induction false} FirstStarts(run: seq<World>, events: seq<Event>, fraction: real, j: nat)
    requires IsRun(run, events, fraction) && j <= |events| && run[j].s.exit.None?
    requires forall k :: 0 <= k < j ==>
               Schedules(run, events, k).None? && !IsBatchResult(events[k]) && !IsRenewal(events[k])
    ensures run[j].s.recoveryAt == run[0].now && run[j].s.retryAt == Some(run[0].now + 0.001) && !run[j].s.blocked
    ensures run[j].now >= run[0].now
    ensures run[j].s.recovering <==> exists k :: 0 <= k < j && events[k].Top?
    ensures run[j].s.batching <==> exists k :: 0 <= k < j && events[k].Top? && run[k].now >= run[0].now + 0.001
  {
    hide Schedules, DelayAfter, DelaysSinceReset, Next, Enabled, Delay;
    if j > 0 {
      TimeMovesOn(run[j - 1], events[j - 1], fraction);
      ExitIsFinal(run[j - 1], events[j - 1], fraction);
      FirstStarts(run, events, fraction, j - 1);
      ScheduleStep(run, events, fraction, j - 1);
      ResultsSchedule(run, events, fraction, j - 1);
      TimerStep(run, events, fraction, j - 1);
    }
  }

  /** After a drained queue no batch starts before a notification or a renewal. */
  lemma {:induction false} IdleUntilNotified(run: seq<World>, events: seq<Event>, fraction: real, i: nat, j: nat)
    requires IsRun(run, events, fraction) && i < j <= |events|
    requires IsBatchResult(events[i]) && events[i].turn.result == BatchResult.Drained
    requires forall k :: i < k < j ==> events[k] != Branch(NotificationReady) && !IsRenewal(events[k])
    ensures run[j].s.retryAt.None? && !run[j].s.batching
    ensures j < |events| ==> !StartsBatch(run[j], events[j])
  {
    hide RetryDelay, Deadline;
    assert Enabled(run[j - 1], events[j - 1], fraction);
    if j > i + 1 { IdleUntilNotified(run, events, fraction, i, j - 1); }
  }

  // ---------- Exits ----------

  /** A run ends exactly at a shutdown, at a poll interval out of range, and at the
      hundredth local error in a row. */
  lemma ExitExactly(run: seq<World>, events: seq<Event>, fraction: real, i: nat)
    requires IsRun(run, events, fraction) && i < |events| && run[i].s.exit.None?
    ensures run[i + 1].s.exit ==
            if events[i] == Branch(ShutdownReady) then Some(Stopped)
            else if && IsRecoveryResult(events[i]) && !events[i].turn.update.RecoveryFailed?
                    && !InPollRange(events[i].turn.update.pollAfter) then Some(BadPollInterval)
            else if IsBatchResult(events[i]) && TrailingErrors(events[..i + 1]) == 100 then Some(PersistentQueueFailure)
            else None
  {
    hide RetryDelay, TrailingErrors, Deadline;
    assert Enabled(run[i], events[i], fraction);
    StreakIsTrailingRun(run, events, fraction, i);
    StreakIsTrailingRun(run, events, fraction, i + 1);
  }
}
