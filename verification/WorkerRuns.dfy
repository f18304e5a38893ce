/** Every interleaving of the delivery worker with producers, time and the
    futures it polls. */
module WorkerRuns {
  import opened Outcomes
  import opened Backoff
  import opened Worker

  /** `unnotified` holds the records whose producers are between the durable
      enqueue and `notify`; `token` is the one-slot channel; `waiting` is the
      deadline of the current select; `sawEmpty` marks a batch whose last `next`
      found nothing and whose result is being returned in the same poll. */
  datatype World = World(
    s: State, now: real, queue: set<nat>, unnotified: set<nat>, token: bool, waiting: Option<real>, sawEmpty: bool)

  datatype Event =
    | Enqueue(record: nat)
    | Notify(record: nat)
    | Tick(seconds: real)
    | Top
    | Take(record: nat)        // a batch removes or isolates a record
    | SeeEmpty
    | Branch(turn: Turn)

  predicate Enabled(w: World, e: Event, fraction: real) {
    match e
    case Enqueue(r) => r !in w.queue
    case Notify(r) => r in w.unnotified
    case Tick(seconds) => seconds >= 0.0
    case Top => w.waiting.None? && w.s.exit.None?
    case Take(r) => w.waiting.Some? && w.s.exit.None? && w.s.batching && !w.sawEmpty && r in w.queue
    case SeeEmpty => w.waiting.Some? && w.s.exit.None? && w.s.batching && !w.sawEmpty && w.queue == {}
    case Branch(turn) =>
      && w.waiting.Some? && w.s.exit.None? && TurnReady(w.s, turn, fraction)
      && (w.sawEmpty ==> turn.BatchReady? && turn.result.Drained?)
      && (turn.BatchReady? && turn.result.Drained? ==> w.sawEmpty)
      && (turn.NotificationReady? ==> w.token)
      && (turn.DeadlineReached? ==> w.now >= w.waiting.value)
  }

  function Next(w: World, e: Event): World {
    match e
    case Enqueue(r) => w.(queue := w.queue + {r}, unnotified := w.unnotified + {r})
    case Notify(r) => w.(unnotified := w.unnotified - {r}, token := true)
    case Tick(seconds) => w.(now := w.now + seconds)
    case Top => w.(s := LoopTop(w.s, w.now), waiting := Some(Deadline(LoopTop(w.s, w.now), w.now)))
    case Take(r) => w.(queue := w.queue - {r})
    case SeeEmpty => w.(sawEmpty := true)
    case Branch(turn) =>
      w.(s := OnTurn(w.s, w.now, turn), waiting := None, sawEmpty := false,
         token := w.token && !turn.NotificationReady?)
  }

  ghost predicate Initial(w: World) {
    w.s == Start(w.now) && w.waiting.None? && !w.sawEmpty && w.unnotified == {}
  }

  ghost predicate IsRun(run: seq<World>, events: seq<Event>, fraction: real) {
    && |run| == |events| + 1
    && Initial(run[0])
    && forall i {:trigger events[i]} :: 0 <= i < |events| ==>
         Enabled(run[i], events[i], fraction) && run[i + 1] == Next(run[i], events[i])
  }

  // ---------- Invariants ----------

  /** Somebody will look at the queue again. */
  predicate Awake(w: World) { w.token || (w.s.retryAt.Some? && !w.sawEmpty) || w.s.blocked || w.s.exit.Some? }

  ghost predicate Inv(w: World) {
    && (w.s.exit.None? && w.s.blocked ==> !w.s.batching && w.s.retryAt.None?)
    && (w.s.exit.None? && w.s.batching ==> w.s.retryAt.Some?)
    && (w.sawEmpty ==> w.s.batching)
    && ((exists r :: r in w.queue && r !in w.unnotified) ==> Awake(w))
    && (w.waiting.Some? && w.s.exit.None? ==>
          && (!w.s.recovering ==> w.waiting.value <= w.s.recoveryAt)
          && (!w.s.batching && !w.s.blocked && w.s.retryAt.Some? ==> w.waiting.value <= w.s.retryAt.value))
  }

  lemma TurnKeeps(w: World, turn: Turn, fraction: real)
    requires Inv(w) && Enabled(w, Branch(turn), fraction)
    ensures Inv(Next(w, Branch(turn)))
  {
    hide Delay, InJitterRange;
  }

  lemma StepKeeps(w: World, e: Event, fraction: real)
    requires Inv(w) && Enabled(w, e, fraction)
    ensures Inv(Next(w, e))
  {
    hide OnTurn, Delay;
    if e.Branch? {
      TurnKeeps(w, e.turn, fraction);
    } else {
      var after := Next(w, e);
      if r :| r in after.queue && r !in after.unnotified {
        assert e.Notify? || (r in w.queue && r !in w.unnotified);
      }
    }
  }

  lemma {:induction false} InvHolds(run: seq<World>, events: seq<Event>, fraction: real, i: nat)
    requires IsRun(run, events, fraction) && i < |run|
    ensures Inv(run[i])
  {
    if i > 0 {
      InvHolds(run, events, fraction, i - 1);
      var e := events[i - 1];
      StepKeeps(run[i - 1], e, fraction);
    }
  }

  // ---------- Wakeups ----------

  /** No lost wakeup: a record whose producer has notified, or that was stored
      before the worker started, is never left with nothing to wake the worker. */
  lemma NoLostWakeup(run: seq<World>, events: seq<Event>, fraction: real, i: nat, record: nat)
    requires IsRun(run, events, fraction) && i < |run|
    requires record in run[i].queue && record !in run[i].unnotified
    ensures run[i].token || run[i].s.retryAt.Some? || run[i].s.blocked || run[i].s.exit.Some?
  {
    InvHolds(run, events, fraction, i);
  }

  /** And the select never sleeps past the retry or the recovery poll it waits for. */
  lemma NeverSleepsPastDeadline(run: seq<World>, events: seq<Event>, fraction: real, i: nat)
    requires IsRun(run, events, fraction) && i < |run| && run[i].waiting.Some? && run[i].s.exit.None?
    ensures !run[i].s.recovering ==> run[i].waiting.value <= run[i].s.recoveryAt
    ensures !run[i].s.batching && !run[i].s.blocked && run[i].s.retryAt.Some? ==>
              run[i].waiting.value <= run[i].s.retryAt.value
  {
    InvHolds(run, events, fraction, i);
  }

  // ---------- Authorization and snapshots ----------

  predicate StartsBatch(w: World, e: Event) {
    e.Top? && !w.s.blocked && !w.s.batching && w.s.retryAt.Some? && w.now >= w.s.retryAt.value
  }

  predicate IsRenewal(e: Event) {
    && e.Branch? && e.turn.RecoveryReady? && e.turn.update.Renewed?
    && MIN_RECOVERY_POLL <= e.turn.update.pollAfter <= MAX_RECOVERY_POLL
  }

  predicate IsBatchResult(e: Event) { e.Branch? && e.turn.BatchReady? }

  lemma BlockedIsQuiet(run: seq<World>, events: seq<Event>, fraction: real, i: nat)
    requires IsRun(run, events, fraction) && i < |run| && run[i].s.blocked && run[i].s.exit.None?
    ensures !run[i].s.batching && run[i].s.retryAt.None?
    ensures i < |events| ==> !StartsBatch(run[i], events[i])
  {
    InvHolds(run, events, fraction, i);
  }

  lemma OnlyRenewalUnblocks(run: seq<World>, events: seq<Event>, fraction: real, i: nat)
    requires IsRun(run, events, fraction) && i < |events|
    requires run[i].s.blocked && !run[i + 1].s.blocked
    ensures IsRenewal(events[i])
  {
    InvHolds(run, events, fraction, i);
    var e := events[i];
  }

  /** At most one batch and one recovery: neither starts while one is in flight. */
  lemma OneInFlight(w: World, e: Event, fraction: real)
    requires Enabled(w, e, fraction)
    ensures StartsBatch(w, e) ==> !w.s.batching && Next(w, e).s.batching
    ensures !w.s.batching && Next(w, e).s.batching ==> StartsBatch(w, e)
    ensures !w.s.recovering && Next(w, e).s.recovering ==> e.Top? && w.now >= w.s.recoveryAt
  {
    hide Delay;
  }

  /** Every result that is classified comes from a batch started after the
      latest renewal. */
  lemma {:induction false} ResultsAreFresh(run: seq<World>, events: seq<Event>, fraction: real, renewal: nat, i: nat)
    requires IsRun(run, events, fraction) && renewal < i <= |events| && IsRenewal(events[renewal])
    ensures run[i].s.batching ==> exists k :: renewal < k < i && StartsBatch(run[k], events[k])
    ensures i < |events| && IsBatchResult(events[i]) ==> exists k :: renewal < k < i && StartsBatch(run[k], events[k])
  {
    var e := events[i - 1];
    if i > renewal + 1 {
      ResultsAreFresh(run, events, fraction, renewal, i - 1);
      OneInFlight(run[i - 1], e, fraction);
    }
    if i < |events| { assert Enabled(run[i], events[i], fraction); }
  }

  /** After an authorization failure no batch starts before a renewal. */
  lemma BlockedUntilRenewal(run: seq<World>, events: seq<Event>, fraction: real, i: nat, j: nat)
    requires IsRun(run, events, fraction) && i < j < |events|
    requires IsBatchResult(events[i]) && events[i].turn.result == Failed(AuthorizationRequired)
    requires StartsBatch(run[j], events[j])
    ensures exists k :: i < k < j && IsRenewal(events[k])
  {
    BlockedOrRenewed(run, events, fraction, i, j);
  }

  lemma {:induction false} BlockedOrRenewed(run: seq<World>, events: seq<Event>, fraction: real, i: nat, j: nat)
    requires IsRun(run, events, fraction) && i < j <= |events|
    requires IsBatchResult(events[i]) && events[i].turn.result == Failed(AuthorizationRequired)
    ensures run[j].s.blocked || exists k :: i < k < j && IsRenewal(events[k])
  {
    var e := events[j - 1];
    if j > i + 1 {
      BlockedOrRenewed(run, events, fraction, i, j - 1);
      if run[j - 1].s.blocked && !run[j].s.blocked { OnlyRenewalUnblocks(run, events, fraction, j - 1); }
    }
  }

  // ---------- Backoff ----------

  /** A retained failure or a local queue error. */
  predicate IsDelayed(e: Event) {
    && IsBatchResult(e)
    && (|| e.turn.result.LocalError?
        || (e.turn.result.Failed? && !e.turn.result.response.AuthorizationRequired?))
  }

  /** The earliest time of the next attempt after the delayed result at `i`. */
  function NotBefore(w: World, e: Event): real
    requires IsDelayed(e)
  {
    w.now + RetryDelay(w.s.attempt, e.turn.multiplier)
  }

  predicate WaitsUntil(w: World, time: real) { w.now >= time || (w.s.retryAt == Some(time) && !w.s.batching) }

  lemma DelayedWaits(w: World, e: Event, fraction: real)
    requires Enabled(w, e, fraction) && IsDelayed(e) && Next(w, e).s.exit.None?
    ensures WaitsUntil(Next(w, e), NotBefore(w, e))
  {
    hide Delay;
  }

  lemma WaitKept(w: World, e: Event, fraction: real, time: real)
    requires Inv(w) && Enabled(w, e, fraction) && !IsRenewal(e) && WaitsUntil(w, time)
    ensures WaitsUntil(Next(w, e), time)
  {
    hide Delay;
  }

  lemma {:induction false} WaitsThrough(run: seq<World>, events: seq<Event>, fraction: real, i: nat, j: nat)
    requires IsRun(run, events, fraction) && i < j <= |events|
    requires IsDelayed(events[i]) && run[i + 1].s.exit.None?
    requires forall k :: i < k < j ==> !IsRenewal(events[k])
    ensures WaitsUntil(run[j], NotBefore(run[i], events[i]))
  {
    hide WaitsUntil, NotBefore, IsDelayed, Inv, OnTurn;
    var e := events[j - 1];
    if j == i + 1 {
      DelayedWaits(run[i], e, fraction);
    } else {
      WaitsThrough(run, events, fraction, i, j - 1);
      InvHolds(run, events, fraction, j - 1);
      WaitKept(run[j - 1], e, fraction, NotBefore(run[i], events[i]));
    }
  }

  /** Backoff is never collapsed: whatever notifications, recoveries or other
      events come between, no batch starts before the delay is over unless a
      renewal intervenes. */
  lemma BackoffHonoured(run: seq<World>, events: seq<Event>, fraction: real, i: nat, j: nat)
    requires IsRun(run, events, fraction) && i < j < |events|
    requires IsDelayed(events[i]) && run[i + 1].s.exit.None?
    requires StartsBatch(run[j], events[j])
    requires forall k :: i < k < j ==> !IsRenewal(events[k])
    ensures run[j].now >= run[i].now + RetryDelay(run[i].s.attempt, events[i].turn.multiplier)
  {
    hide Delay;
    WaitsThrough(run, events, fraction, i, j);
  }

  // ---------- Counting failures ----------

  /** The trailing run of local queue errors among the batch results. */
  function TrailingErrors(events: seq<Event>): nat {
    if events == [] then 0
    else
      var e, before := events[|events| - 1], TrailingErrors(events[..|events| - 1]);
      if !IsBatchResult(e) then before else if e.turn.result.LocalError? then before + 1 else 0
  }

  /** Delayed results since the last success or renewal. */
  function DelaysSinceReset(events: seq<Event>): nat {
    if events == [] then 0
    else
      var e, before := events[|events| - 1], DelaysSinceReset(events[..|events| - 1]);
      if IsDelayed(e) then before + 1
      else if IsRenewal(e) || (IsBatchResult(e) && !e.turn.result.Failed?) then 0
      else before
  }

  lemma StreakStep(w: World, e: Event, fraction: real)
    requires Enabled(w, e, fraction) && w.s.failures <= MAX_QUEUE_FAILURES
    requires w.s.exit == Some(PersistentQueueFailure) <==> w.s.failures == MAX_QUEUE_FAILURES
    ensures var s := Next(w, e).s;
            && s.failures == (if !IsBatchResult(e) then w.s.failures
                              else if e.turn.result.LocalError? then w.s.failures + 1
                              else 0)
            && s.failures <= MAX_QUEUE_FAILURES
            && (s.exit == Some(PersistentQueueFailure) <==> s.failures == MAX_QUEUE_FAILURES)
  {
    hide Delay;
  }

  /** The streak is the trailing run, and it ends the run exactly at 100. */
  lemma {:induction false} StreakIsTrailingRun(run: seq<World>, events: seq<Event>, fraction: real, i: nat)
    requires IsRun(run, events, fraction) && i < |run|
    ensures run[i].s.failures == TrailingErrors(events[..i]) <= MAX_QUEUE_FAILURES
    ensures run[i].s.exit == Some(PersistentQueueFailure) <==> TrailingErrors(events[..i]) == MAX_QUEUE_FAILURES
  {
    hide Next, Enabled;
    if i > 0 {
      StreakIsTrailingRun(run, events, fraction, i - 1);
      assert events[..i][..i - 1] == events[..i - 1];
      assert events[..i][i - 1] == events[i - 1];
      StreakStep(run[i - 1], events[i - 1], fraction);
    }
  }

  lemma AttemptStep(w: World, e: Event, fraction: real)
    requires Enabled(w, e, fraction) && Next(w, e).s.exit.None?
    ensures Next(w, e).s.attempt ==
            if IsDelayed(e) then NextAttempt(w.s.attempt)
            else if IsRenewal(e) || (IsBatchResult(e) && !e.turn.result.Failed?) then 0
            else w.s.attempt
  {
    hide Delay;
  }

  /** The attempt counter counts the delayed results since the last reset. */
  lemma {:induction false} AttemptCountsDelays(run: seq<World>, events: seq<Event>, fraction: real, i: nat)
    requires IsRun(run, events, fraction) && i < |run| && run[i].s.exit.None?
    ensures run[i].s.attempt == AttemptAfter(DelaysSinceReset(events[..i]))
  {
    hide Next, Enabled, IsDelayed, IsRenewal, IsBatchResult;
    if i > 0 {
      var e := events[i - 1];
      ExitIsFinal(run[i - 1], e, fraction);
      AttemptCountsDelays(run, events, fraction, i - 1);
      assert events[..i][..i - 1] == events[..i - 1];
      assert events[..i][i - 1] == e;
      AttemptStep(run[i - 1], e, fraction);
    }
  }

  lemma ExitIsFinal(w: World, e: Event, fraction: real)
    requires Enabled(w, e, fraction)
    ensures w.s.exit.Some? ==> Next(w, e).s == w.s
  {
  }

  /** Without jitter, the delay after the nth consecutive delayed result. */
  lemma NthDelayInRun(run: seq<World>, events: seq<Event>, fraction: real, i: nat)
    requires IsRun(run, events, fraction) && i < |events| && run[i].s.exit.None?
    requires IsDelayed(events[i]) && events[i].turn.multiplier == 1.0
    ensures var n := DelaysSinceReset(events[..i]);
            NotBefore(run[i], events[i])
            == run[i].now + Lesser(Doubled(RETRY_BASE, if n <= 30 then n else 30), MAX_RETRY_BACKOFF)
  {
    hide Delay;
    AttemptCountsDelays(run, events, fraction, i);
    NthDelayWithoutJitter(DelaysSinceReset(events[..i]), RETRY_BASE, MAX_RETRY_BACKOFF);
  }
}
