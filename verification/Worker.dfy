/** The delivery worker (src/runtime/worker.rs): one owner for recovery polling,
    batches, notifications and retry deadlines. Times are seconds as reals. */
module Worker {
  import opened Numbers
  import opened Outcomes
  import opened Backoff

  const MAX_QUEUE_FAILURES := 100
  const MIN_RECOVERY_POLL: real := 0.1
  const MAX_RECOVERY_POLL: real := 3600.0
  const RETRY_BASE: real := 1.0
  const FIRST_DELIVERY_GRACE: real := 0.001

  datatype Update = Unchanged(pollAfter: real) | Renewed(pollAfter: real) | RecoveryFailed
  datatype Response = Retry | RetryAfterRecovery | AuthorizationRequired
  datatype BatchResult = Drained | BatchComplete | LocalError | Failed(response: Response)
  datatype Exit = Stopped | BadPollInterval | PersistentQueueFailure

  /** The locals of `run`. */
  datatype State = State(
    retryAt: Option<real>, recoveryAt: real, blocked: bool, failures: nat,
    attempt: nat, recoveryAttempt: nat, recovering: bool, batching: bool, exit: Option<Exit>)

  function Start(now: real): State {
    State(Some(now + FIRST_DELIVERY_GRACE), now, false, 0, 0, 0, false, false, None)
  }

  function RetryDelay(attempt: nat, multiplier: real): real {
    Delay(attempt, RETRY_BASE, MAX_RETRY_BACKOFF, multiplier)
  }

  // ---------- What each turn of the loop does ----------

  predicate BatchDue(s: State, now: real) { !s.blocked && !s.batching && s.retryAt.Some? && now >= s.retryAt.value }

  function LoopTop(s: State, now: real): State {
    s.(recovering := s.recovering || now >= s.recoveryAt, batching := s.batching || BatchDue(s, now))
  }

  /** When `sleep_until` wakes the loop. */
  function Deadline(s: State, now: real): real {
    var delivery := if !s.blocked && !s.batching then s.retryAt else None;
    var recovery := if s.recovering then None else Some(s.recoveryAt);
    if delivery.Some? && recovery.Some? then Lesser(delivery.value, recovery.value)
    else if delivery.Some? then delivery.value
    else if recovery.Some? then recovery.value
    else now + 3600.0
  }

  function OnRecovery(s: State, now: real, update: Update, multiplier: real): State {
    var idle := s.(recovering := false);
    if update.RecoveryFailed? then
      idle.(recoveryAt := now + RetryDelay(s.recoveryAttempt, multiplier),
            recoveryAttempt := NextAttempt(s.recoveryAttempt))
    else if update.pollAfter < MIN_RECOVERY_POLL || update.pollAfter > MAX_RECOVERY_POLL then
      idle.(exit := Some(BadPollInterval))
    else
      var polled := idle.(recoveryAttempt := 0, recoveryAt := now + update.pollAfter);
      if update.Renewed? then
        polled.(batching := false, blocked := false, retryAt := Some(now), attempt := 0)
      else
        polled
  }

  function OnBatch(s: State, now: real, result: BatchResult, multiplier: real): State {
    var idle := s.(batching := false);
    var retried := idle.(retryAt := Some(now + RetryDelay(s.attempt, multiplier)), attempt := NextAttempt(s.attempt));
    match result
    case Drained => idle.(failures := 0, attempt := 0, retryAt := None)
    case BatchComplete => idle.(failures := 0, attempt := 0, retryAt := Some(now))
    case LocalError =>
      var failures := NextAttempt(s.failures);
      if failures >= MAX_QUEUE_FAILURES then idle.(failures := failures, exit := Some(PersistentQueueFailure))
      else retried.(failures := failures)
    case Failed(AuthorizationRequired) => idle.(failures := 0, blocked := true, retryAt := None, recoveryAt := now)
    case Failed(RetryAfterRecovery) => retried.(failures := 0, recoveryAt := now)
    case Failed(Retry) => retried.(failures := 0)
  }

  function OnNotification(s: State, now: real): State {
    if !s.blocked && s.retryAt.None? then s.(retryAt := Some(now)) else s
  }

  // ---------- The object ----------

  datatype Turn =
    | RecoveryReady(update: Update, multiplier: real)
    | BatchReady(result: BatchResult, multiplier: real)
    | NotificationReady
    | DeadlineReached
    | ShutdownReady

  predicate TurnReady(s: State, turn: Turn, fraction: real) {
    match turn
    case RecoveryReady(_, multiplier) => s.recovering && InJitterRange(multiplier, fraction)
    case BatchReady(_, multiplier) => s.batching && InJitterRange(multiplier, fraction)
    case _ => true
  }

  function OnTurn(s: State, now: real, turn: Turn): State {
    match turn
    case RecoveryReady(update, multiplier) => OnRecovery(s, now, update, multiplier)
    case BatchReady(result, multiplier) => OnBatch(s, now, result, multiplier)
    case NotificationReady => OnNotification(s, now)
    case DeadlineReached => s
    case ShutdownReady => s.(exit := Some(Stopped))
  }

  class DeliveryWorker {
    const retry: RetryBackoff
    const recoveryRetry: RetryBackoff
    var retryAt: Option<real>
    var recoveryAt: real
    var authorizationBlocked: bool
    var queueFailures: nat
    var pendingRecovery: bool
    var pendingBatch: bool
    var exit: Option<Exit>

    ghost predicate Valid()
      reads this, retry, recoveryRetry
    {
      && retry != recoveryRetry && retry.Valid() && recoveryRetry.Valid()
      && retry.base == recoveryRetry.base == RETRY_BASE
      && retry.maximum == recoveryRetry.maximum == MAX_RETRY_BACKOFF
      && retry.jitterPercent == recoveryRetry.jitterPercent
      && queueFailures <= U32_MAX
    }

    function Fraction(): real
    {
      retry.jitterPercent as real / 100.0
    }

    ghost function Locals(): State
      reads this, retry, recoveryRetry
    {
      State(retryAt, recoveryAt, authorizationBlocked, queueFailures, retry.attempt, recoveryRetry.attempt,
            pendingRecovery, pendingBatch, exit)
    }

    constructor (jitterPercent: nat, now: real)
      requires jitterPercent <= MAX_RETRY_JITTER_PERCENT
      ensures Valid() && fresh(retry) && fresh(recoveryRetry) && Locals() == Start(now)
    {
      retry := new RetryBackoff(RETRY_BASE, MAX_RETRY_BACKOFF, jitterPercent);
      recoveryRetry := new RetryBackoff(RETRY_BASE, MAX_RETRY_BACKOFF, jitterPercent);
      retryAt, recoveryAt := Some(now + FIRST_DELIVERY_GRACE), now;
      authorizationBlocked, queueFailures, pendingRecovery, pendingBatch, exit := false, 0, false, false, None;
    }

    method StartDue(now: real) returns (deadline: real)
      requires Valid()
      modifies this
      ensures Valid() && Locals() == LoopTop(old(Locals()), now) && deadline == Deadline(Locals(), now)
      ensures pendingRecovery == (old(pendingRecovery) || now >= recoveryAt)
      ensures pendingBatch
           == (old(pendingBatch) || (!authorizationBlocked && retryAt.Some? && now >= retryAt.value))
    {
      if !pendingRecovery && now >= recoveryAt { pendingRecovery := true; }
      if !authorizationBlocked && !pendingBatch && retryAt.Some? && now >= retryAt.value { pendingBatch := true; }
      var nextDelivery := if !authorizationBlocked && !pendingBatch then retryAt else None;
      var nextRecovery := if !pendingRecovery then Some(recoveryAt) else None;
      match (nextDelivery, nextRecovery)
      case (Some(left), Some(right)) => deadline := Lesser(left, right);
      case (Some(value), None) => deadline := value;
      case (None, Some(value)) => deadline := value;
      case (None, None) => deadline := now + 3600.0;
    }

    method FinishRecovery(now: real, update: Update, multiplier: real)
      requires Valid() && pendingRecovery && InJitterRange(multiplier, Fraction())
      modifies this, retry, recoveryRetry
      ensures Valid() && Locals() == OnRecovery(old(Locals()), now, update, multiplier)
    {
      pendingRecovery := false;
      if update.RecoveryFailed? {
        var delay := recoveryRetry.NextDelay(multiplier);
        recoveryAt := now + delay.value;
        return;
      }
      if update.pollAfter < MIN_RECOVERY_POLL || update.pollAfter > MAX_RECOVERY_POLL {
        exit := Some(BadPollInterval);
        return;
      }
      recoveryRetry.Reset();
      recoveryAt := now + update.pollAfter;
      if update.Renewed? {
        pendingBatch := false;
        authorizationBlocked := false;
        retryAt := Some(now);
        retry.Reset();
      }
    }

    /** `QueueFailureStreak::record_failure`. */
    method RecordFailure() returns (ok: bool)
      requires Valid()
      modifies this`queueFailures
      ensures Valid() && queueFailures == NextAttempt(old(queueFailures)) && ok == (queueFailures < MAX_QUEUE_FAILURES)
    {
      queueFailures := if queueFailures < U32_MAX then queueFailures + 1 else queueFailures;
      ok := queueFailures < MAX_QUEUE_FAILURES;
    }

    method ScheduleRetry(now: real, multiplier: real)
      requires Valid() && InJitterRange(multiplier, Fraction())
      modifies this`retryAt, retry
      ensures Valid() && retryAt == Some(now + RetryDelay(old(retry.attempt), multiplier))
      ensures retry.attempt == NextAttempt(old(retry.attempt))
    {
      var delay := retry.NextDelay(multiplier);
      retryAt := Some(now + delay.value);
    }

    method FinishBatch(now: real, result: BatchResult, multiplier: real)
      requires Valid() && pendingBatch && InJitterRange(multiplier, Fraction())
      modifies this, retry
      ensures Valid() && Locals() == OnBatch(old(Locals()), now, result, multiplier)
    {
      pendingBatch := false;
      match result
      case Drained =>
        queueFailures := 0;
        retry.Reset();
        retryAt := None;
      case BatchComplete =>
        queueFailures := 0;
        retry.Reset();
        retryAt := Some(now);
      case LocalError =>
        var ok := RecordFailure();
        if !ok {
          exit := Some(PersistentQueueFailure);
          return;
        }
        ScheduleRetry(now, multiplier);
      case Failed(response) =>
        queueFailures := 0;
        match response {
          case AuthorizationRequired =>
            authorizationBlocked := true;
            retryAt := None;
            recoveryAt := now;
          case RetryAfterRecovery =>
            recoveryAt := now;
            ScheduleRetry(now, multiplier);
          case Retry =>
            ScheduleRetry(now, multiplier);
        }
    }

    method Notified(now: real)
      requires Valid()
      modifies this`retryAt
      ensures Valid() && Locals() == OnNotification(old(Locals()), now)
    {
      if !authorizationBlocked && retryAt.None? { retryAt := Some(now); }
    }

    /** One pass of the `loop` in `run`: start what is due, then the branch that is ready. */
    method Pass(topAt: real, now: real, turn: Turn) returns (deadline: real)
      requires Valid() && TurnReady(LoopTop(Locals(), topAt), turn, Fraction())
      modifies this, retry, recoveryRetry
      ensures Valid() && Locals() == OnTurn(LoopTop(old(Locals()), topAt), now, turn)
      ensures deadline == Deadline(LoopTop(old(Locals()), topAt), topAt)
    {
      deadline := StartDue(topAt);
      match turn
      case RecoveryReady(update, multiplier) => FinishRecovery(now, update, multiplier);
      case BatchReady(result, multiplier) => FinishBatch(now, result, multiplier);
      case NotificationReady => Notified(now);
      case DeadlineReached =>
      case ShutdownReady => exit := Some(Stopped);
    }
  }
}
