/** The ack/retry ordering of `deliver_batch` (src/runtime/delivery.rs) with the
    spool as its queue. Sends, their classification and cancellation are chosen
    by the environment, and producers may enqueue between any two spool calls. */
module Delivery {
  import opened Outcomes
  import opened Bytes
  import opened SpoolNames
  import opened SpoolCodec
  import opened SpoolStore
  import opened SpoolDirectory
  import opened SpoolOperations

  const DELIVERY_BATCH_RECORDS := 32

  /** `Cancelled` stands for the future being dropped while a send is pending. */
  datatype BatchOutcome = Drained | BatchComplete | Failed | Cancelled

  // ---------- The ordering discipline ----------

  /** Where a batch is with its current record. */
  datatype Phase = Idle | AfterSend(id: RecordId, outcome: SendOutcome) | Durable(id: RecordId, outcome: SendOutcome)

  /** The next phase, or None for a step a batch must not take there. */
  function Advance(phase: Phase, step: Step): Option<Phase> {
    match step
    case Staged => Some(phase)
    case Published(_) => Some(phase)
    case Sent(id, outcome) => if phase.Idle? then Some(AfterSend(id, outcome)) else None
    case Removed(id) =>
      if phase.AfterSend? && phase.id == id && phase.outcome in {Delivered, Discarding}
      then Some(Durable(id, phase.outcome)) else None
    case Isolated(id, reason) =>
      if phase.Idle? && reason == Corrupt then Some(Idle)
      else if phase == AfterSend(id, Isolating(reason)) then Some(Durable(id, phase.outcome))
      else None
    case Acknowledged(id) => if phase == Durable(id, Delivered) then Some(Idle) else None
    case Discarded(id) => if phase == Durable(id, Discarding) then Some(Idle) else None
    case Quarantined(id, reason) => if phase == Durable(id, Isolating(reason)) then Some(Idle) else None
  }

  function Follow(phase: Phase, moments: seq<Moment>): Option<Phase> {
    if moments == [] then Some(phase)
    else
      var before := Follow(phase, moments[..|moments| - 1]);
      if before.None? then None else Advance(before.value, moments[|moments| - 1].step)
  }

  /** A completed send and what its answer was classed as. */
  datatype Sending = Sending(id: RecordId, outcome: SendOutcome)

  function Sends(moments: seq<Moment>): seq<Sending> {
    if moments == [] then [] else Sends(moments[..|moments| - 1]) + SendOf(moments[|moments| - 1].step)
  }

  function SendOf(step: Step): seq<Sending> { if step.Sent? then [Sending(step.id, step.outcome)] else [] }

  lemma FollowOne(phase: Phase, moments: seq<Moment>, m: Moment)
    ensures Follow(phase, moments + [m]) ==
            if Follow(phase, moments).None? then None else Advance(Follow(phase, moments).value, m.step)
    ensures Sends(moments + [m]) == Sends(moments) + SendOf(m.step)
  {
    var all := moments + [m];
    assert all[..|all| - 1] == moments;
  }

  /** Steps of other producers, and isolations by `next`, leave an idle batch idle. */
  lemma {:induction false} FollowQuiet(phase: Phase, moments: seq<Moment>, more: seq<Moment>)
    requires Follow(phase, moments).Some?
    requires forall m :: m in more ==>
               || m.step.Staged? || m.step.Published?
               || (Follow(phase, moments) == Some(Idle) && m.step.Isolated? && m.step.reason == Corrupt)
    ensures Follow(phase, moments + more) == Follow(phase, moments)
    ensures Sends(moments + more) == Sends(moments)
    decreases |more|
  {
    hide Follow, Sends;
    if more == [] {
      assert moments + more == moments;
    } else {
      var last := |more| - 1;
      FollowQuiet(phase, moments, more[..last]);
      FollowOne(phase, moments + more[..last], more[last]);
      assert moments + more == (moments + more[..last]) + [more[last]];
    }
  }

  // ---------- What the discipline means ----------

  /** Every phase but idle was entered by a send of its record. */
  lemma {:induction false} PhaseHasSend(moments: seq<Moment>)
    requires Follow(Idle, moments).Some? && !Follow(Idle, moments).value.Idle?
    ensures var phase := Follow(Idle, moments).value;
            exists j :: 0 <= j < |moments| && moments[j].step == Sent(phase.id, phase.outcome)
    decreases |moments|
  {
    var last := |moments| - 1;
    var front := moments[..last];
    var before, after := Follow(Idle, front).value, Follow(Idle, moments).value;
    if moments[last].step.Sent? {
      assert moments[last].step == Sent(after.id, after.outcome);
    } else {
      PhaseHasSend(front);
      var j :| 0 <= j < |front| && front[j].step == Sent(before.id, before.outcome);
      assert moments[j].step == Sent(after.id, after.outcome);
    }
  }

  lemma {:induction false} FollowPrefix(moments: seq<Moment>, k: nat)
    requires k <= |moments| && Follow(Idle, moments).Some?
    ensures Follow(Idle, moments[..k]).Some?
    decreases |moments|
  {
    if k == |moments| {
      assert moments[..k] == moments;
    } else {
      var front := moments[..|moments| - 1];
      FollowPrefix(front, k);
      assert front[..k] == moments[..k];
    }
  }

  /** A record leaves the store only after a completed send of that record that
      was delivered or definitively rejected. */
  lemma RemovedOnlyAfterSend(moments: seq<Moment>, k: nat)
    requires Follow(Idle, moments).Some? && k < |moments| && moments[k].step.Removed?
    ensures exists j :: 0 <= j < k && moments[j].step.Sent? && moments[j].step.id == moments[k].step.id
                        && moments[j].step.outcome in {Delivered, Discarding}
  {
    FollowPrefix(moments, k + 1);
    FollowPrefix(moments, k);
    assert moments[..k + 1][..k] == moments[..k];
    PhaseHasSend(moments[..k]);
    var phase := Follow(Idle, moments[..k]).value;
    var j :| 0 <= j < k && moments[..k][j].step == Sent(phase.id, phase.outcome);
    assert moments[j].step == Sent(phase.id, phase.outcome);
  }

  function Callback(id: RecordId, outcome: SendOutcome): Step
    requires !outcome.Retaining?
  {
    match outcome
    case Isolating(reason) => Quarantined(id, reason)
    case Discarding => Discarded(id)
    case Delivered => Acknowledged(id)
  }

  predicate DurableChange(step: Step, id: RecordId, outcome: SendOutcome) {
    match outcome
    case Isolating(reason) => step == Isolated(id, reason)
    case Retaining => false
    case _ => step == Removed(id)
  }

  lemma {:induction false} DurableHasChange(moments: seq<Moment>)
    requires Follow(Idle, moments).Some? && Follow(Idle, moments).value.Durable?
    ensures var phase := Follow(Idle, moments).value;
            exists j :: 0 <= j < |moments| && DurableChange(moments[j].step, phase.id, phase.outcome)
    decreases |moments|
  {
    var last := |moments| - 1;
    var front := moments[..last];
    var after := Follow(Idle, moments).value;
    if Follow(Idle, front).value.Durable? {
      DurableHasChange(front);
      var j :| 0 <= j < |front| && DurableChange(front[j].step, after.id, after.outcome);
      assert DurableChange(moments[j].step, after.id, after.outcome);
    } else {
      assert DurableChange(moments[last].step, after.id, after.outcome);
    }
  }

  /** Callbacks fire only after the durable change they report. */
  lemma CallbackOnlyAfterChange(moments: seq<Moment>, k: nat)
    requires Follow(Idle, moments).Some? && k < |moments|
    ensures moments[k].step.Acknowledged? || moments[k].step.Discarded? ==>
              exists j :: 0 <= j < k && moments[j].step == Removed(moments[k].step.id)
    ensures moments[k].step.Quarantined? ==>
              exists j :: 0 <= j < k && moments[j].step == Isolated(moments[k].step.id, moments[k].step.reason)
  {
    if moments[k].step.Acknowledged? || moments[k].step.Discarded? || moments[k].step.Quarantined? {
      FollowPrefix(moments, k + 1);
      FollowPrefix(moments, k);
      assert moments[..k + 1][..k] == moments[..k];
      DurableHasChange(moments[..k]);
      var phase := Follow(Idle, moments[..k]).value;
      var j :| 0 <= j < k && DurableChange(moments[..k][j].step, phase.id, phase.outcome);
      assert DurableChange(moments[j].step, phase.id, phase.outcome);
    }
  }

  /** The send at `k` was settled before the end: its change, and behind it its callback. */
  ghost predicate SettledAfter(moments: seq<Moment>, k: nat)
    requires k < |moments| && moments[k].step.Sent?
  {
    var id, outcome := moments[k].step.id, moments[k].step.outcome;
    && !outcome.Retaining?
    && exists j, l :: k < j < l < |moments| && DurableChange(moments[j].step, id, outcome)
                      && moments[l].step == Callback(id, outcome)
  }

  lemma {:induction false} SendProgress(moments: seq<Moment>, k: nat)
    requires Follow(Idle, moments).Some? && k < |moments| && moments[k].step.Sent?
    ensures var step, phase := moments[k].step, Follow(Idle, moments).value;
            || SettledAfter(moments, k)
            || phase == AfterSend(step.id, step.outcome)
            || (phase == Durable(step.id, step.outcome)
                && exists j :: k < j < |moments| && DurableChange(moments[j].step, step.id, step.outcome))
    decreases |moments|
  {
    var last := |moments| - 1;
    var front, step := moments[..last], moments[k].step;
    if k < last {
      SendProgress(front, k);
      if SettledAfter(front, k) {
        var j, l :| k < j < l < last && DurableChange(front[j].step, step.id, step.outcome)
                    && front[l].step == Callback(step.id, step.outcome);
        assert moments[j] == front[j] && moments[l] == front[l];
      } else if Follow(Idle, front).value.Durable? {
        var j :| k < j < last && DurableChange(front[j].step, step.id, step.outcome);
        assert moments[j] == front[j] && moments[last].step == moments[last].step;
      } else {
        assert DurableChange(moments[last].step, step.id, step.outcome) || Follow(Idle, moments) == Follow(Idle, front);
      }
    }
  }

  /** Once a batch is idle again, every send of it was settled: acknowledged,
      discarded or isolated durably, and then reported. */
  lemma EverySendSettled(moments: seq<Moment>, k: nat)
    requires Follow(Idle, moments) == Some(Idle) && k < |moments| && moments[k].step.Sent?
    ensures var id := moments[k].step.id;
            match moments[k].step.outcome
            case Delivered =>
              exists j, l ::
                k < j < l < |moments| && moments[j].step == Removed(id) && moments[l].step == Acknowledged(id)
            case Discarding =>
              exists j, l ::
                k < j < l < |moments| && moments[j].step == Removed(id) && moments[l].step == Discarded(id)
            case Isolating(reason) =>
              exists j, l ::
                && k < j < l < |moments| && moments[j].step == Isolated(id, reason)
                && moments[l].step == Quarantined(id, reason)
            case Retaining => false
  {
    SendProgress(moments, k);
  }

  // ---------- The environment ----------

  /** Every record file is still there with its bytes. */
  ghost predicate Grown(before: Files, after: Files) {
    forall n :: n in before && ParseName(n).Ok? ==> n in after && after[n] == before[n]
  }

  lemma CreationGrows(before: Files, f: Files, nonce: RecordId, target: string, bytes: seq<byte>)
    requires CreationState(before, f, nonce, target, bytes)
    ensures Grown(before, f)
  {
    hide ParseName, TempName;
    TemporaryNames(nonce);
    TemporaryIsNoRecord(TempName(nonce));
  }

  lemma GrownTwice(a: Files, b: Files, c: Files)
    requires Grown(a, b) && Grown(b, c)
    ensures Grown(a, c)
  {
    hide ParseName;
  }

  /** A current directory stays current as long as the device fails no call. */
  ghost predicate KeptCurrent(before: Files, faults: nat, spool: Spool)
    reads spool.directory, spool.directory.device
  {
    Current(before, spool.lim) && spool.directory.device.faults == faults ==> Current(spool.directory.files, spool.lim)
  }

  /** Any number of enqueues by other threads. */
  method Producers(spool: Spool)
    requires spool.Valid()
    modifies spool.directory, spool.directory.device
    ensures spool.Valid() && spool.directory.origin == old(spool.directory.origin)
    ensures old(spool.directory.timeline) <= spool.directory.timeline
    ensures forall m :: m in Since(old(spool.directory.timeline), spool.directory.timeline) ==>
              m.step.Staged? || m.step.Published?
    ensures Grown(old(spool.directory.files), spool.directory.files)
    ensures KeptCurrent(old(spool.directory.files), old(spool.directory.device.faults), spool)
    ensures old(spool.directory.device.faults) <= spool.directory.device.faults
  {
    hide ParseName, Lawful, Current, Recoverable, Encode, IsContainer, CreationState, Total;
    var rounds: nat := *;
    while rounds > 0
      invariant spool.Valid() && spool.directory.origin == old(spool.directory.origin)
      invariant old(spool.directory.timeline) <= spool.directory.timeline
      invariant forall m :: m in Since(old(spool.directory.timeline), spool.directory.timeline) ==>
                  m.step.Staged? || m.step.Published?
      invariant Grown(old(spool.directory.files), spool.directory.files)
      invariant KeptCurrent(old(spool.directory.files), old(spool.directory.device.faults), spool)
      invariant old(spool.directory.device.faults) <= spool.directory.device.faults
    {
      ghost var was, held := spool.directory.timeline, spool.directory.files;
      EnqueueByAnother(spool);
      assert Since(old(spool.directory.timeline), spool.directory.timeline)
          == Since(old(spool.directory.timeline), was) + Since(was, spool.directory.timeline);
      GrownTwice(old(spool.directory.files), held, spool.directory.files);
      rounds := rounds - 1;
    }
  }

  method EnqueueByAnother(spool: Spool)
    requires spool.Valid()
    modifies spool.directory, spool.directory.device
    ensures spool.Valid() && spool.directory.origin == old(spool.directory.origin)
    ensures old(spool.directory.timeline) <= spool.directory.timeline
    ensures forall m :: m in Since(old(spool.directory.timeline), spool.directory.timeline) ==>
              m.step.Staged? || m.step.Published?
    ensures Grown(old(spool.directory.files), spool.directory.files)
    ensures KeptCurrent(old(spool.directory.files), old(spool.directory.device.faults), spool)
    ensures old(spool.directory.device.faults) <= spool.directory.device.faults
  {
    hide ParseName, Lawful, Current, Recoverable, Encode, IsContainer, Total, RecordName, IsPartial;
    var contract: ContractId := *;
    var created: int :| I64(created);
    var priority: byte := *;
    var payload: seq<byte> := *;
    var id: RecordId := *;
    var nonce: RecordId := *;
    ghost var held := spool.directory.files;
    var r := spool.Enqueue(contract, created, priority, payload, id, nonce);
    if |payload| <= spool.lim.maxRecord && created >= 0 {
      ghost var n := Name(id, priority, created, None);
      ghost var bytes := Encode(SpoolRecord(id, contract, created, payload), priority, spool.sha).value;
      CreationGrows(held, spool.directory.files, nonce, RecordName(n), bytes);
    }
  }

  /** The steps taken since `start`, and the phase they lead to. */
  ghost function PhaseSince(start: seq<Moment>, now: seq<Moment>): Option<Phase>
    requires start <= now
  {
    Follow(Idle, Since(start, now))
  }

  ghost function SendsSince(start: seq<Moment>, now: seq<Moment>): seq<Sending>
    requires start <= now
  {
    Sends(Since(start, now))
  }

  lemma SinceThrough(start: seq<Moment>, middle: seq<Moment>, now: seq<Moment>)
    requires start <= middle <= now
    ensures Since(start, now) == Since(start, middle) + Since(middle, now)
  {
  }

  lemma QuietSince(start: seq<Moment>, middle: seq<Moment>, now: seq<Moment>)
    requires start <= middle <= now && PhaseSince(start, middle).Some?
    requires forall m :: m in Since(middle, now) ==>
               || m.step.Staged? || m.step.Published?
               || (PhaseSince(start, middle) == Some(Idle) && m.step.Isolated? && m.step.reason == Corrupt)
    ensures PhaseSince(start, now) == PhaseSince(start, middle) && SendsSince(start, now) == SendsSince(start, middle)
  {
    hide Follow, Sends;
    SinceThrough(start, middle, now);
    FollowQuiet(Idle, Since(start, middle), Since(middle, now));
  }

  lemma OneSince(start: seq<Moment>, middle: seq<Moment>, m: Moment)
    requires start <= middle && PhaseSince(start, middle).Some?
    ensures start <= middle + [m]
    ensures PhaseSince(start, middle + [m]) == Advance(PhaseSince(start, middle).value, m.step)
    ensures SendsSince(start, middle + [m]) == SendsSince(start, middle) + SendOf(m.step)
  {
    hide Follow, Sends, Advance;
    assert Since(start, middle + [m]) == Since(start, middle) + [m];
    FollowOne(Idle, Since(start, middle), m);
  }

  /** Other producers run; the batch stays where it is. */
  method Wait(spool: Spool, ghost start: seq<Moment>)
    requires spool.Valid() && start <= spool.directory.timeline && PhaseSince(start, spool.directory.timeline).Some?
    modifies spool.directory, spool.directory.device
    ensures spool.Valid() && spool.directory.origin == old(spool.directory.origin) && start <= spool.directory.timeline
    ensures PhaseSince(start, spool.directory.timeline) == PhaseSince(start, old(spool.directory.timeline))
    ensures SendsSince(start, spool.directory.timeline) == SendsSince(start, old(spool.directory.timeline))
    ensures old(spool.directory.timeline) <= spool.directory.timeline
    ensures forall m :: m in Since(old(spool.directory.timeline), spool.directory.timeline) ==>
              m.step.Staged? || m.step.Published?
    ensures Grown(old(spool.directory.files), spool.directory.files)
    ensures KeptCurrent(old(spool.directory.files), old(spool.directory.device.faults), spool)
    ensures old(spool.directory.device.faults) <= spool.directory.device.faults
  {
    hide PhaseSince, SendsSince, Grown, ParseName, Lawful, Current;
    Producers(spool);
    QuietSince(start, old(spool.directory.timeline), spool.directory.timeline);
  }

  /** A step that touches nothing: a completed send or a callback. */
  ghost method Observe(spool: Spool, start: seq<Moment>, step: Step)
    requires spool.Valid() && start <= spool.directory.timeline && PhaseSince(start, spool.directory.timeline).Some?
    requires step.Sent? || step.Acknowledged? || step.Discarded? || step.Quarantined?
    requires step.Sent? ==> StillPending(spool.directory.files, step.id)
    modifies spool.directory`timeline
    ensures spool.Valid() && start <= spool.directory.timeline
    ensures spool.directory.timeline == old(spool.directory.timeline) + [Moment(step, spool.directory.files)]
    ensures PhaseSince(start, spool.directory.timeline)
         == Advance(PhaseSince(start, old(spool.directory.timeline)).value, step)
    ensures SendsSince(start, spool.directory.timeline)
         == SendsSince(start, old(spool.directory.timeline)) + SendOf(step)
  {
    hide PhaseSince, SendsSince, Advance, ParseName, Lawful;
    spool.directory.Record(step);
    OneSince(start, old(spool.directory.timeline), Moment(step, spool.directory.files));
  }

  // ---------- deliver_batch ----------

  lemma HeadIsPending(before: Files, after: Files, name: string, record: SpoolRecord, spool: Spool)
    requires IsHead(before, name, record, spool.lim, spool.sha)
    requires Isolation(before, after, PendingBefore(before, name))
    ensures StillPending(after, record.id)
  {
    hide Decode, RecordName, Isolation, PendingBefore, TextBefore;
    var n := ParseName(name).value;
    HeadNotBefore(before, name);
    IsolationKeeps(before, after, PendingBefore(before, name), name);
    DecodeExact(before[name], n, spool.lim.maxRecord, spool.sha, record);
  }

  lemma HeadNotBefore(files: Files, name: string)
    ensures name !in PendingBefore(files, name)
  {
    hide ParseName;
    BeforeIrreflexive(CharBefore, name);
  }

  lemma PendingStays(before: Files, after: Files, record: SpoolRecord)
    requires StillPending(before, record.id) && Grown(before, after)
    ensures StillPending(after, record.id)
  {
    hide ParseName, RecordName;
    var n: Name :| n.id == record.id && n.quarantined.None? && Holds(before, n);
    ParseOfRecordName(n);
    assert Holds(after, n);
  }

  // ---------- Which record a send is about, and which errors end a batch ----------

  /** The k-th moment is the send of a record that was the first readable pending
      one when the batch asked for it, at some moment not before `from`; in between
      others only enqueued, and unreadable records were isolated. */
  ghost predicate SentFromHead(
    origin: Files, timeline: seq<Moment>, from: nat, k: nat, lim: Limits, sha: Digest)
  {
    && from <= k < |timeline| && timeline[k].step.Sent?
    && exists j: nat, name, record ::
         && from <= j <= k && IsHead(StateAt(origin, timeline, j), name, record, lim, sha)
         && record.id == timeline[k].step.id
         && forall i :: j <= i < k ==> !timeline[i].step.Sent? && !timeline[i].step.Removed?
  }

  ghost predicate AllSentFromHead(origin: Files, timeline: seq<Moment>, from: nat, lim: Limits, sha: Digest) {
    forall k: nat :: from <= k < |timeline| && timeline[k].step.Sent? ==>
      SentFromHead(origin, timeline, from, k, lim, sha)
  }

  lemma SentStays(origin: Files, was: seq<Moment>, now: seq<Moment>, from: nat, k: nat, lim: Limits, sha: Digest)
    requires SentFromHead(origin, was, from, k, lim, sha) && was <= now
    ensures SentFromHead(origin, now, from, k, lim, sha)
  {
    hide IsHead;
    var j: nat, name, record :|
      && from <= j <= k && IsHead(StateAt(origin, was, j), name, record, lim, sha)
      && record.id == was[k].step.id
      && forall i :: j <= i < k ==> !was[i].step.Sent? && !was[i].step.Removed?;
    assert StateAt(origin, now, j) == StateAt(origin, was, j);
  }

  lemma NoMoreSends(origin: Files, was: seq<Moment>, now: seq<Moment>, from: nat, lim: Limits, sha: Digest)
    requires AllSentFromHead(origin, was, from, lim, sha) && was <= now
    requires forall m :: m in Since(was, now) ==> !m.step.Sent?
    ensures AllSentFromHead(origin, now, from, lim, sha)
  {
    hide SentFromHead;
    forall k | |was| <= k < |now| ensures !now[k].step.Sent? { assert now[k] in Since(was, now); }
    forall k: nat | from <= k < |now| && now[k].step.Sent? ensures SentFromHead(origin, now, from, k, lim, sha) {
      SentStays(origin, was, now, from, k, lim, sha);
    }
  }

  lemma OneMoreSend(
    origin: Files, was: seq<Moment>, asked: seq<Moment>, now: seq<Moment>, from: nat, name: string,
    record: SpoolRecord, lim: Limits, sha: Digest)
    requires AllSentFromHead(origin, was, from, lim, sha) && from <= |was| && was <= asked < now
    requires forall m :: m in Since(was, now[..|now| - 1]) ==> !m.step.Sent? && !m.step.Removed?
    requires IsHead(StateAt(origin, asked, |asked|), name, record, lim, sha)
    requires now[|now| - 1].step.Sent? && now[|now| - 1].step.id == record.id
    ensures AllSentFromHead(origin, now, from, lim, sha)
  {
    hide IsHead;
    var front, k := now[..|now| - 1], |now| - 1;
    NoMoreSends(origin, was, front, from, lim, sha);
    forall i | |asked| <= i < k ensures !now[i].step.Sent? && !now[i].step.Removed? {
      assert now[i] in Since(was, front);
    }
    assert StateAt(origin, now, |asked|) == StateAt(origin, asked, |asked|);
    assert SentFromHead(origin, now, from, k, lim, sha);
    hide SentFromHead;
    forall i: nat | from <= i < |now| && now[i].step.Sent? ensures SentFromHead(origin, now, from, i, lim, sha) {
      if i < k { SentStays(origin, front, now, from, i, lim, sha); }
    }
  }

  /** Why `next` answers an error, faults of the device aside. */
  ghost predicate NextRefused(files: Files, spool: Spool, error: SpoolError) {
    || Refusal(files, spool.lim) == Some(error)
    || (error == DestinationExists && exists n :: IsolationBlocked(files, n, spool.lim, spool.sha))
  }

  /** Why the acknowledgement or isolation of a record answers an error, faults aside. */
  ghost predicate ChangeRefused(files: Files, lim: Limits, id: RecordId, outcome: SendOutcome, error: SpoolError) {
    || LookupRefused(files, lim, id, error)
    || (&& outcome.Isolating? && error == DestinationExists
        && exists n: Name :: n.id == id && SolePending(files, n)
             && RecordName(IsolatedName(n, outcome.reason)) in files)
  }

  /** In a current directory the sole pending record of an identifier is always
      settled, faults aside; only an isolated name that is taken stands in the way. */
  lemma SettlesUnlessTaken(files: Files, lim: Limits, n: Name, outcome: SendOutcome, error: SpoolError)
    requires Current(files, lim) && SolePending(files, n) && ChangeRefused(files, lim, n.id, outcome, error)
    ensures outcome.Isolating? && error == DestinationExists
    ensures RecordName(IsolatedName(n, outcome.reason)) in files
  {
    hide RecordName, Current, LookupRefused;
    SoleIsFound(files, lim, n, error);
  }

  /** What a settled record leaves behind, whatever producers add afterwards. */
  ghost predicate SettledFrom(files: Files, now: Files, id: RecordId, outcome: SendOutcome) {
    exists n: Name :: n.id == id && SolePending(files, n)
      && if outcome.Isolating?
         then Grown(Renamed(files, RecordName(n), RecordName(IsolatedName(n, outcome.reason))), now)
         else Grown(files - {RecordName(n)}, now)
  }

  /** The directory was in this state at some moment of this part of the history. */
  ghost predicate Passed(origin: Files, was: seq<Moment>, now: seq<Moment>, files: Files) {
    exists k :: |was| <= k <= |now| && files == StateAt(origin, now, k)
  }

  lemma PassedNow(spool: Spool, was: seq<Moment>)
    requires spool.Valid() && was <= spool.directory.timeline
    ensures Passed(spool.directory.origin, was, spool.directory.timeline, spool.directory.files)
  {
    hide Lawful;
  }

  lemma PassedAt(origin: Files, was: seq<Moment>, middle: seq<Moment>, now: seq<Moment>)
    requires was <= middle <= now
    ensures Passed(origin, was, now, StateAt(origin, middle, |middle|))
  {
    assert StateAt(origin, now, |middle|) == StateAt(origin, middle, |middle|);
  }

  lemma PassedStill(origin: Files, was: seq<Moment>, middle: seq<Moment>, now: seq<Moment>, files: Files)
    requires Passed(origin, was, middle, files) && middle <= now
    ensures Passed(origin, was, now, files)
  {
    var k :| |was| <= k <= |middle| && files == StateAt(origin, middle, k);
    assert files == StateAt(origin, now, k);
  }

  lemma NothingSent(spool: Spool)
    ensures AllSentFromHead(spool.directory.origin, spool.directory.timeline, |spool.directory.timeline|, spool.lim,
              spool.sha)
  {
  }

  ghost predicate FaultedSince(faults: nat, spool: Spool, error: SpoolError)
    reads spool.directory.device
  {
    error in {Io, PublishedDurabilityUnknown} && faults < spool.directory.device.faults
  }

  // ---------- deliver_batch, call by call ----------

  /** At most 32 records; the new part of the timeline follows the discipline. On
      an error `at` is the directory the failing call found. */
  method DeliverBatch(spool: Spool, adapter: Adapter)
    returns (r: Result<BatchOutcome, SpoolError>, current: Option<SpoolRecord>, ghost at: Files)
    requires spool.Valid()
    modifies spool.directory, spool.directory.device, adapter
    ensures spool.Valid() && spool.directory.origin == old(spool.directory.origin)
    ensures old(spool.directory.timeline) <= spool.directory.timeline
    ensures var start, now := old(spool.directory.timeline), spool.directory.timeline;
            && PhaseSince(start, now).Some?
            && |SendsSince(start, now)| <= DELIVERY_BATCH_RECORDS
            && adapter.completed == old(adapter.completed) + SendsSince(start, now)
            && (r.Ok? && !r.value.Failed? ==> PhaseSince(start, now) == Some(Idle))
            && (r == Ok(BatchComplete) ==> |SendsSince(start, now)| == DELIVERY_BATCH_RECORDS)
            && (r == Ok(Failed) ==>
                  current.Some? && PhaseSince(start, now) == Some(AfterSend(current.value.id, Retaining)))
            && AllSentFromHead(spool.directory.origin, now, |start|, spool.lim, spool.sha)
            && Passed(spool.directory.origin, start, now, at)
            && (r.Err? ==>
                  || FaultedSince(old(spool.directory.device.faults), spool, r.error)
                  || (current.None? && NextRefused(at, spool, r.error))
                  || (current.Some? && exists outcome: SendOutcome ::
                        && PhaseSince(start, now) == Some(AfterSend(current.value.id, outcome))
                        && ChangeRefused(at, spool.lim, current.value.id, outcome, r.error)))
    ensures adapter.drops == old(adapter.drops) + if r == Ok(Cancelled) then 1 else 0
    ensures r == Ok(Drained) ==> Pending(spool.directory.files) == {}
    ensures r == Ok(Failed) || r == Ok(Cancelled) ==>
              current.Some? && StillPending(spool.directory.files, current.value.id)
  {
    hide PhaseSince, SendsSince, ParseName, Lawful, Current, Pending, StillPending, AllSentFromHead, ChangeRefused,
      NextRefused, SettledFrom, Grown, KeptCurrent, Passed;
    ghost var start := spool.directory.timeline;
    current, at := None, spool.directory.files;
    NothingSince(start);
    PassedNow(spool, start);
    assert AllSentFromHead(spool.directory.origin, start, |start|, spool.lim, spool.sha) by { NothingSent(spool); }
    for sent := 0 to DELIVERY_BATCH_RECORDS
      invariant spool.Valid() && spool.directory.origin == old(spool.directory.origin)
      invariant start <= spool.directory.timeline
      invariant PhaseSince(start, spool.directory.timeline) == Some(Idle)
      invariant |SendsSince(start, spool.directory.timeline)| == sent && adapter.drops == old(adapter.drops)
      invariant adapter.completed == old(adapter.completed) + SendsSince(start, spool.directory.timeline)
      invariant old(spool.directory.device.faults) <= spool.directory.device.faults
      invariant AllSentFromHead(spool.directory.origin, spool.directory.timeline, |start|, spool.lim, spool.sha)
      invariant Passed(spool.directory.origin, start, spool.directory.timeline, at)
    {
      var fetched;
      fetched, at := Fetch(spool, adapter, start);
      if fetched.Err? { return Err(fetched.error), None, at; }
      if fetched.value.NothingLeft? { return Ok(Drained), None, at; }
      current := Some(fetched.value.record);
      if fetched.value.Dropped? { return Ok(Cancelled), current, at; }
      ghost var t2 := spool.directory.timeline;
      var settled;
      settled, at := Settle(spool, start, fetched.value.record, fetched.value.outcome);
      NoMoreSends(spool.directory.origin, t2, spool.directory.timeline, |start|, spool.lim, spool.sha);
      if settled.Err? { return Err(settled.error), current, at; }
      if fetched.value.outcome.Retaining? { return Ok(Failed), current, at; }
    }
    return Ok(BatchComplete), None, at;
  }

  lemma NothingSince(start: seq<Moment>)
    ensures PhaseSince(start, start) == Some(Idle) && SendsSince(start, start) == []
  {
    assert Since(start, start) == [];
  }

  /** `adapter.send(..)`: the environment answers, or the future is dropped while the
      send is pending. */
  class Adapter {
    ghost var completed: seq<Sending>
    ghost var drops: nat

    constructor ()
      ensures completed == [] && drops == 0
    {
      completed, drops := [], 0;
    }

    method Send(record: SpoolRecord) returns (outcome: Option<SendOutcome>)
      modifies this
      ensures if outcome.Some?
              then completed == old(completed) + [Sending(record.id, outcome.value)] && drops == old(drops)
              else completed == old(completed) && drops == old(drops) + 1
    {
      outcome := *;
      if outcome.Some? {
        completed := completed + [Sending(record.id, outcome.value)];
      } else {
        drops := drops + 1;
      }
    }
  }

  datatype Fetched = NothingLeft | Dropped(record: SpoolRecord) | SendDone(record: SpoolRecord, outcome: SendOutcome)

  /** `queue.next()`, with other producers before it. `at` is the directory it found,
      at the end of `asked`. */
  method Ask(spool: Spool, ghost start: seq<Moment>)
    returns (r: Result<Option<SpoolRecord>, SpoolError>, ghost at: Files, ghost asked: seq<Moment>)
    requires spool.Valid() && start <= spool.directory.timeline
    requires PhaseSince(start, spool.directory.timeline) == Some(Idle)
    modifies spool.directory, spool.directory.device
    ensures spool.Valid() && spool.directory.origin == old(spool.directory.origin)
    ensures start <= old(spool.directory.timeline) <= asked <= spool.directory.timeline
    ensures old(spool.directory.device.faults) <= spool.directory.device.faults
    ensures PhaseSince(start, spool.directory.timeline) == Some(Idle)
    ensures SendsSince(start, spool.directory.timeline) == SendsSince(start, old(spool.directory.timeline))
    ensures forall m :: m in Since(old(spool.directory.timeline), spool.directory.timeline) ==>
              !m.step.Sent? && !m.step.Removed?
    ensures at == StateAt(spool.directory.origin, asked, |asked|)
    ensures r == Ok(None) ==> Pending(spool.directory.files) == {}
    ensures r.Ok? && r.value.Some? ==>
              && StillPending(spool.directory.files, r.value.value.id)
              && exists name :: IsHead(at, name, r.value.value, spool.lim, spool.sha)
    ensures r.Err? ==>
              FaultedSince(old(spool.directory.device.faults), spool, r.error) || NextRefused(at, spool, r.error)
  {
    hide PhaseSince, SendsSince, ParseName, Lawful, Current, Pending, Isolation, Grown, StillPending, RecordName,
      IsHead, Readable, KeptCurrent, PendingBefore, IsolationBlocked, StateAt;
    ghost var t0 := spool.directory.timeline;
    Wait(spool, start);
    asked, at := spool.directory.timeline, spool.directory.files;
    assert at == StateAt(spool.directory.origin, asked, |asked|);
    ghost var bad;
    r, bad := spool.Next();
    QuietSince(start, asked, spool.directory.timeline);
    SinceThrough(t0, asked, spool.directory.timeline);
    if r == Ok(None) {
      DrainedIsEmpty(at, spool.directory.files, bad);
    } else if r.Ok? {
      ghost var name :| IsHead(at, name, r.value.value, spool.lim, spool.sha) && bad == PendingBefore(at, name);
      HeadIsPending(at, spool.directory.files, name, r.value.value, spool);
    }
  }

  /** `queue.next()` and `adapter.send(..).await`: drained, cancelled while
      pending, or a completed send. */
  method Fetch(spool: Spool, adapter: Adapter, ghost start: seq<Moment>)
    returns (r: Result<Fetched, SpoolError>, ghost at: Files)
    requires spool.Valid() && start <= spool.directory.timeline
    requires PhaseSince(start, spool.directory.timeline) == Some(Idle)
    requires AllSentFromHead(spool.directory.origin, spool.directory.timeline, |start|, spool.lim, spool.sha)
    modifies spool.directory, spool.directory.device, adapter
    ensures spool.Valid() && spool.directory.origin == old(spool.directory.origin) && start <= spool.directory.timeline
    ensures old(spool.directory.device.faults) <= spool.directory.device.faults
    ensures var sends := SendsSince(start, old(spool.directory.timeline));
            if r.Ok? && r.value.SendDone? then
              var sending := Sending(r.value.record.id, r.value.outcome);
              && PhaseSince(start, spool.directory.timeline) == Some(AfterSend(r.value.record.id, r.value.outcome))
              && SendsSince(start, spool.directory.timeline) == sends + [sending]
              && adapter.completed == old(adapter.completed) + [sending]
            else
              && PhaseSince(start, spool.directory.timeline) == Some(Idle)
              && SendsSince(start, spool.directory.timeline) == sends && adapter.completed == old(adapter.completed)
    ensures adapter.drops == old(adapter.drops) + if r.Ok? && r.value.Dropped? then 1 else 0
    ensures r.Ok? && r.value.NothingLeft? ==> Pending(spool.directory.files) == {}
    ensures r.Ok? && !r.value.NothingLeft? ==>
              && StillPending(spool.directory.files, r.value.record.id)
              && exists name :: IsHead(at, name, r.value.record, spool.lim, spool.sha)
    ensures r.Err? ==>
              FaultedSince(old(spool.directory.device.faults), spool, r.error) || NextRefused(at, spool, r.error)
    ensures Passed(spool.directory.origin, start, spool.directory.timeline, at)
    ensures AllSentFromHead(spool.directory.origin, spool.directory.timeline, |start|, spool.lim, spool.sha)
  {
    hide PhaseSince, SendsSince, ParseName, Lawful, Current, Pending, Grown, StillPending, RecordName, IsHead,
      KeptCurrent, AllSentFromHead, IsolationBlocked, Passed, StateAt, NextRefused;
    ghost var origin, t0 := spool.directory.origin, spool.directory.timeline;
    var next;
    ghost var asked;
    next, at, asked := Ask(spool, start);
    ghost var t2, f2 := spool.directory.timeline, spool.directory.files;
    PassedAt(origin, start, asked, t2);
    NoMoreSends(origin, t0, t2, |start|, spool.lim, spool.sha);
    if next.Err? { return Err(next.error), at; }
    if next.value.None? { return Ok(NothingLeft), at; }
    var record := next.value.value;
    ghost var name :| IsHead(at, name, record, spool.lim, spool.sha);
    Wait(spool, start);
    ghost var t3 := spool.directory.timeline;
    PendingStays(f2, spool.directory.files, record);
    PassedStill(origin, start, t2, t3, at);
    NoMoreSends(origin, t2, t3, |start|, spool.lim, spool.sha);
    var answer := adapter.Send(record);
    if answer.None? { return Ok(Dropped(record)), at; }
    Observe(spool, start, Sent(record.id, answer.value));
    SinceThrough(t0, t2, t3);
    assert spool.directory.timeline[..|t3|] == t3;
    OneMoreSend(origin, t0, asked, spool.directory.timeline, |start|, name, record, spool.lim, spool.sha);
    PassedStill(origin, start, t3, spool.directory.timeline, at);
    return Ok(SendDone(record, answer.value)), at;
  }

  lemma DrainedIsEmpty(before: Files, after: Files, bad: set<string>)
    requires Isolation(before, after, bad) && bad == Pending(before)
    ensures Pending(after) == {}
  {
    hide ParseName, IsPending, BadName;
    forall n | n in after ensures !IsPending(n) {
      if n in BadNames(bad) {
        var m :| m in bad && n == BadName(m);
        assert IsPending(m);
        BadNameFacts(m);
      }
    }
  }

  /** What follows a completed send, without an await: the durable change and
      its callback. `at` is the directory the change found. */
  method Settle(spool: Spool, ghost start: seq<Moment>, record: SpoolRecord, outcome: SendOutcome)
    returns (r: Result<(), SpoolError>, ghost at: Files)
    requires spool.Valid() && start <= spool.directory.timeline
    requires PhaseSince(start, spool.directory.timeline) == Some(AfterSend(record.id, outcome))
    requires StillPending(spool.directory.files, record.id)
    modifies spool.directory, spool.directory.device
    ensures spool.Valid() && spool.directory.origin == old(spool.directory.origin) && start <= spool.directory.timeline
    ensures old(spool.directory.timeline) <= spool.directory.timeline
    ensures old(spool.directory.device.faults) <= spool.directory.device.faults
    ensures PhaseSince(start, spool.directory.timeline).Some?
    ensures SendsSince(start, spool.directory.timeline) == SendsSince(start, old(spool.directory.timeline))
    ensures forall m :: m in Since(old(spool.directory.timeline), spool.directory.timeline) ==> !m.step.Sent?
    ensures outcome.Retaining? ==> r.Ok? && spool.directory.timeline == old(spool.directory.timeline)
                                   && StillPending(spool.directory.files, record.id)
    ensures r.Ok? && !outcome.Retaining? ==>
              && PhaseSince(start, spool.directory.timeline) == Some(Idle)
              && SettledFrom(at, spool.directory.files, record.id, outcome)
              && old(spool.directory.timeline) < spool.directory.timeline
              && spool.directory.timeline[|spool.directory.timeline| - 1].step == Callback(record.id, outcome)
    ensures r.Err? ==>
              || FaultedSince(old(spool.directory.device.faults), spool, r.error)
              || (&& ChangeRefused(at, spool.lim, record.id, outcome, r.error)
                  && PhaseSince(start, spool.directory.timeline) == Some(AfterSend(record.id, outcome)))
    ensures Grown(old(spool.directory.files), at)
    ensures Passed(spool.directory.origin, start, spool.directory.timeline, at)
    ensures Current(old(spool.directory.files), spool.lim) ==>
              old(spool.directory.device.faults) < spool.directory.device.faults || Current(at, spool.lim)
  {
    hide PhaseSince, SendsSince, ParseName, Lawful, Current, Grown, StillPending, RecordName, SolePending, Renamed,
      LookupRefused, ChangeRefused, Passed, StateAt, SettledFrom;
    at := spool.directory.files;
    ghost var origin, t0 := spool.directory.origin, spool.directory.timeline;
    PassedNow(spool, start);
    GrownRefl(at);
    if outcome.Retaining? { return Ok(()), at; }
    Wait(spool, start);
    at := spool.directory.files;
    ghost var t1 := spool.directory.timeline;
    PassedNow(spool, start);
    r := Change(spool, start, record.id, outcome);
    ghost var t2, f2 := spool.directory.timeline, spool.directory.files;
    SinceThrough(t0, t1, t2);
    PassedStill(origin, start, t1, t2, at);
    if r.Err? { return; }
    Wait(spool, start);
    ghost var t3 := spool.directory.timeline;
    SinceThrough(t0, t2, t3);
    SettledStill(at, f2, spool.directory.files, record.id, outcome);
    Observe(spool, start, Callback(record.id, outcome));
    SinceThrough(t0, t3, spool.directory.timeline);
    PassedStill(origin, start, t2, spool.directory.timeline, at);
  }

  /** The acknowledgement or isolation itself. An error may follow the change. */
  method Change(spool: Spool, ghost start: seq<Moment>, id: RecordId, outcome: SendOutcome)
    returns (r: Result<(), SpoolError>)
    requires spool.Valid() && start <= spool.directory.timeline && !outcome.Retaining?
    requires PhaseSince(start, spool.directory.timeline) == Some(AfterSend(id, outcome))
    modifies spool.directory, spool.directory.device
    ensures spool.Valid() && spool.directory.origin == old(spool.directory.origin) && start <= spool.directory.timeline
    ensures old(spool.directory.timeline) <= spool.directory.timeline
    ensures old(spool.directory.device.faults) <= spool.directory.device.faults
    ensures PhaseSince(start, spool.directory.timeline)
         == Some(if spool.directory.timeline == old(spool.directory.timeline)
                                                                then AfterSend(id, outcome) else Durable(id, outcome))
    ensures SendsSince(start, spool.directory.timeline) == SendsSince(start, old(spool.directory.timeline))
    ensures forall m :: m in Since(old(spool.directory.timeline), spool.directory.timeline) ==> !m.step.Sent?
    ensures r.Ok? ==>
              && spool.directory.timeline != old(spool.directory.timeline)
              && SettledFrom(old(spool.directory.files), spool.directory.files, id, outcome)
    ensures r.Err? ==>
              || FaultedSince(old(spool.directory.device.faults), spool, r.error)
              || (&& ChangeRefused(old(spool.directory.files), spool.lim, id, outcome, r.error)
                  && spool.directory.timeline == old(spool.directory.timeline))
  {
    hide PhaseSince, SendsSince, ParseName, Lawful, Current, RecordName, SolePending, Renamed, Grown, LookupRefused,
      StateAt;
    ghost var before := spool.directory.timeline;
    ghost var change := if outcome.Isolating? then Isolated(id, outcome.reason) else Removed(id);
    if outcome.Isolating? {
      r := spool.Quarantine(id, outcome.reason);
    } else {
      r := spool.Ack(id);
    }
    GrownRefl(spool.directory.files);
    if spool.directory.timeline != before {
      OneSince(start, before, Moment(change, spool.directory.files));
    }
  }

  lemma GrownRefl(files: Files)
    ensures Grown(files, files)
  {
  }

  lemma SettledStill(files: Files, middle: Files, now: Files, id: RecordId, outcome: SendOutcome)
    requires SettledFrom(files, middle, id, outcome) && Grown(middle, now)
    ensures SettledFrom(files, now, id, outcome)
  {
    hide Grown, Renamed, RecordName, ParseName;
    var n: Name :| n.id == id && SolePending(files, n)
      && if outcome.Isolating?
         then Grown(Renamed(files, RecordName(n), RecordName(IsolatedName(n, outcome.reason))), middle)
         else Grown(files - {RecordName(n)}, middle);
    var left := if outcome.Isolating? then Renamed(files, RecordName(n), RecordName(IsolatedName(n, outcome.reason)))
                else files - {RecordName(n)};
    GrownTwice(left, middle, now);
  }
}
