/** Delivery over any number of batches, cancellations, process stops and restarts:
    the history is a chain of stretches, each of them as far as one batch got. */
module DeliveryHistory {
  import opened Outcomes
  import opened SpoolNames
  import opened SpoolStore
  import opened SpoolCodec
  import opened SpoolDirectory
  import opened SpoolOperations
  import opened SpoolHistory
  import opened Delivery

  function Flatten(stretches: seq<seq<Moment>>): seq<Moment> {
    if stretches == [] then [] else Flatten(stretches[..|stretches| - 1]) + stretches[|stretches| - 1]
  }

  /** Each stretch follows the discipline of a batch from its start; a stop may cut
      it anywhere. */
  ghost predicate Batches(stretches: seq<seq<Moment>>) {
    forall s :: s in stretches ==> Follow(Idle, s).Some?
  }

  /** Opening the spool and enqueueing are stretches as well. */
  lemma {:induction false} QuietStretch(s: seq<Moment>)
    requires forall m :: m in s ==> m.step.Staged? || m.step.Published?
    ensures Follow(Idle, s) == Some(Idle)
  {
    FollowQuiet(Idle, [], s);
    assert [] + s == s;
  }

  // ---------- What every history satisfies ----------

  /** A removal, or a callback. */
  predicate NeedsGround(step: Step) { step.Removed? || step.Acknowledged? || step.Discarded? || step.Quarantined? }

  /** The earlier step is the reason for the later one: a send for a removal, the
      durable change for a callback. */
  predicate Grounds(earlier: Step, later: Step) {
    match later
    case Removed(id) => earlier.Sent? && earlier.id == id && earlier.outcome in {Delivered, Discarding}
    case Acknowledged(id) => earlier == Removed(id)
    case Discarded(id) => earlier == Removed(id)
    case Quarantined(id, reason) => earlier == Isolated(id, reason)
    case _ => false
  }

  ghost predicate InOrder(moments: seq<Moment>) {
    forall k :: 0 <= k < |moments| && NeedsGround(moments[k].step) ==>
      exists j :: 0 <= j < k && Grounds(moments[j].step, moments[k].step)
  }

  lemma StretchInOrder(s: seq<Moment>)
    requires Follow(Idle, s).Some?
    ensures InOrder(s)
  {
    hide Follow;
    forall k | 0 <= k < |s| && NeedsGround(s[k].step) ensures exists j :: 0 <= j < k && Grounds(s[j].step, s[k].step) {
      if s[k].step.Removed? {
        RemovedOnlyAfterSend(s, k);
      } else {
        CallbackOnlyAfterChange(s, k);
      }
    }
  }

  lemma InOrderAppend(a: seq<Moment>, b: seq<Moment>)
    requires InOrder(a) && InOrder(b)
    ensures InOrder(a + b)
  {
    hide Grounds, NeedsGround;
    var all := a + b;
    forall k | 0 <= k < |all| && NeedsGround(all[k].step)
      ensures exists j :: 0 <= j < k && Grounds(all[j].step, all[k].step)
    {
      if k >= |a| {
        var j :| 0 <= j < k - |a| && Grounds(b[j].step, b[k - |a|].step);
        assert Grounds(all[|a| + j].step, all[k].step);
      } else {
        var j :| 0 <= j < k && Grounds(a[j].step, a[k].step);
        assert Grounds(all[j].step, all[k].step);
      }
    }
  }

  lemma {:induction false} HistoryInOrder(stretches: seq<seq<Moment>>)
    requires Batches(stretches)
    ensures InOrder(Flatten(stretches))
  {
    hide InOrder, Follow;
    if stretches == [] {
      QuietStretch([]);
      StretchInOrder([]);
    } else {
      var last := |stretches| - 1;
      HistoryInOrder(stretches[..last]);
      StretchInOrder(stretches[last]);
      InOrderAppend(Flatten(stretches[..last]), stretches[last]);
    }
  }

  // ---------- Runs of the service ----------

  /** A history in stretches that starts from these files. */
  ghost predicate DeliveryRun(origin: Files, stretches: seq<seq<Moment>>) {
    Batches(stretches) && Lawful(origin, Flatten(stretches))
  }

  lemma LawfulSince(origin: Files, timeline: seq<Moment>, k: nat)
    requires Lawful(origin, timeline) && k <= |timeline|
    ensures Lawful(StateAt(origin, timeline, k), timeline[k..])
  {
    hide Transition;
    var start, rest := StateAt(origin, timeline, k), timeline[k..];
    forall j | 0 <= j < |rest| ensures Transition(StateAt(start, rest, j), rest[j].step, rest[j].files) {
      assert StateAt(start, rest, j) == StateAt(origin, timeline, k + j);
    }
  }

  lemma FlattenSnoc(stretches: seq<seq<Moment>>, s: seq<Moment>)
    ensures Flatten(stretches + [s]) == Flatten(stretches) + s
  {
    assert (stretches + [s])[..|stretches|] == stretches;
  }

  /** Opens the spool when it is not open or the environment says so, and delivers
      a batch otherwise. */
  method Serve(directory: Directory, lim: Limits, sha: Digest, spool: Option<Spool>, adapter: Adapter)
    returns (next: Option<Spool>, ghost stretch: seq<Moment>)
    requires directory.Valid() && (spool.Some? ==> spool.value.Valid() && spool.value.directory == directory)
    modifies directory, directory.device, adapter
    ensures directory.Valid() && directory.origin == old(directory.origin)
    ensures next.Some? ==> next.value.Valid() && next.value.directory == directory
    ensures directory.timeline == old(directory.timeline) + stretch && Follow(Idle, stretch).Some?
  {
    hide Lawful, Follow, Current, Recoverable, CleanedFrom, Pending, Transition, Temporaries, SendsSince, StillPending,
      ParseName;
    next := spool;
    ghost var before := directory.timeline;
    var reopen: bool := *;
    if spool.None? || reopen {
      var running: bool := *;
      var opening := OpenSpool(directory, lim, sha, running);
      next := if opening.Ok? then Some(opening.value) else None;
      QuietStretch(Since(before, directory.timeline));
    } else {
      var outcome, current;
      ghost var at;
      outcome, current, at := DeliverBatch(spool.value, adapter);
    }
    stretch := Since(before, directory.timeline);
  }

  /** The service runs as long as the environment lets it. */
  method AnyDelivery(directory: Directory, lim: Limits, sha: Digest) returns (ghost stretches: seq<seq<Moment>>)
    requires directory.Valid()
    modifies directory, directory.device
    ensures directory.Valid() && directory.origin == old(directory.origin)
    ensures directory.timeline == old(directory.timeline) + Flatten(stretches)
    ensures DeliveryRun(old(directory.files), stretches)
  {
    hide Lawful, Follow, Flatten, Batches, StateAt;
    ghost var start, origin := directory.timeline, directory.origin;
    stretches := [];
    NoStretches();
    var spool: Option<Spool> := None;
    var adapter := new Adapter();
    var rounds: nat := *;
    while rounds > 0
      invariant directory.Valid() && directory.origin == old(directory.origin)
      invariant directory.timeline == start + Flatten(stretches) && Batches(stretches)
      invariant spool.Some? ==> spool.value.Valid() && spool.value.directory == directory
    {
      ghost var stretch;
      spool, stretch := Serve(directory, lim, sha, spool, adapter);
      FlattenSnoc(stretches, stretch);
      BatchesSnoc(stretches, stretch);
      stretches := stretches + [stretch];
      rounds := rounds - 1;
    }
    LawfulSince(origin, directory.timeline, |start|);
    SameState(origin, start, Flatten(stretches));
  }

  lemma NoStretches()
    ensures Flatten([]) == [] && Batches([])
  {
  }

  lemma BatchesSnoc(stretches: seq<seq<Moment>>, s: seq<Moment>)
    requires Batches(stretches) && Follow(Idle, s).Some?
    ensures Batches(stretches + [s])
  {
    hide Follow;
  }

  lemma SameState(origin: Files, start: seq<Moment>, more: seq<Moment>)
    ensures StateAt(origin, start + more, |start|) == StateAt(origin, start, |start|)
    ensures (start + more)[|start|..] == more
  {
  }

  /** A stop at any moment leaves a run: the last stretch is cut off there. */
  lemma {:induction false} CutRun(origin: Files, stretches: seq<seq<Moment>>, k: nat) returns (cut: seq<seq<Moment>>)
    requires DeliveryRun(origin, stretches) && k <= |Flatten(stretches)|
    ensures DeliveryRun(origin, cut) && Flatten(cut) == Flatten(stretches)[..k]
    decreases |stretches|
  {
    hide Lawful, Follow;
    UpTo(origin, Flatten(stretches), k);
    if stretches == [] {
      return [];
    }
    var front, last := stretches[..|stretches| - 1], stretches[|stretches| - 1];
    var n := |Flatten(front)|;
    UpTo(origin, Flatten(stretches), n);
    assert Flatten(stretches)[..n] == Flatten(front);
    if k <= n {
      cut := CutRun(origin, front, k);
      assert Flatten(front)[..k] == Flatten(stretches)[..k];
    } else {
      FollowPrefix(last, k - n);
      FlattenSnoc(front, last[..k - n]);
      cut := front + [last[..k - n]];
      assert Flatten(cut) == Flatten(stretches)[..k];
    }
  }

  lemma {:induction false} FlattenAppend(a: seq<seq<Moment>>, b: seq<seq<Moment>>)
    ensures Flatten(a + b) == Flatten(a) + Flatten(b)
    decreases |b|
  {
    if b == [] {
      assert a + b == a;
    } else {
      FlattenAppend(a, b[..|b| - 1]);
      assert (a + b)[..|a + b| - 1] == a + b[..|b| - 1];
    }
  }

  /** A restart continues where the stop left the files: two runs are one. */
  lemma ChainRuns(origin: Files, a: seq<seq<Moment>>, b: seq<seq<Moment>>)
    requires DeliveryRun(origin, a) && DeliveryRun(StateAt(origin, Flatten(a), |Flatten(a)|), b)
    ensures DeliveryRun(origin, a + b) && Flatten(a + b) == Flatten(a) + Flatten(b)
  {
    hide Transition, Follow, Flatten;
    FlattenAppend(a, b);
    var front, back, all := Flatten(a), Flatten(b), Flatten(a + b);
    var middle := StateAt(origin, front, |front|);
    forall k | 0 <= k < |all| ensures Transition(StateAt(origin, all, k), all[k].step, all[k].files) {
      if k < |front| {
        assert Transition(StateAt(origin, front, k), front[k].step, front[k].files);
      } else {
        var j := k - |front|;
        assert Transition(StateAt(middle, back, j), back[j].step, back[j].files);
      }
    }
  }

  // ---------- Conservation ----------

  /** Every record is in one place, the store holds the pending and the isolated
      ones, and the removed one was sent to a final answer. */
  ghost predicate Conserved(origin: Files, moments: seq<Moment>, id: RecordId) {
    var ledger := LedgerAfter(LedgerOf(origin), moments);
    && ExactlyOnce(ledger) && Reflects(StateAt(origin, moments, |moments|), ledger)
    && (id in ledger.removed ==> exists j :: 0 <= j < |moments| && Grounds(moments[j].step, Removed(id)))
  }

  lemma RunConserves(origin: Files, stretches: seq<seq<Moment>>, id: RecordId)
    requires DeliveryRun(origin, stretches)
    requires UniqueIds(NamesIn(origin)) && FreshDraws(LedgerOf(origin), Flatten(stretches))
    ensures Conserved(origin, Flatten(stretches), id)
  {
    hide Follow, Lawful, FreshDraws, UniqueIds, NamesIn, LedgerAfter, Reflects, ExactlyOnce, Grounds;
    var moments := Flatten(stretches);
    Accounting(origin, moments);
    HistoryInOrder(stretches);
    RemovedByStep(LedgerOf(origin), moments, id);
    if id in LedgerAfter(LedgerOf(origin), moments).removed {
      var k :| 0 <= k < |moments| && moments[k].step == Removed(id);
      assert NeedsGround(moments[k].step);
    }
  }

  /** Conservation at every moment of every run of the service, stops and restarts
      included. */
  lemma NothingLost(origin: Files, stretches: seq<seq<Moment>>, k: nat, id: RecordId)
    requires DeliveryRun(origin, stretches) && k <= |Flatten(stretches)|
    requires UniqueIds(NamesIn(origin)) && FreshDraws(LedgerOf(origin), Flatten(stretches))
    ensures Conserved(origin, Flatten(stretches)[..k], id)
  {
    hide DeliveryRun, FreshDraws, UniqueIds, NamesIn, Conserved, Flatten;
    var cut := CutRun(origin, stretches, k);
    DrawsUpTo(LedgerOf(origin), Flatten(stretches), k);
    RunConserves(origin, cut, id);
  }

  // ---------- No record is sent again ----------

  predicate Gone(step: Step, id: RecordId) { (step.Removed? || step.Isolated?) && step.id == id }

  lemma {:induction false} GoneStays(l: Ledger, moments: seq<Moment>, j: nat, k: nat, id: RecordId)
    requires j < k <= |moments| && Gone(moments[j].step, id)
    ensures id in LedgerAfter(l, moments[..k]).removed || id in LedgerAfter(l, moments[..k]).quarantined
    decreases k
  {
    assert moments[..k][..k - 1] == moments[..k - 1];
    if j < k - 1 { GoneStays(l, moments, j, k - 1, id); }
  }

  lemma PendingIsCounted(files: Files, id: RecordId)
    requires StillPending(files, id)
    ensures id in PendingIds(files)
  {
    hide Holds, NamesIn;
    var n: Name :| n.id == id && n.quarantined.None? && Holds(files, n);
    NamesOfHeld(files, n);
  }

  lemma SentWasPending(origin: Files, moments: seq<Moment>, k: nat)
    requires Lawful(origin, moments) && UniqueIds(NamesIn(origin)) && FreshDraws(LedgerOf(origin), moments)
    requires k < |moments| && moments[k].step.Sent?
    ensures moments[k].step.id in LedgerAfter(LedgerOf(origin), moments[..k]).pending
  {
    hide FreshDraws, UniqueIds, NamesIn, LedgerAfter, PendingIds, QuarantinedIds, LedgerOf, StillPending, ExactlyOnce;
    AccountingAtEveryMoment(origin, moments, k);
    assert Transition(StateAt(origin, moments, k), moments[k].step, moments[k].files);
    PendingIsCounted(StateAt(origin, moments, k), moments[k].step.id);
  }

  /** Whatever stops and restarts come between, a record that was removed or
      isolated is never sent again. */
  lemma NeverSentAgain(origin: Files, moments: seq<Moment>, j: nat, k: nat)
    requires Lawful(origin, moments) && UniqueIds(NamesIn(origin)) && FreshDraws(LedgerOf(origin), moments)
    requires j < k < |moments| && (moments[j].step.Removed? || moments[j].step.Isolated?) && moments[k].step.Sent?
    ensures moments[j].step.id != moments[k].step.id
  {
    hide Lawful, Reflects, FreshDraws, UniqueIds, NamesIn, LedgerAfter, LedgerOf;
    var id := moments[k].step.id;
    AccountingAtEveryMoment(origin, moments, k);
    SentWasPending(origin, moments, k);
    if moments[j].step.id == id { GoneStays(LedgerOf(origin), moments, j, k, id); }
  }
}
