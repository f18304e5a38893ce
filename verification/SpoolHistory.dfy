/** Accounting over whole histories of a spool directory, across process stops
    and reopenings: the directory refines a ledger of record identifiers. */
module SpoolHistory {
  import opened Bytes
  import opened SpoolNames
  import opened SpoolStore

  /** Where every identifier ever published is. */
  datatype Ledger = Ledger(
    pending: set<RecordId>, quarantined: set<RecordId>, removed: set<RecordId>, published: set<RecordId>)

  ghost predicate ExactlyOnce(l: Ledger) {
    && l.pending !! l.quarantined && l.pending !! l.removed && l.quarantined !! l.removed
    && l.pending + l.quarantined + l.removed == l.published
  }

  function After(l: Ledger, step: Step): Ledger {
    match step
    case Published(id) => l.(pending := l.pending + {id}, published := l.published + {id})
    case Isolated(id, _) => l.(pending := l.pending - {id}, quarantined := l.quarantined + {id})
    case Removed(id) => l.(pending := l.pending - {id}, removed := l.removed + {id})
    case _ => l
  }

  function LedgerAfter(l: Ledger, timeline: seq<Moment>): Ledger {
    if timeline == [] then l
    else After(LedgerAfter(l, timeline[..|timeline| - 1]), timeline[|timeline| - 1].step)
  }

  ghost function NamesIn(files: Files): set<Name> {
    set text | text in files && ParseName(text).Ok? :: ParseName(text).value
  }

  ghost function PendingIds(files: Files): set<RecordId> { set n | n in NamesIn(files) && n.quarantined.None? :: n.id }

  ghost function QuarantinedIds(files: Files): set<RecordId> {
    set n | n in NamesIn(files) && n.quarantined.Some? :: n.id
  }

  ghost predicate UniqueIds(names: set<Name>) {
    forall m, n :: m in names && n in names && m.id == n.id ==> m == n
  }

  /** The directory's record files are exactly the ledger's pending and quarantined entries. */
  ghost predicate Reflects(files: Files, l: Ledger) {
    && UniqueIds(NamesIn(files))
    && PendingIds(files) == l.pending
    && QuarantinedIds(files) == l.quarantined
  }

  /** Every published identifier was a fresh random draw. */
  ghost predicate FreshDraws(l: Ledger, timeline: seq<Moment>) {
    forall k :: 0 <= k < |timeline| && timeline[k].step.Published? ==>
      timeline[k].step.id !in LedgerAfter(l, timeline[..k]).published
  }

  ghost function LedgerOf(files: Files): Ledger {
    Ledger(PendingIds(files), QuarantinedIds(files), {}, PendingIds(files) + QuarantinedIds(files))
  }

  // ---------- One step ----------

  lemma NamesOfHeld(files: Files, n: Name)
    ensures n in NamesIn(files) <==> Holds(files, n)
  {
    hide ParseName, RecordName;
    if Holds(files, n) {
      ParseOfRecordName(n);
      assert RecordName(n) in files && ParseName(RecordName(n)).Ok?;
    }
    if n in NamesIn(files) {
      var text :| text in files && ParseName(text).Ok? && ParseName(text).value == n;
      assert text == RecordName(n);
    }
  }

  lemma NamesFollowRecords(before: Files, after: Files)
    requires Records(before) == Records(after)
    ensures NamesIn(before) == NamesIn(after)
  {
    hide ParseName;
    assert forall text :: text in before && ParseName(text).Ok? <==> text in Records(before);
    assert forall text :: text in after && ParseName(text).Ok? <==> text in Records(after);
  }

  lemma NamesAfterPublish(before: Files, n: Name, bytes: seq<byte>, after: Files)
    requires ValidName(n) && Records(after) == Records(before)[RecordName(n) := bytes]
    ensures NamesIn(after) == NamesIn(before) + {n}
  {
    hide ParseName, RecordName;
    ParseOfRecordName(n);
    assert forall text :: text in before && ParseName(text).Ok? <==> text in Records(before);
    assert forall text :: text in after && ParseName(text).Ok? <==> text in Records(after);
    assert RecordName(n) in Records(after);
  }

  lemma NamesAfterRemoval(before: Files, n: Name)
    requires Holds(before, n)
    ensures NamesIn(before - {RecordName(n)}) == NamesIn(before) - {n}
  {
    hide ParseName, RecordName;
    var after := before - {RecordName(n)};
    forall m ensures m in NamesIn(after) <==> m in NamesIn(before) - {n} {
      NamesOfHeld(before, m);
      NamesOfHeld(after, m);
      if ValidName(m) && RecordName(m) == RecordName(n) { RecordNameInjective(m, n); }
    }
  }

  lemma NamesAfterIsolation(before: Files, n: Name, reason: QuarantineReason)
    requires Holds(before, n) && n.quarantined.None?
    ensures NamesIn(Renamed(before, RecordName(n), RecordName(IsolatedName(n, reason))))
         == NamesIn(before) - {n} + {IsolatedName(n, reason)}
  {
    hide ParseName, RecordName;
    var target := IsolatedName(n, reason);
    var after := Renamed(before, RecordName(n), RecordName(target));
    forall m ensures m in NamesIn(after) <==> m in NamesIn(before) - {n} + {target} {
      NamesOfHeld(before, m);
      NamesOfHeld(after, m);
      if ValidName(m) && RecordName(m) == RecordName(n) { RecordNameInjective(m, n); }
      if ValidName(m) && RecordName(m) == RecordName(target) { RecordNameInjective(m, target); }
    }
  }

  lemma StepKeeps(before: Files, step: Step, after: Files, l: Ledger)
    requires Transition(before, step, after) && Reflects(before, l) && ExactlyOnce(l)
    requires step.Published? ==> step.id !in l.published
    ensures Reflects(after, After(l, step)) && ExactlyOnce(After(l, step))
  {
    hide ParseName, RecordName, Renamed;
    match step {
      case Staged =>
        NamesFollowRecords(before, after);
      case Published(id) =>
        var n: Name, bytes: seq<byte> :|
          n.id == id && n.quarantined.None? && ValidName(n)
          && Records(after) == Records(before)[RecordName(n) := bytes];
        NamesAfterPublish(before, n, bytes, after);
        NamesGrow(before, after, n, l);
      case Isolated(id, reason) =>
        var n: Name :| n.id == id && n.quarantined.None? && Holds(before, n)
          && after == Renamed(before, RecordName(n), RecordName(IsolatedName(n, reason)));
        NamesAfterIsolation(before, n, reason);
        NamesOfHeld(before, n);
        NamesMove(before, after, n, reason, l);
      case Removed(id) =>
        var n: Name :| n.id == id && n.quarantined.None? && Holds(before, n) && after == before - {RecordName(n)};
        NamesAfterRemoval(before, n);
        NamesOfHeld(before, n);
        NamesShrink(before, after, n, l);
      case _ =>
    }
  }

  lemma NamesGrow(before: Files, after: Files, n: Name, l: Ledger)
    requires Reflects(before, l) && ExactlyOnce(l) && n.quarantined.None? && n.id !in l.published
    requires NamesIn(after) == NamesIn(before) + {n}
    ensures Reflects(after, After(l, Published(n.id))) && ExactlyOnce(After(l, Published(n.id)))
  {
    hide NamesIn;
    forall m | m in NamesIn(before) ensures m.id != n.id {
      assert m.id in PendingIds(before) || m.id in QuarantinedIds(before);
    }
    assert PendingIds(after) == PendingIds(before) + {n.id};
    assert QuarantinedIds(after) == QuarantinedIds(before);
  }

  lemma NamesMove(before: Files, after: Files, n: Name, reason: QuarantineReason, l: Ledger)
    requires Reflects(before, l) && ExactlyOnce(l) && n in NamesIn(before) && n.quarantined.None?
    requires NamesIn(after) == NamesIn(before) - {n} + {IsolatedName(n, reason)}
    ensures Reflects(after, After(l, Isolated(n.id, reason))) && ExactlyOnce(After(l, Isolated(n.id, reason)))
  {
    hide NamesIn;
    assert n.id in PendingIds(before);
    assert PendingIds(after) == PendingIds(before) - {n.id};
    assert QuarantinedIds(after) == QuarantinedIds(before) + {n.id} by {
      assert IsolatedName(n, reason) in NamesIn(after);
    }
  }

  lemma NamesShrink(before: Files, after: Files, n: Name, l: Ledger)
    requires Reflects(before, l) && ExactlyOnce(l) && n in NamesIn(before) && n.quarantined.None?
    requires NamesIn(after) == NamesIn(before) - {n}
    ensures Reflects(after, After(l, Removed(n.id))) && ExactlyOnce(After(l, Removed(n.id)))
  {
    hide NamesIn;
    assert n.id in PendingIds(before);
    assert PendingIds(after) == PendingIds(before) - {n.id};
    assert QuarantinedIds(after) == QuarantinedIds(before);
  }

  // ---------- Whole histories ----------

  /** What holds of a history holds of the history up to moment k. */
  lemma UpTo(origin: Files, timeline: seq<Moment>, k: nat)
    requires Lawful(origin, timeline) && k <= |timeline|
    ensures Lawful(origin, timeline[..k])
    ensures StateAt(origin, timeline[..k], k) == StateAt(origin, timeline, k)
  {
    hide Transition;
    var front := timeline[..k];
    forall j | 0 <= j < k ensures Transition(StateAt(origin, front, j), front[j].step, front[j].files) {
      assert Transition(StateAt(origin, timeline, j), timeline[j].step, timeline[j].files);
    }
  }

  lemma DrawsUpTo(l: Ledger, timeline: seq<Moment>, k: nat)
    requires FreshDraws(l, timeline) && k <= |timeline|
    ensures FreshDraws(l, timeline[..k])
  {
    forall j | 0 <= j < k ensures timeline[..k][..j] == timeline[..j] {}
  }

  lemma {:induction false} Accounting(origin: Files, timeline: seq<Moment>)
    requires Lawful(origin, timeline) && UniqueIds(NamesIn(origin)) && FreshDraws(LedgerOf(origin), timeline)
    ensures Reflects(StateAt(origin, timeline, |timeline|), LedgerAfter(LedgerOf(origin), timeline))
    ensures ExactlyOnce(LedgerAfter(LedgerOf(origin), timeline))
    decreases |timeline|
  {
    hide Transition, Reflects, ExactlyOnce, LedgerOf, UniqueIds, NamesIn;
    var start := LedgerOf(origin);
    if timeline == [] {
      OriginReflects(origin);
    } else {
      var last := |timeline| - 1;
      UpTo(origin, timeline, last);
      DrawsUpTo(start, timeline, last);
      Accounting(origin, timeline[..last]);
      assert Transition(StateAt(origin, timeline, last), timeline[last].step, timeline[last].files);
      var ledger := LedgerAfter(start, timeline[..last]);
      StepKeeps(StateAt(origin, timeline, last), timeline[last].step, timeline[last].files, ledger);
    }
  }

  lemma OriginReflects(origin: Files)
    requires UniqueIds(NamesIn(origin))
    ensures Reflects(origin, LedgerOf(origin)) && ExactlyOnce(LedgerOf(origin))
  {
    hide NamesIn;
  }

  /** A prefix of a history is a history: stopping the process anywhere and
      reopening later loses and duplicates nothing. */
  lemma AccountingAtEveryMoment(origin: Files, timeline: seq<Moment>, k: nat)
    requires Lawful(origin, timeline) && UniqueIds(NamesIn(origin)) && FreshDraws(LedgerOf(origin), timeline)
    requires k <= |timeline|
    ensures Reflects(StateAt(origin, timeline, k), LedgerAfter(LedgerOf(origin), timeline[..k]))
    ensures ExactlyOnce(LedgerAfter(LedgerOf(origin), timeline[..k]))
  {
    hide Lawful, Reflects, FreshDraws, LedgerAfter;
    UpTo(origin, timeline, k);
    DrawsUpTo(LedgerOf(origin), timeline, k);
    Accounting(origin, timeline[..k]);
  }

  /** The removed identifiers are exactly those with a removal step. */
  lemma {:induction false} RemovedByStep(l: Ledger, timeline: seq<Moment>, id: RecordId)
    ensures id in LedgerAfter(l, timeline).removed
       <==> id in l.removed || exists k :: 0 <= k < |timeline| && timeline[k].step == Removed(id)
    decreases |timeline|
  {
    if timeline != [] {
      var last := |timeline| - 1;
      RemovedByStep(l, timeline[..last], id);
      if k :| 0 <= k < last && timeline[k].step == Removed(id) {
        assert timeline[..last][k].step == Removed(id);
      }
    }
  }
}
