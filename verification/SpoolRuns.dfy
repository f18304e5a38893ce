/** Any run of spool operations, with reopenings at any point: what every state
    that a process stop could leave behind satisfies. */
module SpoolRuns {
  import opened Outcomes
  import opened Bytes
  import opened SpoolNames
  import opened SpoolCodec
  import opened SpoolStore
  import opened SpoolDirectory
  import opened SpoolOperations

  /** At every moment since `start` the directory could be reopened under these limits. */
  ghost predicate Reopenable(start: seq<Moment>, now: seq<Moment>, lim: Limits) {
    start <= now && forall m :: m in Since(start, now) ==> Recoverable(m.files, lim)
  }

  lemma ReopenableThrough(start: seq<Moment>, middle: seq<Moment>, now: seq<Moment>, lim: Limits)
    requires Reopenable(start, middle, lim) && Reopenable(middle, now, lim)
    ensures Reopenable(start, now, lim)
  {
    hide Recoverable;
    assert Since(start, now) == Since(start, middle) + Since(middle, now);
  }

  /** Cleanup may stop anywhere: what is left is as recoverable as before. */
  lemma CleanedIsRecoverable(before: Files, after: Files, lim: Limits)
    requires Recoverable(before, lim) && CleanedFrom(before, after)
    ensures Recoverable(after, lim)
  {
    hide Current, IsTemporary;
    CleanedTemporaries(before, after);
    CleanedRest(before, after);
    SubsetSize(Temporaries(after), Temporaries(before));
    LockKeepsCurrent(before - Temporaries(before), lim);
  }

  lemma CleanedTemporaries(before: Files, after: Files)
    requires CleanedFrom(before, after)
    ensures Temporaries(after) <= Temporaries(before)
    ensures forall n :: n in Temporaries(after) ==> after[n] == before[n]
  {
    hide IsTemporary;
    LockIsNoRecord();
  }

  lemma CleanedName(before: Files, after: Files, n: string)
    requires CleanedFrom(before, after)
    ensures n != LOCK ==> (n in after - Temporaries(after) <==> n in before - Temporaries(before))
    ensures LOCK in before ==> LOCK in after && LOCK in before - Temporaries(before)
    ensures LOCK in after ==> LOCK in after - Temporaries(after) && (LOCK !in before ==> after[LOCK] == [])
    ensures n in after && n in before ==> after[n] == before[n]
  {
    hide IsTemporary;
    LockIsNoRecord();
  }

  lemma CleanedRest(before: Files, after: Files)
    requires CleanedFrom(before, after)
    ensures after - Temporaries(after) == before - Temporaries(before)
         || after - Temporaries(after) == WithLock(before - Temporaries(before))
  {
    hide IsTemporary, CleanedFrom, Temporaries;
    var kept, left := before - Temporaries(before), after - Temporaries(after);
    var expected := if LOCK in after then WithLock(kept) else kept;
    CleanedName(before, after, LOCK);
    forall n ensures n in left <==> n in expected { CleanedName(before, after, n); }
    forall n | n in left ensures left[n] == expected[n] { CleanedName(before, after, n); }
    assert left == expected;
  }

  method Reopen(directory: Directory, lim: Limits, sha: Digest) returns (r: Option<Spool>)
    requires directory.Valid() && ValidLimits(lim) && Recoverable(directory.files, lim)
    modifies directory, directory.device
    ensures directory.Valid() && directory.origin == old(directory.origin)
    ensures Reopenable(old(directory.timeline), directory.timeline, lim) && Recoverable(directory.files, lim)
    ensures r.Some? ==>
              r.value.Valid() && r.value.directory == directory && r.value.lim == lim && Current(directory.files, lim)
  {
    hide Recoverable, Current, Lawful, CleanedFrom;
    ghost var before, start := directory.files, directory.timeline;
    var running: bool := *;
    var reopened := OpenSpool(directory, lim, sha, running);
    forall m | m in Since(start, directory.timeline) ensures Recoverable(m.files, lim) {
      CleanedIsRecoverable(before, m.files, lim);
    }
    CleanedIsRecoverable(before, directory.files, lim);
    if reopened.Err? { return None; }
    return Some(reopened.value);
  }

  /** A directory whose history did not grow has not changed. */
  lemma SameHistory(directory: Directory, files: Files, start: seq<Moment>)
    requires directory.Valid() && files == StateAt(directory.origin, start, |start|) && directory.timeline == start
    ensures directory.files == files && Since(start, directory.timeline) == []
  {
  }

  method CallEnqueue(spool: Spool)
    requires spool.Valid() && Recoverable(spool.directory.files, spool.lim)
    modifies spool.directory, spool.directory.device
    ensures spool.Valid() && spool.directory.origin == old(spool.directory.origin)
    ensures Reopenable(old(spool.directory.timeline), spool.directory.timeline, spool.lim)
    ensures Recoverable(spool.directory.files, spool.lim)
  {
    hide Recoverable, Current, Lawful, RecordName, ParseName, Refusal, IsContainer, Encode, Total, EntryNames,
      CreationState, CreationMoment;
    var contract: ContractId, id: RecordId, nonce: RecordId := *, *, *;
    var created: int :| I64(created);
    var priority: byte, payload: seq<byte> := *, *;
    ghost var before, start := spool.directory.files, spool.directory.timeline;
    var r := spool.Enqueue(contract, created, priority, payload, id, nonce);
    if !Current(before, spool.lim) { SameHistory(spool.directory, before, start); }
  }

  method CallNext(spool: Spool)
    requires spool.Valid() && Recoverable(spool.directory.files, spool.lim)
    modifies spool.directory, spool.directory.device
    ensures spool.Valid() && spool.directory.origin == old(spool.directory.origin)
    ensures Reopenable(old(spool.directory.timeline), spool.directory.timeline, spool.lim)
    ensures Recoverable(spool.directory.files, spool.lim)
  {
    hide Recoverable, Current, Lawful, Isolation, Readable, ParseName, Refusal, IsHead, PendingBefore, Pending;
    ghost var before, start := spool.directory.files, spool.directory.timeline;
    var r;
    ghost var bad;
    r, bad := spool.Next();
    if spool.directory.timeline == start {
      SameHistory(spool.directory, before, start);
    } else {
      CurrentHasNoTemporary(spool.directory.files, spool.lim);
    }
    forall m | m in Since(start, spool.directory.timeline) ensures Recoverable(m.files, spool.lim) {
      CurrentHasNoTemporary(m.files, spool.lim);
    }
  }

  method CallAckOrQuarantine(spool: Spool)
    requires spool.Valid() && Recoverable(spool.directory.files, spool.lim)
    modifies spool.directory, spool.directory.device
    ensures spool.Valid() && spool.directory.origin == old(spool.directory.origin)
    ensures Reopenable(old(spool.directory.timeline), spool.directory.timeline, spool.lim)
    ensures Recoverable(spool.directory.files, spool.lim)
  {
    hide Recoverable, Current, Lawful, RecordName, Renamed, ParseName, Refusal, SolePending;
    var id: RecordId := *;
    ghost var before, start := spool.directory.files, spool.directory.timeline;
    var isolate: bool := *;
    if isolate {
      var reason: QuarantineReason := *;
      var isolated := spool.Quarantine(id, reason);
    } else {
      var acknowledged := spool.Ack(id);
    }
    if spool.directory.timeline == start {
      SameHistory(spool.directory, before, start);
    } else {
      CurrentHasNoTemporary(spool.directory.files, spool.lim);
      assert Since(start, spool.directory.timeline)
          == [Moment(spool.directory.timeline[|start|].step, spool.directory.files)];
    }
  }

  /** Any run under fixed limits, starting from a recoverable directory: openings,
      enqueues, reads, acknowledgements and isolations in any order and with any
      failures. At every single moment of it there is at most one temporary, and
      the directory can be reopened within its inventory and budgets. */
  method AnyRun(directory: Directory, lim: Limits, sha: Digest)
    requires directory.Valid() && ValidLimits(lim) && Recoverable(directory.files, lim)
    modifies directory, directory.device
    ensures directory.Valid() && directory.origin == old(directory.origin)
    ensures Reopenable(old(directory.timeline), directory.timeline, lim)
    ensures Recoverable(directory.files, lim)
  {
    hide Recoverable, Current, Lawful;
    ghost var start := directory.timeline;
    var spool: Option<Spool> := None;
    var calls: nat := *;
    while calls > 0
      invariant directory.Valid() && directory.origin == old(directory.origin)
      invariant Reopenable(start, directory.timeline, lim) && Recoverable(directory.files, lim)
      invariant spool.Some? ==> spool.value.Valid() && spool.value.directory == directory && spool.value.lim == lim
    {
      ghost var middle := directory.timeline;
      var kind: nat := *;
      if spool.None? || kind == 0 {
        spool := Reopen(directory, lim, sha);
      } else if kind == 1 {
        CallEnqueue(spool.value);
      } else if kind == 2 {
        CallNext(spool.value);
      } else {
        CallAckOrQuarantine(spool.value);
      }
      ReopenableThrough(start, middle, directory.timeline, lim);
      calls := calls - 1;
    }
  }
}
