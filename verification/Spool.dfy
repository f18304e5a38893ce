/** The spool operations (src/runtime/spool.rs) over one directory. The gate
    mutex and the process lock make each call exclusive. */
module SpoolOperations {
  import opened Outcomes
  import opened Devices
  import opened Bytes
  import opened SpoolNames
  import opened SpoolCodec
  import opened SpoolStore
  import opened SpoolDirectory
  import opened SpoolListing

  // ---------- What the operations mean ----------

  /** The bytes decode under this name within the limits. */
  ghost predicate Readable(bytes: seq<byte>, name: string, lim: Limits, sha: Digest) {
    && ParseName(name).Ok?
    && |bytes| <= lim.maxRecord + CONTAINER_OVERHEAD
    && Decode(bytes, ParseName(name).value, lim.maxRecord, sha).Ok?
  }

  ghost function Pending(files: Files): set<string> { set n | n in files && IsPending(n) }

  ghost function PendingBefore(files: Files, name: string): set<string> {
    set n | n in files && IsPending(n) && TextBefore(n, name)
  }

  /** `name` is the first readable pending record and holds `record`. */
  ghost predicate IsHead(files: Files, name: string, record: SpoolRecord, lim: Limits, sha: Digest) {
    && name in Pending(files)
    && Readable(files[name], name, lim, sha)
    && Decode(files[name], ParseName(name).value, lim.maxRecord, sha) == Ok(record)
    && (forall n :: n in PendingBefore(files, name) ==> !Readable(files[n], n, lim, sha))
  }

  function BadName(name: string): string
    requires IsPending(name)
  {
    RecordName(IsolatedName(ParseName(name).value, Corrupt))
  }

  ghost function BadNames(names: set<string>): set<string>
    requires forall n :: n in names ==> IsPending(n)
  {
    set n | n in names :: BadName(n)
  }

  /** Exactly the names in `bad` were renamed, with their bytes; nothing else changed. */
  ghost predicate Isolation(before: Files, after: Files, bad: set<string>) {
    && bad <= Pending(before)
    && BadNames(bad) !! before.Keys
    && after.Keys == (before.Keys - bad) + BadNames(bad)
    && (forall n :: n in before && n !in bad ==> after[n] == before[n])
    && (forall n :: n in bad ==> after[BadName(n)] == before[n])
  }

  /** `n` is the only pending record with its identifier. */
  ghost predicate SolePending(files: Files, n: Name) {
    && n.quarantined.None? && Holds(files, n)
    && forall m: Name :: m.quarantined.None? && Holds(files, m) && m.id == n.id ==> m == n
  }

  ghost predicate AtCapacity(files: Files, lim: Limits, size: nat) {
    |EntryNames(files)| >= lim.maxEntries || Total(files) + size > lim.maxBytes
  }

  /** Why enqueueing these bytes under this name fails, faults of the device aside. */
  ghost predicate AdmissionRefused(files: Files, lim: Limits, n: Name, bytes: seq<byte>, error: SpoolError)
    requires ValidName(n)
  {
    if !Current(files, lim) then Refusal(files, lim) == Some(error)
    else if AtCapacity(files, lim, |bytes|) then error == SpoolFull
    else error == DestinationExists && RecordName(n) in files
  }

  // ---------- Isolation, one rename at a time ----------

  lemma BadNameFacts(name: string)
    requires IsPending(name)
    ensures ParseName(BadName(name)).Ok? && !IsPending(BadName(name)) && BadName(name) != LOCK
    ensures ParseName(BadName(name)).value == IsolatedName(ParseName(name).value, Corrupt)
  {
    ParseOfRecordName(IsolatedName(ParseName(name).value, Corrupt));
    LockIsNoRecord();
  }

  lemma IsolationRefl(files: Files)
    ensures Isolation(files, files, {})
  {
  }

  lemma BadNamesGrow(bad: set<string>, name: string)
    requires (forall n :: n in bad ==> IsPending(n)) && IsPending(name)
    ensures BadNames(bad + {name}) == BadNames(bad) + {BadName(name)}
    ensures BadName(name) !in bad && name !in BadNames(bad)
  {
    hide ParseName, BadName;
    BadNameFacts(name);
    forall n | n in bad ensures BadName(n) != name { BadNameFacts(n); }
  }

  lemma IsolationStep(before: Files, after: Files, bad: set<string>, name: string)
    requires Isolation(before, after, bad)
    requires name in before && name !in bad && IsPending(name) && BadName(name) !in after
    ensures name in after && after[name] == before[name]
    ensures Isolation(before, Renamed(after, name, BadName(name)), bad + {name})
  {
    hide IsPending, BadName;
    assert forall n :: n in bad ==> n in Pending(before);
    BadNamesGrow(bad, name);
    var target := BadName(name);
    assert target !in before.Keys;
  }

  /** Undoing one rename undoes one element of the isolated set. */
  lemma IsolationUndo(before: Files, after: Files, bad: set<string>, name: string)
    requires Isolation(before, after, bad) && name in bad && IsPending(name)
    ensures name !in after && BadName(name) in after
    ensures Isolation(before, Renamed(after, BadName(name), name), bad - {name})
  {
    hide IsPending, BadName;
    assert forall n :: n in bad ==> n in Pending(before);
    var less := bad - {name};
    BadNamesGrow(less, name);
    assert less + {name} == bad;
    assert BadName(name) !in BadNames(less) by {
      if BadName(name) in BadNames(less) { BadNameTaken(less, name); }
    }
    forall n | n in less ensures BadName(n) != BadName(name) {
      if BadName(n) == BadName(name) { BadNameInjective(n, name); }
    }
  }

  lemma BadNameTaken(names: set<string>, name: string)
    requires (forall n :: n in names ==> IsPending(n)) && IsPending(name) && BadName(name) in BadNames(names)
    ensures name in names
  {
    var n :| n in names && BadName(n) == BadName(name);
    BadNameInjective(n, name);
  }

  /** Isolation conserves the number of entries and the bytes. */
  lemma {:induction false} IsolationConserves(before: Files, after: Files, bad: set<string>)
    requires Isolation(before, after, bad)
    ensures |after| == |before| && Total(after) == Total(before)
    decreases |bad|
  {
    hide IsPending, BadName, Total, Renamed;
    if bad == {} {
      assert after == before by { assert BadNames(bad) == {}; }
    } else {
      var name :| name in bad;
      assert name in Pending(before) && IsPending(name);
      IsolationUndo(before, after, bad, name);
      IsolationConserves(before, Renamed(after, BadName(name), name), bad - {name});
      RenameConserves(after, BadName(name), name);
    }
  }

  lemma BadNameInjective(m: string, n: string)
    requires IsPending(m) && IsPending(n) && BadName(m) == BadName(n)
    ensures m == n
  {
    BadNameFacts(m);
    BadNameFacts(n);
    var pm, pn := ParseName(m).value, ParseName(n).value;
    assert pm == pn.(quarantined := pm.quarantined);
  }

  lemma PendingStemsDiffer(name: string, other: string)
    requires IsPending(name) && IsPending(other) && name != other
    ensures !SameStem(ParseName(name).value, ParseName(other).value)
  {
    var m, n := ParseName(name).value, ParseName(other).value;
    assert SameStem(m, n) ==> m == n;
    assert name == RecordName(m) && other == RecordName(n);
  }

  /** The head is the least readable pending record by (priority, timestamp, id). */
  lemma HeadIsLeast(files: Files, name: string, record: SpoolRecord, other: string, lim: Limits, sha: Digest)
    requires IsHead(files, name, record, lim, sha)
    requires other in Pending(files) && other != name && Readable(files[other], other, lim, sha)
    ensures Precedes(ParseName(name).value, ParseName(other).value)
  {
    var m, n := ParseName(name).value, ParseName(other).value;
    assert other !in PendingBefore(files, name);
    TextTotal(name, other);
    PendingStemsDiffer(name, other);
    NameOrder(m, n);
  }

  /** A pending file whose checksum is not the digest of its content is never the
      head, and in front of the head `next` moves it aside. */
  lemma UnsealedIsIsolated(
    files: Files, after: Files, head: string, record: SpoolRecord, name: string, lim: Limits, sha: Digest)
    requires IsHead(files, head, record, lim, sha) && Isolation(files, after, PendingBefore(files, head))
    requires name in Pending(files) && !Sealed(files[name], sha)
    ensures name != head && !Readable(files[name], name, lim, sha)
    ensures Precedes(ParseName(name).value, ParseName(head).value) ==>
              name !in after && BadName(name) in after && after[BadName(name)] == files[name]
  {
    hide Decode, Sealed, Precedes, SameStem, BadName, Readable, TextBefore, RecordName;
    UnsealedUnreadable(files[name], name, lim, sha);
    var m, n := ParseName(name).value, ParseName(head).value;
    PendingStemsDiffer(name, head);
    PendingNameIsHeld(files, name);
    PendingNameIsHeld(files, head);
    NameOrder(m, n);
    if Precedes(m, n) { IsolatedLeaves(files, after, PendingBefore(files, head), name); }
  }

  lemma IsolatedLeaves(before: Files, after: Files, bad: set<string>, name: string)
    requires Isolation(before, after, bad) && name in bad && IsPending(name)
    ensures name !in after && BadName(name) in after && after[BadName(name)] == before[name]
  {
    hide IsPending, BadName;
    assert forall n :: n in bad ==> n in Pending(before);
    BadNamesGrow(bad, name);
  }

  lemma UnsealedUnreadable(bytes: seq<byte>, name: string, lim: Limits, sha: Digest)
    requires !Sealed(bytes, sha)
    ensures !Readable(bytes, name, lim, sha)
  {
    hide ParseName, Decode, Sealed;
    if Readable(bytes, name, lim, sha) { AcceptedIsSealed(bytes, ParseName(name).value, lim.maxRecord, sha); }
  }

  // ---------- Walking a listing ----------

  ghost function PendingIn(entries: seq<FileEntry>): set<string> {
    set e | e in entries && IsPending(e.name) :: e.name
  }

  lemma EntryFacts(files: Files, lim: Limits, entries: seq<FileEntry>, i: nat)
    requires Current(files, lim) && Listing(files, entries) && i < |entries|
    ensures entries[i].name in files && entries[i].name != LOCK && ParseName(entries[i].name).Ok?
  {
    hide ParseName, TextBefore;
  }

  lemma PendingInStep(files: Files, entries: seq<FileEntry>, i: nat)
    requires Listing(files, entries) && i < |entries|
    ensures entries[i].name !in PendingIn(entries[..i])
    ensures PendingIn(entries[..i + 1]) ==
            PendingIn(entries[..i]) + if IsPending(entries[i].name) then {entries[i].name} else {}
  {
    hide IsPending, TextBefore;
    assert entries[..i + 1] == entries[..i] + [entries[i]];
    assert forall e :: e in entries[..i + 1] <==> e in entries[..i] || e == entries[i];
  }

  /** The pending entries listed before the i-th are the pending names before its name. */
  lemma PendingInPrefix(files: Files, entries: seq<FileEntry>, i: nat)
    requires Listing(files, entries) && i < |entries|
    ensures PendingIn(entries[..i]) == PendingBefore(files, entries[i].name)
  {
    hide ParseName, TextBefore;
    LockIsNoRecord();
    forall n | n in PendingBefore(files, entries[i].name) ensures n in PendingIn(entries[..i]) {
      assert n in files - {LOCK};
      assert FileEntry(n, |files[n]|) in entries;
      var j :| 0 <= j < |entries| && entries[j].name == n;
      TextIrreflexive(n);
      if j > i { TextTotal(n, entries[i].name); }
      assert entries[..i][j] == entries[j];
    }
  }

  lemma PendingInAll(files: Files, entries: seq<FileEntry>)
    requires Listing(files, entries)
    ensures PendingIn(entries[..|entries|]) == Pending(files)
  {
    hide ParseName, TextBefore;
    LockIsNoRecord();
    assert entries[..|entries|] == entries;
    forall n | n in Pending(files) ensures n in PendingIn(entries) {
      assert n in files - {LOCK};
      assert FileEntry(n, |files[n]|) in entries;
    }
  }

  lemma IsolationKeeps(before: Files, after: Files, bad: set<string>, name: string)
    requires Isolation(before, after, bad) && name in before && name !in bad
    ensures name in after && after[name] == before[name]
  {
  }

  lemma Unreadable(bytes: seq<byte>, name: string, lim: Limits, sha: Digest)
    requires ParseName(name).Ok?
    requires || |bytes| > lim.maxRecord + CONTAINER_OVERHEAD
             || Decode(bytes, ParseName(name).value, lim.maxRecord, sha).Err?
    ensures !Readable(bytes, name, lim, sha)
  {
  }

  lemma HeadFound(files: Files, entries: seq<FileEntry>, i: nat, record: SpoolRecord, lim: Limits, sha: Digest)
    requires Listing(files, entries) && i < |entries| && entries[i].name in files && IsPending(entries[i].name)
    requires |files[entries[i].name]| <= lim.maxRecord + CONTAINER_OVERHEAD
    requires Decode(files[entries[i].name], ParseName(entries[i].name).value, lim.maxRecord, sha) == Ok(record)
    requires forall n :: n in PendingIn(entries[..i]) ==> n in files && !Readable(files[n], n, lim, sha)
    ensures IsHead(files, entries[i].name, record, lim, sha)
    ensures PendingIn(entries[..i]) == PendingBefore(files, entries[i].name)
  {
    PendingInPrefix(files, entries, i);
  }

  /** An unreadable pending record whose isolated name is taken: `next` stops there. */
  ghost predicate IsolationBlocked(files: Files, name: string, lim: Limits, sha: Digest) {
    name in Pending(files) && !Readable(files[name], name, lim, sha) && BadName(name) in files
  }

  lemma BlockedFound(
    before: Files, held: Files, entries: seq<FileEntry>, i: nat, bad: set<string>, lim: Limits, sha: Digest)
    requires Listing(before, entries) && i < |entries| && bad == PendingIn(entries[..i])
    requires Isolation(before, held, bad)
    requires entries[i].name in before && IsPending(entries[i].name) && BadName(entries[i].name) in held
    requires !Readable(before[entries[i].name], entries[i].name, lim, sha)
    ensures IsolationBlocked(before, entries[i].name, lim, sha) && bad == PendingBefore(before, entries[i].name)
  {
    hide IsPending, BadName, Readable, Listing;
    var name := entries[i].name;
    PendingInPrefix(before, entries, i);
    PendingInStep(before, entries, i);
    assert forall n :: n in bad ==> n in Pending(before);
    if BadName(name) in BadNames(bad) { BadNameTaken(bad, name); }
  }

  predicate PendingWithId(name: string, id: RecordId) { IsPending(name) && ParseName(name).value.id == id }

  /** Two pending records carry this identifier. */
  ghost predicate Ambiguous(files: Files, id: RecordId) {
    exists m, n :: m in files && n in files && PendingWithId(m, id) && PendingWithId(n, id) && m != n
  }

  /** Why looking up this identifier fails, faults of the device aside. */
  ghost predicate LookupRefused(files: Files, lim: Limits, id: RecordId, error: SpoolError) {
    if !Current(files, lim) then Refusal(files, lim) == Some(error)
    else
      || (error == RecordNotFound && forall n :: n in files ==> !PendingWithId(n, id))
      || (error == InvalidRecord && Ambiguous(files, id))
  }

  /** In a current directory the lookup of a sole pending record is never refused. */
  lemma SoleIsFound(files: Files, lim: Limits, n: Name, error: SpoolError)
    requires Current(files, lim) && SolePending(files, n)
    ensures !LookupRefused(files, lim, n.id, error)
  {
    hide ParseName, Current;
    HeldIsEntry(n);
    assert PendingWithId(RecordName(n), n.id);
    if p, q :| p in files && q in files && PendingWithId(p, n.id) && PendingWithId(q, n.id) && p != q {
      PendingNameIsHeld(files, p);
      PendingNameIsHeld(files, q);
    }
  }

  lemma PendingNameIsHeld(files: Files, name: string)
    requires name in files && IsPending(name)
    ensures var n := ParseName(name).value; Holds(files, n) && name == RecordName(n)
  {
    ParseAcceptsExactlyImage(name);
  }

  /** Every file but the lock is listed, and only those. */
  lemma ListingNames(files: Files, entries: seq<FileEntry>)
    requires Listing(files, entries)
    ensures forall i :: 0 <= i < |entries| ==> entries[i].name in files
    ensures forall i, j :: 0 <= i < j < |entries| ==> entries[i].name != entries[j].name
    ensures forall n :: n in files && IsPending(n) ==> exists i :: 0 <= i < |entries| && entries[i].name == n
  {
    hide ParseName, TextBefore;
    LockIsNoRecord();
    forall n | n in files && IsPending(n) ensures exists i :: 0 <= i < |entries| && entries[i].name == n {
      assert n in files - {LOCK};
      assert FileEntry(n, |files[n]|) in entries;
    }
  }

  lemma FoundIsSole(files: Files, name: string, id: RecordId)
    requires name in files && PendingWithId(name, id)
    requires forall n :: n in files && PendingWithId(n, id) ==> n == name
    ensures ParseName(name).value.id == id && SolePending(files, ParseName(name).value)
  {
    hide ParseName;
    var n := ParseName(name).value;
    forall m: Name | m.quarantined.None? && Holds(files, m) && m.id == n.id ensures m == n {
      ParseOfRecordName(m);
      assert RecordName(m) == name;
    }
  }

  lemma HeldIsEntry(n: Name)
    requires ValidName(n)
    ensures ParseName(RecordName(n)) == Ok(n) && RecordName(n) != LOCK
  {
    ParseOfRecordName(n);
    LockIsNoRecord();
  }

  lemma ListingMeasure(files: Files, lim: Limits, entries: seq<FileEntry>)
    requires Listing(files, entries) && Current(files, lim)
    ensures |entries| == |EntryNames(files)| && SumBytes(entries) == Total(files)
  {
    hide ParseName, Total, Lists, EntryNames, TextBefore;
    ListsMeasure(files - {LOCK}, entries);
    assert LOCK in files ==> files[LOCK] == [];
    TotalWithoutLock(files);
  }

  /** A record is admitted exactly when the spool with it is within its budgets. */
  lemma AdmittedExactly(files: Files, lim: Limits, n: Name, bytes: seq<byte>)
    requires Current(files, lim) && ValidName(n) && RecordName(n) !in files
    ensures !AtCapacity(files, lim, |bytes|) <==> Current(files[RecordName(n) := bytes], lim)
  {
    hide ParseName, RecordName, Total, EntryNames, WellNamed;
    var after := files[RecordName(n) := bytes];
    HeldIsEntry(n);
    TotalInsert(files, RecordName(n), bytes);
    WellNamedInsert(files, RecordName(n), bytes);
    CountAfterInsert(files, RecordName(n), bytes);
    EntryCount(after);
  }

  /** Every state an admitted creation passes through can be reopened. */
  lemma AdmittedCreation(files: Files, lim: Limits, n: Name, bytes: seq<byte>, nonce: RecordId)
    requires Current(files, lim) && !AtCapacity(files, lim, |bytes|) && |bytes| <= lim.maxRecord + CONTAINER_OVERHEAD
    requires ValidName(n)
    ensures forall f :: CreationState(files, f, nonce, RecordName(n), bytes) ==> Recoverable(f, lim)
    ensures RecordName(n) !in files ==> Current(files[RecordName(n) := bytes], lim)
  {
    hide ParseName, RecordName, Total, Recoverable, Current, EntryNames, TempName;
    CurrentHasNoTemporary(files, lim);
    HeldIsEntry(n);
    if RecordName(n) !in files {
      CurrentAfterAdmission(files, lim, RecordName(n), bytes);
      CurrentHasNoTemporary(files[RecordName(n) := bytes], lim);
    }
    forall f | IsPartial(files, f, nonce, bytes) ensures Recoverable(f, lim) {
      var k :| 0 <= k <= |bytes| && f == files[TempName(nonce) := bytes[..k]];
      RecoverableWithTemporary(files, lim, nonce, bytes[..k]);
    }
  }

  /** First match, and an error if there is a second one. */
  method ScanForId(entries: seq<FileEntry>, id: RecordId) returns (r: Result<string, SpoolError>)
    requires forall i, j :: 0 <= i < j < |entries| ==> entries[i].name != entries[j].name
    ensures r.Ok? ==> PendingWithId(r.value, id) && exists k :: 0 <= k < |entries| && entries[k].name == r.value
    ensures r.Ok? ==>
              forall j :: 0 <= j < |entries| && PendingWithId(entries[j].name, id) ==> entries[j].name == r.value
    ensures r.Err? ==>
              || (r.error == RecordNotFound && forall j :: 0 <= j < |entries| ==> !PendingWithId(entries[j].name, id))
              || (r.error == InvalidRecord
                  && exists i, j :: 0 <= i < j < |entries|
                       && PendingWithId(entries[i].name, id) && PendingWithId(entries[j].name, id))
  {
    hide PendingWithId;
    var found: Option<nat> := None;
    for i := 0 to |entries|
      invariant found.None? ==> forall j :: 0 <= j < i ==> !PendingWithId(entries[j].name, id)
      invariant found.Some? ==> found.value < i && PendingWithId(entries[found.value].name, id)
      invariant found.Some? ==> forall j :: 0 <= j < i && PendingWithId(entries[j].name, id) ==> j == found.value
    {
      if PendingWithId(entries[i].name, id) {
        if found.Some? { return Err(InvalidRecord); }
        found := Some(i);
      }
    }
    if found.None? { return Err(RecordNotFound); }
    return Ok(entries[found.value].name);
  }

  class Spool {
    const directory: Directory
    const lim: Limits
    const sha: Digest

    ghost predicate Valid()
      reads this, directory
    {
      directory.Valid() && ValidLimits(lim)
    }

    constructor (directory: Directory, lim: Limits, sha: Digest)
      requires directory.Valid() && ValidLimits(lim)
      ensures Valid() && this.directory == directory && this.lim == lim && this.sha == sha
    {
      this.directory, this.lim, this.sha := directory, lim, sha;
    }

    method QuarantineEntry(n: Name, reason: QuarantineReason) returns (r: Result<(), SpoolError>)
      requires Valid() && n.quarantined.None? && Holds(directory.files, n)
      modifies directory, directory.device
      ensures Valid() && directory.origin == old(directory.origin)
      ensures old(directory.device.faults) <= directory.device.faults
      ensures var source, target := RecordName(n), RecordName(IsolatedName(n, reason));
              && (directory.timeline == old(directory.timeline) ==> directory.files == old(directory.files))
              && (directory.timeline != old(directory.timeline) ==>
                    && target !in old(directory.files)
                    && directory.files == Renamed(old(directory.files), source, target)
                    && directory.timeline
                       == old(directory.timeline) + [Moment(Isolated(n.id, reason), directory.files)])
              && (r.Err? ==>
                    || (r.error == DestinationExists && target in old(directory.files))
                    || (&& r.error in {PublishedDurabilityUnknown, Io}
                        && old(directory.device.faults) < directory.device.faults))
      ensures directory.timeline != old(directory.timeline) <==> r.Ok? || r.error == PublishedDurabilityUnknown
    {
      hide RecordName, Renamed;
      r := directory.Publish(RecordName(n), RecordName(IsolatedName(n, reason)), Isolated(n.id, reason));
    }

    /** One unreadable record of the walk is moved aside. */
    method IsolateUnreadable(name: string, ghost before: Files, ghost start: seq<Moment>, ghost bad: set<string>)
      returns (r: Result<(), SpoolError>, ghost isolated: set<string>)
      requires Valid() && start <= directory.timeline && Isolation(before, directory.files, bad)
      requires name in before && name !in bad && IsPending(name) && !Readable(before[name], name, lim, sha)
      requires Current(directory.files, lim)
      requires forall m :: m in Since(start, directory.timeline) ==>
                 m.step.Isolated? && m.step.reason == Corrupt && Current(m.files, lim)
      modifies directory, directory.device
      ensures Valid() && directory.origin == old(directory.origin) && start <= directory.timeline
      ensures old(directory.device.faults) <= directory.device.faults
      ensures Isolation(before, directory.files, isolated)
      ensures isolated == if r.Ok? || r.error == PublishedDurabilityUnknown then bad + {name} else bad
      ensures r.Err? ==>
                || (r.error == DestinationExists && BadName(name) in old(directory.files))
                || (&& r.error in {PublishedDurabilityUnknown, Io}
                    && old(directory.device.faults) < directory.device.faults)
      ensures Current(directory.files, lim)
      ensures forall m :: m in Since(start, directory.timeline) ==>
                m.step.Isolated? && m.step.reason == Corrupt && Current(m.files, lim)
    {
      hide Isolation, Readable, Current, Transition, Lawful, StateAt, Renamed, ParseName, RecordName, Stem;
      ghost var was, held := directory.timeline, directory.files;
      isolated := bad;
      IsolationKeeps(before, held, bad, name);
      PendingNameIsHeld(held, name);
      r := QuarantineEntry(ParseName(name).value, Corrupt);
      if directory.timeline != was {
        IsolationStep(before, held, bad, name);
        BadNameFacts(name);
        LockIsNoRecord();
        CurrentAfterRename(held, lim, name, BadName(name));
        isolated := bad + {name};
        assert Since(start, directory.timeline)
            == Since(start, was) + [directory.timeline[|directory.timeline| - 1]];
      }
    }

    /** `next`: the readable head, after isolating the unreadable records before it. */
    method Next() returns (r: Result<Option<SpoolRecord>, SpoolError>, ghost bad: set<string>)
      requires Valid()
      modifies directory, directory.device
      ensures Valid() && directory.origin == old(directory.origin) && old(directory.timeline) <= directory.timeline
      ensures old(directory.device.faults) <= directory.device.faults
      ensures Isolation(old(directory.files), directory.files, bad)
      ensures forall n :: n in bad ==> !Readable(old(directory.files)[n], n, lim, sha)
      ensures r.Ok? && r.value.Some? ==>
                exists n :: && IsHead(old(directory.files), n, r.value.value, lim, sha)
                            && bad == PendingBefore(old(directory.files), n)
      ensures r == Ok(None) ==> bad == Pending(old(directory.files))
      ensures r.Ok? ==> Current(old(directory.files), lim)
      ensures r.Err? ==>
                || (&& r.error in {Io, PublishedDurabilityUnknown}
                    && old(directory.device.faults) < directory.device.faults)
                || (r.error == DestinationExists
                    && exists n :: IsolationBlocked(old(directory.files), n, lim, sha)
                         && bad == PendingBefore(old(directory.files), n))
                || (bad == {} && Refusal(old(directory.files), lim) == Some(r.error))
      ensures Current(old(directory.files), lim) ==> Current(directory.files, lim)
      ensures directory.timeline != old(directory.timeline) ==> Current(directory.files, lim)
      ensures forall m :: m in Since(old(directory.timeline), directory.timeline) ==>
                m.step.Isolated? && m.step.reason == Corrupt && Current(m.files, lim)
    {
      hide ParseName, Total, Isolation, Readable, Current, TextBefore, Lists, Transition, Lawful, StateAt, Listing,
        IsolationBlocked, BadName;
      bad := {};
      ghost var before, start := directory.files, directory.timeline;
      IsolationRefl(before);
      var entries := CurrentEntries(directory, lim);
      if entries.Err? { return Err(entries.error), bad; }
      for i := 0 to |entries.value|
        invariant Valid() && directory.origin == old(directory.origin) && start <= directory.timeline
        invariant old(directory.device.faults) <= directory.device.faults
        invariant bad == PendingIn(entries.value[..i])
        invariant Isolation(before, directory.files, bad)
        invariant forall n :: n in bad ==> n in before && !Readable(before[n], n, lim, sha)
        invariant Current(directory.files, lim)
        invariant forall m :: m in Since(start, directory.timeline) ==>
                    m.step.Isolated? && m.step.reason == Corrupt && Current(m.files, lim)
      {
        var entry := entries.value[i];
        EntryFacts(before, lim, entries.value, i);
        PendingInStep(before, entries.value, i);
        var name := ParseName(entry.name).value;
        if name.quarantined.None? {
          IsolationKeeps(before, directory.files, bad, entry.name);
          var fault := directory.device.Fails();
          if fault { return Err(Io), bad; }
          var bytes := directory.files[entry.name];
          if |bytes| <= lim.maxRecord + CONTAINER_OVERHEAD {
            var record := Decode(bytes, name, lim.maxRecord, sha);
            if record.Ok? {
              HeadFound(before, entries.value, i, record.value, lim, sha);
              return Ok(Some(record.value)), bad;
            }
          }
          Unreadable(bytes, entry.name, lim, sha);
          ghost var held := directory.files;
          var isolated;
          isolated, bad := IsolateUnreadable(entry.name, before, start, bad);
          if isolated.Err? {
            if isolated.error == DestinationExists { BlockedFound(before, held, entries.value, i, bad, lim, sha); }
            return Err(isolated.error), bad;
          }
        }
      }
      PendingInAll(before, entries.value);
      return Ok(None), bad;
    }

    /** `find`: the one pending record with this identifier. */
    method Find(id: RecordId) returns (r: Result<Name, SpoolError>)
      requires Valid()
      modifies directory.device
      ensures old(directory.device.faults) <= directory.device.faults
      ensures r.Ok? ==> r.value.id == id && SolePending(directory.files, r.value) && Current(directory.files, lim)
      ensures r.Err? ==>
                || (r.error == Io && old(directory.device.faults) < directory.device.faults)
                || LookupRefused(directory.files, lim, id, r.error)
    {
      hide ParseName, Listing, Refusal, SolePending;
      var entries := CurrentEntries(directory, lim);
      if entries.Err? { return Err(entries.error); }
      ListingNames(directory.files, entries.value);
      var found := ScanForId(entries.value, id);
      if found.Err? {
        return Err(found.error);
      }
      FoundIsSole(directory.files, found.value, id);
      return Ok(ParseName(found.value).value);
    }

    /** `ack`: remove the one pending record with this identifier, durably. */
    method Ack(id: RecordId) returns (r: Result<(), SpoolError>)
      requires Valid()
      modifies directory, directory.device
      ensures Valid() && directory.origin == old(directory.origin)
      ensures old(directory.device.faults) <= directory.device.faults
      ensures r.Ok? ==> directory.timeline != old(directory.timeline)
      ensures r.Err? ==>
                || (r.error == Io && old(directory.device.faults) < directory.device.faults)
                || (LookupRefused(old(directory.files), lim, id, r.error)
                    && directory.timeline == old(directory.timeline))
      ensures directory.timeline == old(directory.timeline) ==> directory.files == old(directory.files)
      ensures directory.timeline != old(directory.timeline) ==>
                exists n: Name :: n.id == id && SolePending(old(directory.files), n)
                  && directory.files == old(directory.files) - {RecordName(n)}
                  && directory.timeline == old(directory.timeline) + [Moment(Removed(id), directory.files)]
      ensures Current(old(directory.files), lim) ==> Current(directory.files, lim)
      ensures directory.timeline != old(directory.timeline) ==> Current(directory.files, lim)
    {
      hide ParseName, Lawful, Current, RecordName;
      var found := Find(id);
      if found.Err? { return Err(found.error); }
      var n := found.value;
      HeldIsEntry(n);
      CurrentAfterRemoval(directory.files, lim, RecordName(n));
      r := directory.RemoveFile(RecordName(n), Removed(id));
    }

    /** `quarantine`: move the one pending record with this identifier aside. */
    method Quarantine(id: RecordId, reason: QuarantineReason) returns (r: Result<(), SpoolError>)
      requires Valid()
      modifies directory, directory.device
      ensures Valid() && directory.origin == old(directory.origin)
      ensures old(directory.device.faults) <= directory.device.faults
      ensures r.Err? ==>
                || (&& r.error in {Io, PublishedDurabilityUnknown}
                    && old(directory.device.faults) < directory.device.faults)
                || (r.error == DestinationExists
                    && exists n: Name :: n.id == id && SolePending(old(directory.files), n)
                         && RecordName(IsolatedName(n, reason)) in old(directory.files))
                || (LookupRefused(old(directory.files), lim, id, r.error)
                    && directory.timeline == old(directory.timeline))
      ensures r.Ok? || r.error == PublishedDurabilityUnknown <==> directory.timeline != old(directory.timeline)
      ensures directory.timeline == old(directory.timeline) ==> directory.files == old(directory.files)
      ensures directory.timeline != old(directory.timeline) ==>
                exists n: Name :: n.id == id && SolePending(old(directory.files), n)
                  && RecordName(IsolatedName(n, reason)) !in old(directory.files)
                  && directory.files
                     == Renamed(old(directory.files), RecordName(n), RecordName(IsolatedName(n, reason)))
                  && directory.timeline == old(directory.timeline) + [Moment(Isolated(id, reason), directory.files)]
      ensures Current(old(directory.files), lim) ==> Current(directory.files, lim)
      ensures directory.timeline != old(directory.timeline) ==> Current(directory.files, lim)
    {
      hide ParseName, Lawful, Current, RecordName, Renamed;
      var found := Find(id);
      if found.Err? { return Err(found.error); }
      var n := found.value;
      HeldIsEntry(n);
      ghost var before := directory.files;
      r := QuarantineEntry(n, reason);
      if directory.files != before {
        HeldIsEntry(IsolatedName(n, reason));
        CurrentAfterRename(before, lim, RecordName(n), RecordName(IsolatedName(n, reason)));
      }
    }

    /** `enqueue_with_priority`. `id` and `nonce` are the two random draws. */
    method Enqueue(
      contract: ContractId, created: int, priority: byte, payload: seq<byte>, id: RecordId, nonce: RecordId)
      returns (r: Result<RecordId, SpoolError>)
      requires Valid() && I64(created)
      modifies directory, directory.device
      ensures Valid() && directory.origin == old(directory.origin) && old(directory.timeline) <= directory.timeline
      ensures old(directory.device.faults) <= directory.device.faults
      ensures |payload| > lim.maxRecord ==> r == Err(RecordTooLarge)
      ensures |payload| <= lim.maxRecord && created < 0 ==> r == Err(InvalidRecord)
      ensures |payload| > lim.maxRecord || created < 0 ==> directory.timeline == old(directory.timeline)
      ensures |payload| <= lim.maxRecord && created >= 0 ==>
                var n, record := Name(id, priority, created, None), SpoolRecord(id, contract, created, payload);
                var bytes := Encode(record, priority, sha);
                && bytes.Ok?
                && IsContainer(bytes.value, record, n, lim.maxRecord, sha)
                && (r.Ok? ==> r.value == id)
                && (r.Ok? || r.error == PublishedDurabilityUnknown ==>
                      && RecordName(n) !in old(directory.files)
                      && directory.files == old(directory.files)[RecordName(n) := bytes.value])
                && (r.Err? ==> CreationState(old(directory.files), directory.files, nonce, RecordName(n), bytes.value))
                && CreationMoments(
                     old(directory.files), Since(old(directory.timeline), directory.timeline), nonce, n, bytes.value)
                && (AtCapacity(old(directory.files), lim, |bytes.value|) || !Current(old(directory.files), lim) ==>
                      r.Err? && directory.timeline == old(directory.timeline))
                && (r.Err? ==>
                      || (&& r.error in {Io, PublishedDurabilityUnknown}
                          && old(directory.device.faults) < directory.device.faults)
                      || AdmissionRefused(old(directory.files), lim, n, bytes.value, r.error))
      ensures Current(old(directory.files), lim) ==> Recoverable(directory.files, lim)
      ensures Current(old(directory.files), lim) ==>
                forall m :: m in Since(old(directory.timeline), directory.timeline) ==> Recoverable(m.files, lim)
      ensures r.Ok? ==> Current(directory.files, lim)
      ensures Current(old(directory.files), lim) && directory.device.faults == old(directory.device.faults) ==>
                Current(directory.files, lim)
    {
      hide ParseName, RecordName, Lawful, Lists, Encode, Recoverable, Total, Refusal, EntryNames;
      ghost var before := directory.files;
      if Current(before, lim) { CurrentHasNoTemporary(before, lim); }
      if |payload| > lim.maxRecord { return Err(RecordTooLarge); }
      if created < 0 { return Err(InvalidRecord); }
      var record := SpoolRecord(id, contract, created, payload);
      EncodedSize(record, priority, sha);
      RefusalErrors(before, lim);
      var bytes := Encode(record, priority, sha).value;
      var entries := CurrentEntries(directory, lim);
      if entries.Err? { return Err(entries.error); }
      ListingMeasure(directory.files, lim, entries.value);
      if |entries.value| >= lim.maxEntries || SumBytes(entries.value) + |bytes| > lim.maxBytes {
        return Err(SpoolFull);
      }
      var n := Name(id, priority, created, None);
      var publication := directory.AtomicCreate(n, bytes, nonce);
      AdmittedCreation(before, lim, n, bytes, nonce);
      if publication.Err? { return Err(publication.error); }
      return Ok(id);
    }
  }
  // ---------- Opening and recovery ----------

  /** Cleanup keeps every file that is not a temporary, and adds at most the lock. */
  ghost predicate CleanedFrom(before: Files, after: Files) {
    && (forall n :: n in before && !IsTemporary(n) ==> n in after && after[n] == before[n])
    && (forall n :: n in after ==> if n in before then after[n] == before[n] else n == LOCK && after[n] == [])
  }

  ghost function WithLock(files: Files): Files { if LOCK in files then files else files[LOCK := []] }

  lemma TemporaryWeight(files: Files, lim: Limits)
    requires Recoverable(files, lim)
    ensures |EntryNames(files)| <= |EntryNames(files - Temporaries(files))| + 1
    ensures Total(files) <= Total(files - Temporaries(files)) + lim.maxRecord + CONTAINER_OVERHEAD
  {
    hide Refusal, Total, IsTemporary;
    var temporaries := Temporaries(files);
    if t :| t in temporaries {
      OnlyElement(temporaries, t);
      TotalRemove(files, t);
      assert EntryNames(files) <= EntryNames(files - temporaries) + {t};
      SubsetSize(EntryNames(files), EntryNames(files - temporaries) + {t});
    } else {
      assert files - temporaries == files;
    }
  }

  lemma SubsetSize<T>(a: set<T>, b: set<T>)
    requires a <= b
    ensures |a| <= |b|
  {
    assert b == a + (b - a);
  }

  lemma WithLockMeasures(files: Files)
    ensures EntryNames(WithLock(files)) == EntryNames(files)
    ensures |WithLock(files)| == |EntryNames(files)| + 1
    ensures Total(WithLock(files)) == Total(files)
  {
    hide Total;
    if LOCK !in files { TotalInsert(files, LOCK, []); }
    assert WithLock(files).Keys == EntryNames(files) + {LOCK};
  }

  /** A recoverable directory fits the opening inventory under the same limits,
      and is current once its temporary is gone. */
  lemma RecoverableFits(files: Files, lim: Limits)
    requires Recoverable(files, lim)
    ensures |WithLock(files)| <= lim.maxEntries + 2
    ensures Total(WithLock(files)) <= lim.maxBytes + lim.maxRecord + CONTAINER_OVERHEAD
    ensures Current(WithLock(files - Temporaries(files)), lim)
  {
    hide Total, IsTemporary, WellNamed;
    TemporaryWeight(files, lim);
    WithLockMeasures(files);
    LockKeepsCurrent(files - Temporaries(files), lim);
  }

  /** Taking the lock and deleting the temporaries commute. */
  lemma CleanedWithLock(files: Files)
    ensures Temporaries(WithLock(files)) == Temporaries(files)
    ensures WithLock(files - Temporaries(files)) == WithLock(files) - Temporaries(files)
  {
    hide IsTemporary;
    LockIsNoRecord();
  }

  lemma OnlyElement(s: set<string>, t: string)
    requires |s| <= 1 && t in s
    ensures s == {t}
  {
    assert |s - {t}| == |s| - 1;
  }

  lemma LockKeepsCurrent(files: Files, lim: Limits)
    requires Current(files, lim)
    ensures Current(WithLock(files), lim)
  {
    hide ParseName, Total, EntryNames;
    WithLockMeasures(files);
  }

  /** `from_directory`: take the lock, delete exactly the temporaries, and check
      what is left. `running` says whether another process holds the lock. */
  method OpenSpool(directory: Directory, lim: Limits, sha: Digest, running: bool) returns (r: Result<Spool, SpoolError>)
    requires directory.Valid()
    modifies directory, directory.device
    ensures directory.Valid() && directory.origin == old(directory.origin)
    ensures old(directory.timeline) <= directory.timeline && old(directory.device.faults) <= directory.device.faults
    ensures !ValidLimits(lim) ==> r == Err(InvalidLimits) && directory.timeline == old(directory.timeline)
    ensures CleanedFrom(old(directory.files), directory.files)
    ensures forall m :: m in Since(old(directory.timeline), directory.timeline) ==>
              m.step == Staged && CleanedFrom(old(directory.files), m.files)
    ensures r.Ok? ==>
              && r.value.Valid() && r.value.directory == directory && r.value.lim == lim && r.value.sha == sha
              && Current(directory.files, lim)
              && directory.files == WithLock(old(directory.files)) - Temporaries(old(directory.files))
    ensures r == Err(AlreadyRunning) ==> running
    ensures running ==>
              r.Err? && (directory.files == old(directory.files) || directory.files == WithLock(old(directory.files)))
    ensures ValidLimits(lim) && r.Err? && r.error != AlreadyRunning ==>
              || (r.error == Io && old(directory.device.faults) < directory.device.faults)
              || OpeningRefused(old(directory.files), lim, r.error)
  {
    hide Total, Lawful, Recoverable, Current, CleanedFrom, Temporaries, IsTemporary, ParseName, Transition, WithLock;
    CleanedRefl(directory.files);
    if !ValidLimits(lim) { return Err(InvalidLimits); }
    ghost var before, start := directory.files, directory.timeline;
    var locked := directory.CreateLock();
    CleanedLock(before);
    Locked(before);
    if !locked { return Err(Io); }
    if running { return Err(AlreadyRunning); }
    var recovered := Recover(directory, lim, before, start);
    if recovered.Err? { return Err(recovered.error); }
    var spool := new Spool(directory, lim, sha);
    return Ok(spool);
  }

  /** Why the inventory or the final check refuses a directory, faults aside. */
  ghost predicate OpeningRefused(files: Files, lim: Limits, error: SpoolError) {
    if |WithLock(files)| > lim.maxEntries + 2
       || Total(WithLock(files)) > lim.maxBytes + lim.maxRecord + CONTAINER_OVERHEAD
    then error == BudgetExceeded
    else Refusal(WithLock(files) - Temporaries(files), lim) == Some(error)
  }

  lemma RefusalErrors(files: Files, lim: Limits)
    ensures Refusal(files, lim).Some? ==> Refusal(files, lim).value in {BudgetExceeded, InvalidRecord, SpoolFull}
  {
    hide Total, WellNamed;
  }

  /** A recoverable directory is never refused. */
  lemma RecoverableOpens(files: Files, lim: Limits, error: SpoolError)
    requires Recoverable(files, lim)
    ensures !OpeningRefused(files, lim, error)
  {
    hide Refusal, Total, Temporaries, WithLock;
    RecoverableFits(files, lim);
    CleanedWithLock(files);
  }

  lemma Locked(files: Files)
    ensures WithLock(files) == if LOCK in files then files else files[LOCK := []]
  {
  }

  /** Cleanup and the final check, under the lock. */
  method Recover(directory: Directory, lim: Limits, ghost before: Files, ghost start: seq<Moment>)
    returns (r: Result<(), SpoolError>)
    requires directory.Valid() && start <= directory.timeline && ValidLimits(lim)
    requires directory.files == WithLock(before) && CleanedFrom(before, directory.files)
    requires forall m :: m in Since(start, directory.timeline) ==> m.step == Staged && CleanedFrom(before, m.files)
    modifies directory, directory.device
    ensures directory.Valid() && directory.origin == old(directory.origin) && start <= directory.timeline
    ensures old(directory.device.faults) <= directory.device.faults
    ensures CleanedFrom(before, directory.files)
    ensures forall m :: m in Since(start, directory.timeline) ==> m.step == Staged && CleanedFrom(before, m.files)
    ensures r.Ok? ==> Current(directory.files, lim) && directory.files == WithLock(before) - Temporaries(before)
    ensures r.Err? ==>
              || (r.error == Io && old(directory.device.faults) < directory.device.faults)
              || (r.error != AlreadyRunning && OpeningRefused(before, lim, r.error))
  {
    hide Total, Lawful, CleanedFrom, Lists, Temporaries, TemporariesIn, IsTemporary, ParseName, Transition, Refusal,
      WithLock, Listing;
    CleanedWithLock(before);
    RefusalErrors(WithLock(before) - Temporaries(before), lim);
    var entries := directory.List(lim.maxEntries + 2, lim.maxBytes + lim.maxRecord + CONTAINER_OVERHEAD);
    if entries.Err? { return Err(entries.error); }
    TemporariesInAll(directory.files, entries.value);
    var swept := SweepTemporaries(directory, entries.value, before, start);
    if swept.Err? { return Err(swept.error); }
    var admitted := CurrentEntries(directory, lim);
    if admitted.Err? { return Err(admitted.error); }
    return Ok(());
  }

  lemma CleanedRefl(files: Files)
    ensures CleanedFrom(files, files)
  {
  }

  lemma CleanedLock(files: Files)
    ensures CleanedFrom(files, WithLock(files))
  {
  }

  lemma CleanedStep(before: Files, after: Files, name: string)
    requires CleanedFrom(before, after) && IsTemporary(name)
    ensures CleanedFrom(before, after - {name})
  {
    hide IsTemporary;
  }

  /** The cleanup loop over the opening inventory. */
  method SweepTemporaries(directory: Directory, entries: seq<FileEntry>, ghost before: Files, ghost start: seq<Moment>)
    returns (r: Result<(), SpoolError>)
    requires directory.Valid() && start <= directory.timeline
    requires CleanedFrom(before, directory.files) && Lists(directory.files, entries)
    requires forall m :: m in Since(start, directory.timeline) ==> m.step == Staged && CleanedFrom(before, m.files)
    modifies directory, directory.device
    ensures directory.Valid() && directory.origin == old(directory.origin) && start <= directory.timeline
    ensures old(directory.device.faults) <= directory.device.faults
    ensures CleanedFrom(before, directory.files)
    ensures forall m :: m in Since(start, directory.timeline) ==> m.step == Staged && CleanedFrom(before, m.files)
    ensures r.Ok? ==> directory.files == old(directory.files) - TemporariesIn(entries[..|entries|])
    ensures r.Err? ==> r.error == Io && old(directory.device.faults) < directory.device.faults
  {
    hide ParseName, Lawful, IsTemporary, CleanedFrom, Transition, TemporariesIn, Lists, StateAt;
    NoTemporariesYet(entries, directory.files);
    for i := 0 to |entries|
      invariant directory.Valid() && directory.origin == old(directory.origin) && start <= directory.timeline
      invariant old(directory.device.faults) <= directory.device.faults
      invariant directory.files == old(directory.files) - TemporariesIn(entries[..i])
      invariant CleanedFrom(before, directory.files)
      invariant forall m :: m in Since(start, directory.timeline) ==> m.step == Staged && CleanedFrom(before, m.files)
    {
      var name := entries[i].name;
      TemporariesInStep(old(directory.files), entries, i);
      if IsTemporary(name) {
        StagedCleanup(directory.files, name);
        CleanedStep(before, directory.files, name);
        ghost var was := directory.timeline;
        r := directory.RemoveFile(name, Staged);
        assert directory.timeline != was ==>
                 Since(start, directory.timeline) == Since(start, was) + [Moment(Staged, directory.files)];
        if r.Err? { return; }
      }
    }
    return Ok(());
  }

  lemma NoTemporariesYet(entries: seq<FileEntry>, files: Files)
    ensures files - TemporariesIn(entries[..0]) == files
  {
    assert TemporariesIn(entries[..0]) == {};
  }

  ghost function TemporariesIn(entries: seq<FileEntry>): set<string> {
    set e | e in entries && IsTemporary(e.name) :: e.name
  }

  lemma TemporariesInStep(files: Files, entries: seq<FileEntry>, i: nat)
    requires Lists(files, entries) && i < |entries|
    ensures entries[i].name in files - TemporariesIn(entries[..i])
    ensures TemporariesIn(entries[..i + 1])
         == TemporariesIn(entries[..i]) + if IsTemporary(entries[i].name) then {entries[i].name} else {}
  {
    hide IsTemporary;
    assert entries[..i + 1] == entries[..i] + [entries[i]];
  }

  lemma TemporariesInAll(files: Files, entries: seq<FileEntry>)
    requires Lists(files, entries)
    ensures TemporariesIn(entries[..|entries|]) == Temporaries(files)
  {
    hide IsTemporary;
    assert entries[..|entries|] == entries;
    forall n | n in Temporaries(files) ensures n in TemporariesIn(entries) {
      assert FileEntry(n, |files[n]|) in entries;
    }
  }

  lemma StagedCleanup(files: Files, name: string)
    requires IsTemporary(name)
    ensures Transition(files, Staged, files - {name})
  {
    hide ParseName, IsTemporary;
    TemporaryIsNoRecord(name);
  }

  // ---------- Across operations ----------

  /** What `enqueue` stored is readable under the same limits, so `next` never
      isolates it. */
  lemma EnqueuedIsReadable(bytes: seq<byte>, record: SpoolRecord, n: Name, lim: Limits, sha: Digest)
    requires ValidName(n) && n.quarantined.None? && IsContainer(bytes, record, n, lim.maxRecord, sha)
    ensures Readable(bytes, RecordName(n), lim, sha)
    ensures Decode(bytes, n, lim.maxRecord, sha) == Ok(record)
  {
    hide ParseName, RecordName, Decode;
    HeldIsEntry(n);
    DecodeExact(bytes, n, lim.maxRecord, sha, record);
    EncodedSize(record, n.priority, sha);
  }

  /** `next` accepts exactly the containers of records stored under their own names. */
  lemma ReadableExact(bytes: seq<byte>, name: string, lim: Limits, sha: Digest)
    requires ParseName(name).Ok?
    ensures Readable(bytes, name, lim, sha) <==>
              exists record :: IsContainer(bytes, record, ParseName(name).value, lim.maxRecord, sha)
  {
    hide ParseName, Decode, Encode;
    var n := ParseName(name).value;
    if Readable(bytes, name, lim, sha) {
      DecodeExact(bytes, n, lim.maxRecord, sha, Decode(bytes, n, lim.maxRecord, sha).value);
    }
    if record :| IsContainer(bytes, record, n, lim.maxRecord, sha) {
      DecodeExact(bytes, n, lim.maxRecord, sha, record);
      ContainerSize(bytes, record, n, lim.maxRecord, sha);
    }
  }

  lemma ContainerSize(bytes: seq<byte>, record: SpoolRecord, n: Name, max: nat, sha: Digest)
    requires IsContainer(bytes, record, n, max, sha)
    ensures |bytes| <= max + CONTAINER_OVERHEAD
  {
    EncodedSize(record, n.priority, sha);
  }
}
