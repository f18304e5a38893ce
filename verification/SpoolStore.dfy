/** What a spool directory holds: file maps, their sizes, the admission rule of
    `current_entries`, and the steps by which the content changes. */
module SpoolStore {
  import opened Outcomes
  import opened Bytes
  import opened SpoolNames
  import opened SpoolCodec

  type Files = map<string, seq<byte>>

  const LOCK := "spool.instance.lock"
  const MAX_RECORD_BYTES := 1024 * 1024
  const MAX_SPOOL_BYTES := 256 * 1024 * 1024
  const MAX_SPOOL_ENTRIES := 4096

  datatype Limits = Limits(maxRecord: nat, maxEntries: nat, maxBytes: nat)

  predicate ValidLimits(lim: Limits) {
    && 1 <= lim.maxRecord <= MAX_RECORD_BYTES
    && 1 <= lim.maxEntries <= MAX_SPOOL_ENTRIES
    && 1 <= lim.maxBytes <= MAX_SPOOL_BYTES
  }

  // ---------- Byte totals ----------

  ghost function Total(files: Files): nat {
    if files == map[] then 0
    else
      var name :| name in files;
      |files[name]| + Total(files - {name})
  }

  lemma {:induction false} TotalRemove(files: Files, name: string)
    requires name in files
    ensures Total(files) == |files[name]| + Total(files - {name})
    decreases |files|
  {
    var picked :| picked in files && Total(files) == |files[picked]| + Total(files - {picked});
    if picked != name {
      TotalRemove(files - {picked}, name);
      TotalRemove(files - {name}, picked);
      assert files - {picked} - {name} == files - {name} - {picked};
    }
  }

  lemma TotalInsert(files: Files, name: string, bytes: seq<byte>)
    requires name !in files
    ensures Total(files[name := bytes]) == Total(files) + |bytes|
    ensures |files[name := bytes]| == |files| + 1
  {
    hide Total;
    var grown := files[name := bytes];
    TotalRemove(grown, name);
    assert grown - {name} == files;
    assert grown.Keys == files.Keys + {name};
  }

  lemma {:induction false} TotalOfPart(files: Files, left: set<string>)
    ensures Total(files - left) <= Total(files)
    ensures |files - left| <= |files|
    decreases left
  {
    hide Total;
    if name :| name in left {
      if name in files {
        TotalRemove(files, name);
        assert files - left == files - {name} - (left - {name});
        assert (files - {name}).Keys == files.Keys - {name};
        TotalOfPart(files - {name}, left - {name});
      } else {
        assert files - left == files - (left - {name});
        TotalOfPart(files, left - {name});
      }
    } else {
      assert files - left == files;
    }
  }

  ghost function Renamed(files: Files, source: string, target: string): Files
    requires source in files
  {
    (files - {source})[target := files[source]]
  }

  lemma RenameConserves(files: Files, source: string, target: string)
    requires source in files && target !in files
    ensures Total(Renamed(files, source, target)) == Total(files)
    ensures |Renamed(files, source, target)| == |files|
  {
    hide Total;
    TotalRemove(files, source);
    TotalInsert(files - {source}, target, files[source]);
    assert (files - {source}).Keys == files.Keys - {source};
  }

  // ---------- Temporaries ----------

  const TEMP_PREFIX := ".xcsc-atomic-"

  function TempName(nonce: RecordId): string { TEMP_PREFIX + nonce + ".tmp" }

  /** `AtomicFile::is_temporary_name`. */
  predicate IsTemporary(name: string) {
    && TEMP_PREFIX <= name
    && var tail := name[|TEMP_PREFIX|..];
    && |tail| >= 4 && tail[|tail| - 4..] == ".tmp"
    && ValidId(tail[..|tail| - 4])
  }

  lemma TemporaryNames(nonce: RecordId)
    ensures IsTemporary(TempName(nonce))
  {
    var name := TempName(nonce);
    var tail := name[|TEMP_PREFIX|..];
    assert tail == nonce + ".tmp";
    assert tail[..|tail| - 4] == nonce;
  }

  /** Cleanup and record parsing never claim the same name. */
  lemma TemporaryIsNoRecord(name: string)
    requires IsTemporary(name)
    ensures ParseName(name).Err? && name != LOCK
  {
    var tail := name[|TEMP_PREFIX|..];
    var front := name[..|name| - 4];
    assert name == front + "." + "tmp" by {
      assert name == TEMP_PREFIX + tail;
      assert tail == tail[..|tail| - 4] + ".tmp";
    }
    LastDot(front, "tmp");
    assert name[|front| + 1..] == "tmp";
    assert name[0] == '.';
  }

  lemma LockIsNoRecord()
    ensures ParseName(LOCK).Err? && !IsTemporary(LOCK)
  {
    LastDot("spool.instance", "lock");
    assert LOCK == "spool.instance" + "." + "lock";
    assert LOCK[|"spool.instance"| + 1..] == "lock";
    assert LOCK[0] == 's';
  }

  // ---------- Admission ----------

  predicate IsPending(name: string) { ParseName(name).Ok? && ParseName(name).value.quarantined.None? }

  /** The lock is empty and every other name is a record's. */
  ghost predicate WellNamed(files: Files) {
    forall n :: n in files ==> if n == LOCK then files[n] == [] else ParseName(n).Ok?
  }

  ghost function EntryNames(files: Files): set<string> { files.Keys - {LOCK} }

  /** Why `current_entries` refuses a directory, if it does. */
  ghost function Refusal(files: Files, lim: Limits): Option<SpoolError> {
    if |files| > lim.maxEntries + 1 || Total(files) > lim.maxBytes then Some(BudgetExceeded)
    else if !WellNamed(files) then Some(InvalidRecord)
    else if |EntryNames(files)| > lim.maxEntries then Some(SpoolFull)
    else None
  }

  ghost predicate Current(files: Files, lim: Limits) { Refusal(files, lim).None? }

  /** A current spool holds at most the permitted number of entries and bytes, an
      empty lock perhaps, and nothing but records besides. */
  lemma CurrentExactly(files: Files, lim: Limits)
    ensures Current(files, lim) <==>
              && |files.Keys - {LOCK}| <= lim.maxEntries && Total(files) <= lim.maxBytes
              && forall n :: n in files ==> if n == LOCK then files[n] == [] else ParseName(n).Ok?
  {
    hide ParseName, Total;
    EntryCount(files);
  }

  ghost function Temporaries(files: Files): set<string> { set n | n in files && IsTemporary(n) }

  /** A current spool plus at most one unfinished temporary. */
  ghost predicate Recoverable(files: Files, lim: Limits) {
    && |Temporaries(files)| <= 1
    && (forall n :: n in Temporaries(files) ==> |files[n]| <= lim.maxRecord + CONTAINER_OVERHEAD)
    && Current(files - Temporaries(files), lim)
  }

  lemma CurrentHasNoTemporary(files: Files, lim: Limits)
    requires Current(files, lim)
    ensures Temporaries(files) == {} && Recoverable(files, lim)
  {
    forall n | n in files ensures !IsTemporary(n) {
      LockIsNoRecord();
      if IsTemporary(n) { TemporaryIsNoRecord(n); }
    }
    assert files - Temporaries(files) == files;
  }

  lemma WellNamedAfterRename(files: Files, source: string, target: string)
    requires WellNamed(files) && source in files && target !in files
    requires source != LOCK && ParseName(target).Ok?
    ensures WellNamed(Renamed(files, source, target))
    ensures |EntryNames(Renamed(files, source, target))| == |EntryNames(files)|
  {
    hide ParseName;
    LockIsNoRecord();
    assert EntryNames(Renamed(files, source, target)) == (EntryNames(files) - {source}) + {target};
  }

  lemma CurrentAfterRename(files: Files, lim: Limits, source: string, target: string)
    requires Current(files, lim) && source in files && target !in files
    requires source != LOCK && ParseName(target).Ok?
    ensures Current(Renamed(files, source, target), lim)
  {
    hide ParseName, Renamed, WellNamed, EntryNames;
    RenameConserves(files, source, target);
    WellNamedAfterRename(files, source, target);
  }

  lemma CurrentAfterRemoval(files: Files, lim: Limits, name: string)
    requires Current(files, lim) && name in files && name != LOCK
    ensures Current(files - {name}, lim)
  {
    hide ParseName;
    TotalOfPart(files, {name});
    var after := files - {name};
    assert WellNamed(after);
    assert EntryNames(after) == EntryNames(files) - {name};
    assert |EntryNames(after)| <= |EntryNames(files)|;
  }

  lemma WellNamedInsert(files: Files, name: string, bytes: seq<byte>)
    requires WellNamed(files) && ParseName(name).Ok?
    ensures name != LOCK && WellNamed(files[name := bytes])
  {
    hide ParseName;
    LockIsNoRecord();
  }

  lemma CountAfterInsert(files: Files, name: string, bytes: seq<byte>)
    requires name !in files && name != LOCK
    ensures |EntryNames(files[name := bytes])| == |EntryNames(files)| + 1
  {
    assert EntryNames(files[name := bytes]) == EntryNames(files) + {name};
  }

  lemma CurrentAfterAdmission(files: Files, lim: Limits, name: string, bytes: seq<byte>)
    requires Current(files, lim) && name !in files && ParseName(name).Ok?
    requires |EntryNames(files)| < lim.maxEntries && Total(files) + |bytes| <= lim.maxBytes
    ensures Current(files[name := bytes], lim)
  {
    hide ParseName, EntryNames, WellNamed;
    TotalInsert(files, name, bytes);
    WellNamedInsert(files, name, bytes);
    CountAfterInsert(files, name, bytes);
    EntryCount(files[name := bytes]);
  }

  lemma EntryCount(files: Files)
    ensures |EntryNames(files)| <= |files| <= |EntryNames(files)| + 1
  {
    if LOCK in files {
      assert files.Keys == EntryNames(files) + {LOCK};
    } else {
      assert files.Keys == EntryNames(files);
    }
  }

  lemma RecoverableWithTemporary(files: Files, lim: Limits, nonce: RecordId, bytes: seq<byte>)
    requires Current(files, lim) && |bytes| <= lim.maxRecord + CONTAINER_OVERHEAD
    ensures TempName(nonce) !in files
    ensures Recoverable(files[TempName(nonce) := bytes], lim)
  {
    hide ParseName, Refusal, IsTemporary;
    CurrentHasNoTemporary(files, lim);
    TemporaryNames(nonce);
    var after := files[TempName(nonce) := bytes];
    assert Temporaries(after) == {TempName(nonce)};
    assert after - Temporaries(after) == files;
  }

  // ---------- Steps ----------

  datatype SendOutcome = Delivered | Discarding | Isolating(reason: QuarantineReason) | Retaining

  /** One observable step of the store or of the delivery that drives it. */
  datatype Step =
    | Staged                                        // only temporaries or the lock changed
    | Published(id: RecordId)
    | Isolated(id: RecordId, reason: QuarantineReason)
    | Removed(id: RecordId)
    | Sent(id: RecordId, outcome: SendOutcome)      // a send completed
    | Acknowledged(id: RecordId)                    // the callbacks
    | Discarded(id: RecordId)
    | Quarantined(id: RecordId, reason: QuarantineReason)

  datatype Moment = Moment(step: Step, files: Files)

  ghost function Records(files: Files): Files { map n | n in files && ParseName(n).Ok? :: files[n] }

  ghost predicate Holds(files: Files, n: Name) { ValidName(n) && RecordName(n) in files }

  function IsolatedName(n: Name, reason: QuarantineReason): Name { n.(quarantined := Some(reason)) }

  /** The record is in the store, pending. */
  ghost predicate StillPending(files: Files, id: RecordId) {
    exists n: Name :: n.id == id && n.quarantined.None? && Holds(files, n)
  }

  ghost predicate Transition(before: Files, step: Step, after: Files) {
    match step
    case Staged => Records(after) == Records(before)
    case Published(id) =>
      exists n: Name, bytes: seq<byte> {:trigger Records(before)[RecordName(n) := bytes]} ::
        && n.id == id && n.quarantined.None? && ValidName(n) && RecordName(n) !in before
        && Records(after) == Records(before)[RecordName(n) := bytes]
    case Isolated(id, reason) =>
      exists n: Name :: n.id == id && n.quarantined.None? && Holds(before, n)
        && RecordName(IsolatedName(n, reason)) !in before
        && after == Renamed(before, RecordName(n), RecordName(IsolatedName(n, reason)))
    case Removed(id) =>
      exists n: Name :: n.id == id && n.quarantined.None? && Holds(before, n) && after == before - {RecordName(n)}
    case Sent(id, _) => after == before && StillPending(before, id)
    case _ => after == before
  }

  ghost function StateAt(origin: Files, timeline: seq<Moment>, k: nat): Files
    requires k <= |timeline|
  {
    if k == 0 then origin else timeline[k - 1].files
  }

  ghost predicate Lawful(origin: Files, timeline: seq<Moment>) {
    forall k :: 0 <= k < |timeline| ==> Transition(StateAt(origin, timeline, k), timeline[k].step, timeline[k].files)
  }

  lemma LawfulExtend(origin: Files, timeline: seq<Moment>, step: Step, files: Files)
    requires Lawful(origin, timeline)
    requires Transition(StateAt(origin, timeline, |timeline|), step, files)
    ensures Lawful(origin, timeline + [Moment(step, files)])
    ensures StateAt(origin, timeline + [Moment(step, files)], |timeline| + 1) == files
  {
    hide Transition;
    var grown := timeline + [Moment(step, files)];
    forall k | 0 <= k < |grown| ensures Transition(StateAt(origin, grown, k), grown[k].step, grown[k].files) {
      assert StateAt(origin, grown, k) == StateAt(origin, timeline, k);
    }
  }
}
