/** The private directory under a spool (src/fs_safety/unix.rs), one system call
    at a time. Every call may fail; what a process stop leaves behind is any
    state the timeline passes through. */
module SpoolDirectory {
  import opened Outcomes
  import opened Devices
  import opened Bytes
  import opened SpoolNames
  import opened SpoolStore

  datatype FileEntry = FileEntry(name: string, bytes: nat)

  /** The states reached since an earlier point of the timeline. */
  ghost function Since(before: seq<Moment>, now: seq<Moment>): seq<Moment>
    requires before <= now
  {
    now[|before|..]
  }

  /** The directory with the first bytes of an unfinished temporary. */
  ghost predicate IsPartial(before: Files, f: Files, nonce: RecordId, bytes: seq<byte>) {
    exists k :: 0 <= k <= |bytes| && f == before[TempName(nonce) := bytes[..k]]
  }

  /** What a reader of the directory may find between two system calls of an
      atomic creation: the old content, a partial temporary, or the new file. */
  ghost predicate CreationState(before: Files, f: Files, nonce: RecordId, target: string, bytes: seq<byte>) {
    f == before || IsPartial(before, f, nonce, bytes) || (target !in before && f == before[target := bytes])
  }

  ghost predicate CreationMoment(before: Files, m: Moment, nonce: RecordId, target: Name, bytes: seq<byte>)
    requires ValidName(target)
  {
    && CreationState(before, m.files, nonce, RecordName(target), bytes)
    && (m.step == Staged || (m.step == Published(target.id) && m.files == before[RecordName(target) := bytes]))
  }

  ghost predicate CreationMoments(before: Files, moments: seq<Moment>, nonce: RecordId, target: Name, bytes: seq<byte>)
    requires ValidName(target)
  {
    forall m :: m in moments ==> CreationMoment(before, m, nonce, target, bytes)
  }

  class Directory {
    const device: Device
    var files: Files
    ghost var origin: Files
    ghost var timeline: seq<Moment>

    ghost predicate Valid()
      reads this
    {
      && Lawful(origin, timeline)
      && files == StateAt(origin, timeline, |timeline|)
    }

    constructor (content: Files)
      ensures Valid() && files == content == origin && timeline == []
    {
      device := new Device();
      files, origin, timeline := content, content, [];
    }

    ghost method Record(step: Step)
      requires Lawful(origin, timeline)
      requires Transition(StateAt(origin, timeline, |timeline|), step, files)
      modifies this`timeline
      ensures Valid()
      ensures timeline == old(timeline) + [Moment(step, files)]
    {
      LawfulExtend(origin, timeline, step, files);
      timeline := timeline + [Moment(step, files)];
    }

    /** `openat` with O_CREAT | O_EXCL on a temporary. */
    method CreateTemporary(nonce: RecordId) returns (ok: bool)
      requires Valid()
      modifies this, device
      ensures Valid() && origin == old(origin) && old(device.faults) <= device.faults
      ensures !ok ==> TempName(nonce) in old(files) || old(device.faults) < device.faults
      ensures ok ==> TempName(nonce) !in old(files) && files == old(files)[TempName(nonce) := []]
      ensures ok ==> timeline == old(timeline) + [Moment(Staged, files)]
      ensures !ok ==> files == old(files) && timeline == old(timeline)
    {
      hide Transition, TempName, Lawful;
      if TempName(nonce) in files { return false; }
      var fault := device.Fails();
      if fault { return false; }
      StagedWrite(files, nonce, []);
      files := files[TempName(nonce) := []];
      Record(Staged);
      return true;
    }

    /** Opening the lock file, created empty when missing. */
    method CreateLock() returns (ok: bool)
      requires Valid()
      modifies this, device
      ensures Valid() && origin == old(origin) && old(device.faults) <= device.faults
      ensures (files == old(files) && timeline == old(timeline))
           || (&& LOCK !in old(files) && files == old(files)[LOCK := []]
               && timeline == old(timeline) + [Moment(Staged, files)])
      ensures if ok then LOCK in files else old(device.faults) < device.faults
    {
      hide Transition, Lawful;
      var fault := device.Fails();
      if fault { return false; }
      if LOCK !in files {
        StagedLock(files);
        files := files[LOCK := []];
        Record(Staged);
      }
      fault := device.Fails();
      return !fault;
    }

    /** `write_all`: any number of partial writes, stopping at a failed one. */
    method WriteTemporary(nonce: RecordId, bytes: seq<byte>, ghost before: Files) returns (ok: bool)
      requires Valid() && files == before[TempName(nonce) := []]
      modifies this, device
      ensures Valid() && origin == old(origin) && old(timeline) <= timeline && old(device.faults) <= device.faults
      ensures !ok ==> old(device.faults) < device.faults
      ensures IsPartial(before, files, nonce, bytes) && (ok ==> files == before[TempName(nonce) := bytes])
      ensures forall m :: m in Since(old(timeline), timeline) ==>
                m.step == Staged && IsPartial(before, m.files, nonce, bytes)
    {
      hide Transition, TempName, Lawful;
      var name := TempName(nonce);
      var written := 0;
      assert bytes[..0] == [] && files == before[name := bytes[..0]];
      while written < |bytes|
        invariant 0 <= written <= |bytes|
        invariant Valid() && origin == old(origin) && old(timeline) <= timeline && old(device.faults) <= device.faults
        invariant files == before[name := bytes[..written]]
        invariant forall m :: m in Since(old(timeline), timeline) ==>
                    m.step == Staged && IsPartial(before, m.files, nonce, bytes)
      {
        var fault := device.Fails();
        if fault { return false; }
        var upto :| written < upto <= |bytes|;
        ghost var was := timeline;
        StagedWrite(files, nonce, bytes[..upto]);
        files := files[name := bytes[..upto]];
        Record(Staged);
        assert files == before[name := bytes[..upto]];
        assert Since(old(timeline), timeline) == Since(old(timeline), was) + [Moment(Staged, files)];
        written := upto;
      }
      assert bytes[..written] == bytes;
      return true;
    }

    method Unlink(name: string, ghost step: Step) returns (ok: bool)
      requires Valid()
      requires name in files ==> Transition(files, step, files - {name})
      modifies this, device
      ensures Valid() && origin == old(origin) && old(device.faults) <= device.faults
      ensures !ok ==> name !in old(files) || old(device.faults) < device.faults
      ensures ok ==>
                name in old(files) && files == old(files) - {name} && timeline == old(timeline) + [Moment(step, files)]
      ensures !ok ==> files == old(files) && timeline == old(timeline)
    {
      if name !in files { return false; }
      var fault := device.Fails();
      if fault { return false; }
      files := files - {name};
      Record(step);
      return true;
    }

    /** `no_clobber_publish_at` with RENAME_NOREPLACE. The error tells whether the
        rename took place: durability unknown says yes, any other error no. */
    method Publish(source: string, target: string, ghost step: Step) returns (r: Result<(), SpoolError>)
      requires Valid()
      requires source in files && target !in files ==> Transition(files, step, Renamed(files, source, target))
      modifies this, device
      ensures Valid() && origin == old(origin) && old(device.faults) <= device.faults
      ensures if r.Ok? || r.error == PublishedDurabilityUnknown
              then source in old(files) && target !in old(files) && files == Renamed(old(files), source, target)
                   && timeline == old(timeline) + [Moment(step, files)]
              else files == old(files) && timeline == old(timeline)
      ensures r.Err? ==>
                || (r.error == DestinationExists && target in old(files))
                || (r.error in {PublishedDurabilityUnknown, Io} && old(device.faults) < device.faults)
                || (r.error == Io && source !in old(files))
    {
      if source !in files { return Err(Io); }
      var fault := device.Fails();
      if fault { return Err(Io); }
      if target in files { return Err(DestinationExists); }
      files := (files - {source})[target := files[source]];
      Record(step);
      fault := device.Fails();
      if fault { return Err(PublishedDurabilityUnknown); }
      return Ok(());
    }

    /** `remove_file`: unlink, then sync the directory. */
    method RemoveFile(name: string, ghost step: Step) returns (r: Result<(), SpoolError>)
      requires Valid()
      requires name in files ==> Transition(files, step, files - {name})
      modifies this, device
      ensures Valid() && origin == old(origin) && old(device.faults) <= device.faults
      ensures r.Ok? ==>
                name in old(files) && files == old(files) - {name} && timeline == old(timeline) + [Moment(step, files)]
      ensures (files == old(files) && timeline == old(timeline))
           || (name in old(files) && files == old(files) - {name} && timeline == old(timeline) + [Moment(step, files)])
      ensures r.Err? ==> r.error == Io && (name !in old(files) || old(device.faults) < device.faults)
    {
      var ok := Unlink(name, step);
      if !ok { return Err(Io); }
      var fault := device.Fails();
      if fault { return Err(Io); }
      return Ok(());
    }

    /** `atomic_write_at` with create_only: temporary, write, sync, publish, sync;
        after an error the temporary is unlinked, which may itself fail. */
    method AtomicCreate(target: Name, bytes: seq<byte>, nonce: RecordId) returns (r: Result<(), SpoolError>)
      requires Valid() && ValidName(target) && target.quarantined.None?
      modifies this, device
      ensures Valid() && origin == old(origin) && old(timeline) <= timeline && old(device.faults) <= device.faults
      ensures r.Ok? || r.error == PublishedDurabilityUnknown ==>
                RecordName(target) !in old(files) && files == old(files)[RecordName(target) := bytes]
      ensures r.Err? ==>
                || (r.error == DestinationExists && RecordName(target) in old(files))
                || (r.error in {PublishedDurabilityUnknown, Io} && old(device.faults) < device.faults)
                || (r.error == Io && TempName(nonce) in old(files))
      ensures r.Err? ==> CreationState(old(files), files, nonce, RecordName(target), bytes)
      ensures TempName(nonce) in old(files) ==> timeline == old(timeline)
      ensures r.Err? && device.faults == old(device.faults) ==> files == old(files)
      ensures TempName(nonce) !in old(files) && TempName(nonce) in files ==>
                device.faults >= old(device.faults) + if r == Err(DestinationExists) then 1 else 2
      ensures CreationMoments(old(files), Since(old(timeline), timeline), nonce, target, bytes)
    {
      hide RecordName, TempName, Transition, Lawful, Renamed, IsPartial;
      var fault := device.Fails();
      if fault { return Err(Io); }
      ghost var before, start := files, timeline;
      var ok := CreateTemporary(nonce);
      if !ok { return Err(Io); }
      EmptyIsPartial(before, nonce, bytes);
      ghost var created := timeline;
      ok := WriteTemporary(nonce, bytes, before);
      ghost var staged := timeline;
      assert Since(start, staged) == [created[|created| - 1]] + Since(created, staged);
      assert CreationMoments(before, Since(start, staged), nonce, target, bytes);
      r := Err(Io);
      if ok { r := PublishCreated(target, bytes, nonce, before, start); }
      if r.Err? {
        TemporaryIsNotRecordName(target, nonce);
        CleanUp(nonce, before, start, target, bytes);
      }
    }

    /** Syncing the finished temporary, renaming it and reading the result back. */
    method PublishCreated(
      target: Name, ghost bytes: seq<byte>, nonce: RecordId, ghost before: Files, ghost start: seq<Moment>)
      returns (r: Result<(), SpoolError>)
      requires Valid() && ValidName(target) && target.quarantined.None? && start <= timeline
      requires TempName(nonce) !in before && files == before[TempName(nonce) := bytes]
      requires CreationMoments(before, Since(start, timeline), nonce, target, bytes)
      modifies this, device
      ensures Valid() && origin == old(origin) && start <= timeline && old(device.faults) <= device.faults
      ensures r.Ok? || r.error == PublishedDurabilityUnknown ==>
                RecordName(target) !in before && files == before[RecordName(target) := bytes]
      ensures r.Err? ==>
                || (r.error == DestinationExists && RecordName(target) in before)
                || (r.error in {PublishedDurabilityUnknown, Io} && old(device.faults) < device.faults)
      ensures r == Err(DestinationExists) ==> IsPartial(before, files, nonce, bytes)
      ensures r.Ok? ==> TempName(nonce) !in files
      ensures CreationState(before, files, nonce, RecordName(target), bytes)
      ensures CreationMoments(before, Since(start, timeline), nonce, target, bytes)
    {
      hide RecordName, TempName, Transition, Lawful, Renamed, IsPartial;
      ghost var staged := timeline;
      assert CreationState(before, files, nonce, RecordName(target), bytes) by { WholeIsPartial(before, nonce, bytes); }
      var fault := device.Fails();
      if fault { return Err(Io); }
      TemporaryIsNotRecordName(target, nonce);
      PublishedFromTemporary(before, target, bytes, nonce);
      r := Publish(TempName(nonce), RecordName(target), Published(target.id));
      assert timeline != staged ==>
               Since(start, timeline) == Since(start, staged) + [Moment(Published(target.id), files)];
      var unseen := device.Fails();
      var unsynced := device.Fails();
      if r.Ok? && unseen {
        r := Err(Io);
      } else if r.Ok? && unsynced {
        r := Err(PublishedDurabilityUnknown);
      }
    }

    /** After an error our own temporary is unlinked, and that may fail as well. */
    method CleanUp(
      nonce: RecordId, ghost before: Files, ghost start: seq<Moment>, ghost target: Name, ghost bytes: seq<byte>)
      requires Valid() && ValidName(target) && start <= timeline && TempName(nonce) !in before
      requires CreationState(before, files, nonce, RecordName(target), bytes)
      requires CreationMoments(before, Since(start, timeline), nonce, target, bytes)
      modifies this, device
      ensures Valid() && origin == old(origin) && start <= timeline && old(device.faults) <= device.faults
      ensures CreationState(before, files, nonce, RecordName(target), bytes)
      ensures CreationMoments(before, Since(start, timeline), nonce, target, bytes)
      ensures TempName(nonce) !in old(files) ==> files == old(files)
      ensures IsPartial(before, old(files), nonce, bytes) && device.faults == old(device.faults) ==> files == before
      ensures TempName(nonce) in files ==> old(device.faults) < device.faults
    {
      hide RecordName, TempName, Transition, Lawful;
      ghost var reached, held := timeline, files;
      StagedRemoval(files, nonce);
      var ok := Unlink(TempName(nonce), Staged);
      if ok {
        assert files == held - {TempName(nonce)};
        assert IsPartial(before, held, nonce, bytes) ==> files == before;
        assert Since(start, timeline) == Since(start, reached) + [Moment(Staged, files)];
      }
    }

    /** `files`: the inventory within its two budgets, in no particular order. */
    method List(maxEntries: nat, maxBytes: nat) returns (r: Result<seq<FileEntry>, SpoolError>)
      modifies device
      ensures old(device.faults) <= device.faults
      ensures r.Ok? ==> |files| <= maxEntries && Total(files) <= maxBytes && Lists(files, r.value)
      ensures r.Err? ==>
                || (r.error == Io && old(device.faults) < device.faults)
                || (r.error == BudgetExceeded && (|files| > maxEntries || Total(files) > maxBytes))
    {
      hide Total, Lists;
      var entries: seq<FileEntry> := [];
      var total := 0;
      var left := files.Keys;
      NothingListed(files);
      while left != {}
        invariant left <= files.Keys && old(device.faults) <= device.faults
        invariant Lists(files - left, entries)
        invariant |entries| == |files - left| <= maxEntries && total == Total(files - left) <= maxBytes
      {
        var name :| name in left;
        var fault := device.Fails();
        if fault { return Err(Io); }
        ListStep(files, left, name, entries);
        if |entries| >= maxEntries { return Err(BudgetExceeded); }
        total := total + |files[name]|;
        if total > maxBytes { return Err(BudgetExceeded); }
        entries := entries + [FileEntry(name, |files[name]|)];
        left := left - {name};
      }
      assert files - left == files;
      return Ok(entries);
    }
  }

  /** The entries name every file once, with its size. */
  ghost predicate Lists(files: Files, entries: seq<FileEntry>) {
    && (forall i :: 0 <= i < |entries| ==> entries[i].name in files && entries[i].bytes == |files[entries[i].name]|)
    && (forall i, j :: 0 <= i < j < |entries| ==> entries[i].name != entries[j].name)
    && (forall n :: n in files ==> FileEntry(n, |files[n]|) in entries)
  }

  lemma NothingListed(files: Files)
    ensures Lists(files - files.Keys, []) && Total(files - files.Keys) == 0 && |files - files.Keys| == 0
  {
    assert files - files.Keys == map[];
  }

  /** Reading one more name of those left. */
  lemma ListStep(files: Files, left: set<string>, name: string, entries: seq<FileEntry>)
    requires name in left && left <= files.Keys && Lists(files - left, entries)
    ensures Lists(files - (left - {name}), entries + [FileEntry(name, |files[name]|)])
    ensures Total(files - (left - {name})) == Total(files - left) + |files[name]| <= Total(files)
    ensures |files - (left - {name})| == |files - left| + 1 <= |files|
  {
    hide Total;
    var seen := files - left;
    assert seen[name := files[name]] == files - (left - {name});
    TotalInsert(seen, name, files[name]);
    TotalOfPart(files, left - {name});
    ListsGrow(seen, entries, name, files[name]);
  }

  lemma ListsGrow(files: Files, entries: seq<FileEntry>, name: string, bytes: seq<byte>)
    requires Lists(files, entries) && name !in files
    ensures Lists(files[name := bytes], entries + [FileEntry(name, |bytes|)])
  {
  }

  lemma EmptyIsPartial(before: Files, nonce: RecordId, bytes: seq<byte>)
    ensures IsPartial(before, before[TempName(nonce) := []], nonce, bytes)
  {
    assert bytes[..0] == [];
  }

  lemma WholeIsPartial(before: Files, nonce: RecordId, bytes: seq<byte>)
    ensures IsPartial(before, before[TempName(nonce) := bytes], nonce, bytes)
  {
    assert bytes[..|bytes|] == bytes;
  }

  lemma TemporaryIsNotRecordName(n: Name, nonce: RecordId)
    requires ValidName(n)
    ensures TempName(nonce) != RecordName(n)
  {
    TemporaryNames(nonce);
    TemporaryIsNoRecord(TempName(nonce));
    ParseOfRecordName(n);
  }

  lemma StagedRemoval(files: Files, nonce: RecordId)
    ensures Transition(files, Staged, files - {TempName(nonce)})
  {
    TemporaryNames(nonce);
    TemporaryIsNoRecord(TempName(nonce));
  }

  lemma StagedLock(files: Files)
    ensures Transition(files, Staged, files[LOCK := []])
  {
    hide ParseName;
    LockIsNoRecord();
  }

  lemma StagedWrite(files: Files, nonce: RecordId, bytes: seq<byte>)
    ensures Transition(files, Staged, files[TempName(nonce) := bytes])
  {
    TemporaryNames(nonce);
    TemporaryIsNoRecord(TempName(nonce));
  }

  /** Renaming the finished temporary adds exactly the new record. */
  lemma PublishedFromTemporary(before: Files, target: Name, bytes: seq<byte>, nonce: RecordId)
    requires ValidName(target) && target.quarantined.None? && TempName(nonce) !in before
    ensures var staged := before[TempName(nonce) := bytes];
            RecordName(target) !in staged ==>
              && Renamed(staged, TempName(nonce), RecordName(target)) == before[RecordName(target) := bytes]
              && Transition(staged, Published(target.id), Renamed(staged, TempName(nonce), RecordName(target)))
  {
    hide ParseName, RecordName;
    var staged := before[TempName(nonce) := bytes];
    TemporaryNames(nonce);
    TemporaryIsNoRecord(TempName(nonce));
    ParseOfRecordName(target);
    if RecordName(target) !in staged {
      var after := before[RecordName(target) := bytes];
      assert staged - {TempName(nonce)} == before;
      assert Records(after) == Records(staged)[RecordName(target) := bytes];
    }
  }
}
