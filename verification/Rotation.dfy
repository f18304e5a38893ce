/** Rotating log files (src/log/rotating.rs, src/log/windows_rotating.rs). Slot 0
    is the active file, slots 1..archives the archives; every file system call
    may fail. */
module Rotation {
  import opened Outcomes
  import opened Devices
  import opened Bytes
  import LogTail

  const MAX_RECORD_BYTES := 16 * 1024

  /** One `json_line`: a whole record, with its only newline at the end. */
  predicate IsLine(s: seq<byte>) { |s| <= MAX_RECORD_BYTES && LogTail.IsLine(s) && LogTail.EndsLine(s) }

  type Line = s: seq<byte> | IsLine(s) witness [10]

  /** What one write leaves in a file: a line, or the fragment of a failed write. */
  type Chunk = seq<byte>

  /** `sound` is what `require_private` or `verify_acl` find on the file. */
  datatype LogFile = LogFile(ino: nat, chunks: seq<Chunk>, sound: bool)

  type Slots = map<nat, LogFile>

  datatype LogError = InvalidRecord | UnsafeStorage | InvalidLimits | Io

  datatype Retention = Retention(archives: nat, fileBytes: nat)

  predicate ValidRetention(r: Retention) { 1 <= r.archives <= 32 && r.fileBytes >= MAX_RECORD_BYTES }

  function Size(chunks: seq<Chunk>): nat {
    if chunks == [] then 0 else Size(chunks[..|chunks| - 1]) + |chunks[|chunks| - 1]|
  }

  lemma SizeAppend(chunks: seq<Chunk>, chunk: Chunk)
    ensures Size(chunks + [chunk]) == Size(chunks) + |chunk|
  {
    assert (chunks + [chunk])[..|chunks|] == chunks;
  }

  // ---------- What a reader of all slots finds ----------

  function SlotChunks(slots: Slots, i: nat): seq<Chunk> { if i in slots then slots[i].chunks else [] }

  /** Archives n down to 1, then the active file. */
  function Retained(slots: Slots, n: nat): seq<Chunk> {
    SlotChunks(slots, n) + if n == 0 then [] else Retained(slots, n - 1)
  }

  predicate IsSuffix<T(==)>(tail: seq<T>, whole: seq<T>) {
    |tail| <= |whole| && whole[|whole| - |tail|..] == tail
  }

  function Moved(slots: Slots, source: nat, target: nat): Slots
    requires source in slots
  {
    (slots - {source})[target := slots[source]]
  }

  lemma {:induction false} RetainedFrame(a: Slots, b: Slots, n: nat)
    requires forall i :: 0 <= i <= n ==> SlotChunks(a, i) == SlotChunks(b, i)
    ensures Retained(a, n) == Retained(b, n)
  {
    if n > 0 { RetainedFrame(a, b, n - 1); }
  }

  /** Moving a file to the free slot behind it changes nothing a reader sees. */
  lemma {:induction false} RetainedMove(slots: Slots, i: nat, n: nat)
    requires i in slots && i + 1 !in slots && i + 1 <= n
    ensures Retained(Moved(slots, i, i + 1), n) == Retained(slots, n)
  {
    var after := Moved(slots, i, i + 1);
    if n > i + 1 {
      RetainedMove(slots, i, n - 1);
    } else {
      var rest := if i == 0 then [] else Retained(slots, i - 1);
      if i > 0 { RetainedFrame(slots, after, i - 1); }
      assert Retained(slots, i) == slots[i].chunks + rest;
      assert Retained(after, i) == rest;
      assert Retained(slots, n) == slots[i].chunks + rest;
    }
  }

  lemma RetainedWithoutOldest(slots: Slots, n: nat)
    requires n > 0
    ensures IsSuffix(Retained(slots - {n}, n), Retained(slots, n))
  {
    RetainedFrame(slots, slots - {n}, n - 1);
    assert Retained(slots - {n}, n) == Retained(slots, n - 1);
  }

  lemma {:induction false} RetainedAppend(slots: Slots, after: Slots, chunk: Chunk, n: nat)
    requires SlotChunks(after, 0) == SlotChunks(slots, 0) + [chunk]
    requires forall i :: 0 < i <= n ==> SlotChunks(after, i) == SlotChunks(slots, i)
    ensures Retained(after, n) == Retained(slots, n) + [chunk]
  {
    hide SlotChunks;
    if n > 0 {
      RetainedAppend(slots, after, chunk, n - 1);
      assert SlotChunks(slots, n) + (Retained(slots, n - 1) + [chunk]) == Retained(slots, n) + [chunk];
    }
  }

  lemma SuffixExtend<T>(tail: seq<T>, whole: seq<T>, last: T)
    requires IsSuffix(tail, whole)
    ensures IsSuffix(tail + [last], whole + [last])
  {
  }

  lemma SuffixTrans<T>(a: seq<T>, b: seq<T>, c: seq<T>)
    requires IsSuffix(a, b) && IsSuffix(b, c)
    ensures IsSuffix(a, c)
  {
  }

  // ---------- File by file ----------

  /** The files in the slots, the oldest first. */
  function FileList(slots: Slots, n: nat): seq<seq<Chunk>> {
    (if n in slots then [slots[n].chunks] else []) + if n == 0 then [] else FileList(slots, n - 1)
  }

  function Flat(files: seq<seq<Chunk>>): seq<Chunk> {
    if files == [] then [] else Flat(files[..|files| - 1]) + files[|files| - 1]
  }

  /** `files` are all files there ever were, and `written` is what is in them. */
  ghost predicate FilesKnown(slots: Slots, n: nat, files: seq<seq<Chunk>>, written: seq<Chunk>) {
    IsSuffix(FileList(slots, n), files) && Flat(files) == written
  }

  lemma {:induction false} FlatAppend(a: seq<seq<Chunk>>, b: seq<seq<Chunk>>)
    ensures Flat(a + b) == Flat(a) + Flat(b)
  {
    if b == [] {
      assert a + b == a;
    } else {
      FlatAppend(a, b[..|b| - 1]);
      assert (a + b)[..|a + b| - 1] == a + b[..|b| - 1];
    }
  }

  lemma {:induction false} RetainedIsFlat(slots: Slots, n: nat)
    ensures Retained(slots, n) == Flat(FileList(slots, n))
  {
    hide Flat;
    var own := if n in slots then [slots[n].chunks] else [];
    OneFile(SlotChunks(slots, n));
    NoFiles();
    if n > 0 {
      RetainedIsFlat(slots, n - 1);
      FlatAppend(own, FileList(slots, n - 1));
      assert FileList(slots, n) == own + FileList(slots, n - 1);
    } else {
      assert FileList(slots, n) == own;
    }
  }

  lemma NoFiles()
    ensures Flat([]) == []
  {
  }

  lemma OneFile(chunks: seq<Chunk>)
    ensures Flat([chunks]) == chunks
  {
    assert [chunks][..0] == [];
  }

  /** The files after one more write to the last of them. */
  function Extended(files: seq<seq<Chunk>>, chunk: Chunk): seq<seq<Chunk>> {
    if files == [] then [[chunk]] else files[..|files| - 1] + [files[|files| - 1] + [chunk]]
  }

  /** The files after one record, which goes to a new file when the old one is full. */
  function FilesAfter(files: seq<seq<Chunk>>, line: Chunk, full: bool): seq<seq<Chunk>> {
    Extended(if full then files + [[]] else files, line)
  }

  lemma {:induction false} FilesFrame(a: Slots, b: Slots, n: nat)
    requires forall i :: 0 <= i <= n ==> (i in a <==> i in b) && SlotChunks(a, i) == SlotChunks(b, i)
    ensures FileList(a, n) == FileList(b, n)
  {
    assert n in a ==> SlotChunks(a, n) == SlotChunks(b, n);
    if n > 0 { FilesFrame(a, b, n - 1); }
  }

  lemma {:induction false} FilesMove(slots: Slots, i: nat, n: nat)
    requires i in slots && i + 1 !in slots && i + 1 <= n
    ensures FileList(Moved(slots, i, i + 1), n) == FileList(slots, n)
  {
    var after := Moved(slots, i, i + 1);
    if n > i + 1 {
      FilesMove(slots, i, n - 1);
    } else {
      var rest := if i == 0 then [] else FileList(slots, i - 1);
      if i > 0 { FilesFrame(slots, after, i - 1); }
      assert FileList(slots, i) == [slots[i].chunks] + rest;
      assert FileList(after, i) == rest;
    }
  }

  /** The active file is the last one. */
  lemma {:induction false} FilesSplit(slots: Slots, n: nat)
    requires 0 in slots
    ensures FileList(slots, n) == FileList(slots - {0}, n) + [slots[0].chunks]
  {
    if n > 0 {
      FilesSplit(slots, n - 1);
      var own := if n in slots then [slots[n].chunks] else [];
      var rest := FileList(slots - {0}, n - 1);
      assert own + (rest + [slots[0].chunks]) == (own + rest) + [slots[0].chunks];
    }
  }

  lemma KnownAfterRemoval(slots: Slots, n: nat, files: seq<seq<Chunk>>, written: seq<Chunk>)
    requires FilesKnown(slots, n, files, written) && n > 0
    ensures FilesKnown(slots - {n}, n, files, written)
  {
    FilesFrame(slots, slots - {n}, n - 1);
    var rest := FileList(slots, n - 1);
    assert FileList(slots - {n}, n) == rest;
    assert IsSuffix(rest, FileList(slots, n));
    SuffixTrans(rest, FileList(slots, n), files);
  }

  lemma KnownAfterMove(slots: Slots, i: nat, n: nat, files: seq<seq<Chunk>>, written: seq<Chunk>)
    requires FilesKnown(slots, n, files, written) && i in slots && i + 1 !in slots && i + 1 <= n
    ensures FilesKnown(Moved(slots, i, i + 1), n, files, written)
  {
    FilesMove(slots, i, n);
  }

  lemma KnownAfterCreation(slots: Slots, ino: nat, n: nat, files: seq<seq<Chunk>>, written: seq<Chunk>)
    requires FilesKnown(slots, n, files, written) && 0 !in slots
    ensures FilesKnown(slots[0 := LogFile(ino, [], true)], n, files + [[]], written)
  {
    hide IsSuffix, FileList, Flat;
    var after := slots[0 := LogFile(ino, [], true)];
    FilesSplit(after, n);
    assert after - {0} == slots;
    SuffixExtend(FileList(slots, n), files, []);
    FlatAppend(files, [[]]);
    OneFile([]);
    assert Flat(files) + [] == Flat(files);
  }

  lemma ActiveIsLast(slots: Slots, n: nat, files: seq<seq<Chunk>>, written: seq<Chunk>)
    requires FilesKnown(slots, n, files, written) && 0 in slots
    ensures files != [] && files[|files| - 1] == slots[0].chunks
    ensures IsSuffix(FileList(slots - {0}, n), files[..|files| - 1])
  {
    hide FileList, Flat;
    FilesSplit(slots, n);
    LastOfSuffix(FileList(slots - {0}, n), slots[0].chunks, files);
  }

  lemma LastOfSuffix<T>(front: seq<T>, last: T, whole: seq<T>)
    requires IsSuffix(front + [last], whole)
    ensures whole != [] && whole[|whole| - 1] == last && IsSuffix(front, whole[..|whole| - 1])
  {
    var n := |whole| - |front| - 1;
    assert whole[n..][|front|] == last;
    assert whole[..|whole| - 1][n..] == whole[n..][..|front|] == front;
  }

  lemma KnownAfterWrite(
    slots: Slots, after: Slots, n: nat, files: seq<seq<Chunk>>, written: seq<Chunk>, chunk: Chunk)
    requires FilesKnown(slots, n, files, written) && 0 in slots
    requires after == slots[0 := slots[0].(chunks := slots[0].chunks + [chunk])]
    ensures files != [] && FilesKnown(after, n, Extended(files, chunk), written + [chunk])
  {
    hide IsSuffix, FileList;
    ActiveIsLast(slots, n, files, written);
    FilesSplit(after, n);
    assert after - {0} == slots - {0};
    var front, last := files[..|files| - 1], files[|files| - 1] + [chunk];
    SuffixExtend(FileList(slots - {0}, n), front, last);
    assert Extended(files, chunk)[..|front|] == front;
    assert Flat(front) + last == Flat(files) + [chunk];
  }

  // ---------- The directory ----------

  datatype Snapshot = Snapshot(slots: Slots, written: seq<Chunk>)

  ghost predicate Contiguous(s: Snapshot, archives: nat) { IsSuffix(Retained(s.slots, archives), s.written) }

  /** Slots stay within the retention and no two of them are one file. */
  ghost predicate WellFormed(slots: Slots, nextIno: nat, retention: Retention) {
    && (forall i :: i in slots ==> i <= retention.archives && slots[i].ino < nextIno)
    && (forall i, j :: i in slots && j in slots && i != j ==> slots[i].ino != slots[j].ino)
  }

  ghost predicate AllContiguous(history: seq<Snapshot>, archives: nat) {
    forall s :: s in history ==> Contiguous(s, archives)
  }

  class LogDirectory {
    const device: Device
    const retention: Retention
    var slots: Slots
    var nextIno: nat
    ghost var written: seq<Chunk>          // everything appended since opening, after what was there
    ghost var files: seq<seq<Chunk>>       // and the same file by file
    ghost var history: seq<Snapshot>       // every state the directory has been in

    ghost predicate Valid()
      reads this
    {
      && ValidRetention(retention)
      && WellFormed(slots, nextIno, retention)
      && Contiguous(Snapshot(slots, written), retention.archives)
      && FilesKnown(slots, retention.archives, files, written)
      && AllContiguous(history, retention.archives)
    }

    constructor (device: Device, retention: Retention, slots: Slots, nextIno: nat)
      requires ValidRetention(retention)
      requires WellFormed(slots, nextIno, retention)
      ensures Valid() && this.retention == retention && this.slots == slots && this.nextIno == nextIno
      ensures this.device == device
      ensures written == Retained(slots, retention.archives) && history == []
      ensures files == FileList(slots, retention.archives)
    {
      RetainedIsFlat(slots, retention.archives);
      this.device, this.retention, this.slots, this.nextIno := device, retention, slots, nextIno;
      written, history := Retained(slots, retention.archives), [];
      files := FileList(slots, retention.archives);
    }

    method RemoveOldest() returns (ok: bool)
      requires Valid() && retention.archives in slots
      modifies this, device
      ensures old(device.faults) <= device.faults
      ensures Valid() && written == old(written) && files == old(files) && nextIno == old(nextIno)
      ensures slots == if ok then old(slots) - {retention.archives} else old(slots)
      ensures history == old(history) + if ok then [Snapshot(slots, written)] else []
      ensures !ok ==> old(device.faults) < device.faults
    {
      hide Retained, IsSuffix, FilesKnown;
      var fault := device.Fails();
      if fault { return false; }
      RetainedWithoutOldest(slots, retention.archives);
      ghost var n := retention.archives;
      KnownAfterRemoval(slots, n, files, written);
      SuffixTrans(Retained(slots - {n}, n), Retained(slots, n), written);
      slots := slots - {retention.archives};
      history := history + [Snapshot(slots, written)];
      return true;
    }

    /** `fs::rename` replaces its target silently, so the target must be free. */
    method Shift(i: nat) returns (ok: bool)
      requires Valid() && i in slots && i + 1 !in slots && i + 1 <= retention.archives
      modifies this, device
      ensures old(device.faults) <= device.faults
      ensures Valid() && written == old(written) && files == old(files) && nextIno == old(nextIno)
      ensures slots == if ok then Moved(old(slots), i, i + 1) else old(slots)
      ensures history == old(history) + if ok then [Snapshot(slots, written)] else []
      ensures !ok ==> old(device.faults) < device.faults
    {
      hide Retained, IsSuffix, FilesKnown;
      var fault := device.Fails();
      if fault { return false; }
      RetainedMove(slots, i, retention.archives);
      KnownAfterMove(slots, i, retention.archives, files, written);
      slots := (slots - {i})[i + 1 := slots[i]];
      history := history + [Snapshot(slots, written)];
      return true;
    }

    /** Creating a file and then checking it: a failure may leave the file behind. */
    method CreateActive() returns (ok: bool)
      requires Valid() && 0 !in slots
      modifies this, device
      ensures old(device.faults) <= device.faults
      ensures Valid() && written == old(written)
      ensures (slots == old(slots)[0 := LogFile(old(nextIno), [], true)] && nextIno == old(nextIno) + 1
               && files == old(files) + [[]] && history == old(history) + [Snapshot(slots, written)])
           || (!ok && slots == old(slots) && nextIno == old(nextIno) && files == old(files) && history == old(history))
      ensures !ok ==> old(device.faults) < device.faults
    {
      hide Retained, IsSuffix, FilesKnown;
      var fault := device.Fails();
      if fault { return false; }
      RetainedFrame(slots, slots[0 := LogFile(nextIno, [], true)], retention.archives);
      KnownAfterCreation(slots, nextIno, retention.archives, files, written);
      files := files + [[]];
      slots := slots[0 := LogFile(nextIno, [], true)];
      nextIno := nextIno + 1;
      history := history + [Snapshot(slots, written)];
      fault := device.Fails();
      ok := !fault;
    }

    /** `write_all` and `flush` or `sync_all` on the active file: all of the line,
        or a failure that may leave any prefix of it behind. */
    method Append(line: Line) returns (ok: bool, ghost chunk: Chunk)
      requires Valid() && 0 in slots
      modifies this, device
      ensures old(device.faults) <= device.faults
      ensures Valid() && nextIno == old(nextIno)
      ensures chunk <= line && (ok ==> chunk == line) && (!ok ==> old(device.faults) < device.faults)
      ensures if chunk == [] then
                slots == old(slots) && written == old(written) && files == old(files) && history == old(history)
              else && written == old(written) + [chunk]
                   && old(files) != [] && files == Extended(old(files), chunk)
                   && slots == old(slots)[0 := old(slots)[0].(chunks := old(slots)[0].chunks + [chunk])]
                   && history == old(history) + [Snapshot(slots, written)]
    {
      hide IsLine, IsSuffix, Retained, FilesKnown, Flat, Size;
      LineNotEmpty(line);
      var fault := device.Fails();
      var n :| 0 <= n <= |line| && (!fault ==> n == |line|);
      chunk := line[..n];
      if n == 0 { return false, []; }
      var active := slots[0];
      ghost var before := Retained(slots, retention.archives);
      ghost var after := slots[0 := active.(chunks := active.chunks + [line[..n]])];
      RetainedAppend(slots, after, line[..n], retention.archives);
      SuffixExtend(before, written, line[..n]);
      KnownAfterWrite(slots, after, retention.archives, files, written, line[..n]);
      files := Extended(files, line[..n]);
      slots := slots[0 := active.(chunks := active.chunks + [line[..n]])];
      written := written + [line[..n]];
      history := history + [Snapshot(slots, written)];
      ok := !fault;
      assert n == |line| ==> line[..n] == line;
    }
  }

  lemma LineNotEmpty(line: Line)
    ensures line != []
  {
  }

  // ---------- The shift ----------

  /** Where the file in slot j was before the archives above i moved up. */
  function Origin(i: int, j: nat): int { if j <= i then j else j - 1 }

  /** The slots once every archive above i has moved up by one and slot i + 1 is free. */
  function Shifted(slots: Slots, i: int, n: nat): Slots
    requires -1 <= i
  {
    map j: nat | j <= n && j != i + 1 && Origin(i, j) in slots :: slots[Origin(i, j)]
  }

  lemma ShiftedStep(slots: Slots, i: nat, n: nat)
    requires i < n
    ensures i + 1 !in Shifted(slots, i, n)
    ensures i in Shifted(slots, i, n) <==> i in slots
    ensures i in slots ==> Shifted(slots, i, n)[i] == slots[i]
    ensures i in slots ==> Moved(Shifted(slots, i, n), i, i + 1) == Shifted(slots, i - 1, n)
    ensures i !in slots ==> Shifted(slots, i, n) == Shifted(slots, i - 1, n)
  {
    if i in slots {
      assert Moved(Shifted(slots, i, n), i, i + 1) == Shifted(slots, i - 1, n);
    }
  }

  /** The slots after one record: rotated first when the active file would overflow. */
  function AfterWrite(slots: Slots, line: Line, bytes: nat, nextIno: nat, r: Retention): Slots {
    var ready := if bytes + |line| > r.fileBytes then Rotated(slots, nextIno, r.archives) else slots;
    if 0 in ready then ready[0 := ready[0].(chunks := ready[0].chunks + [line])] else ready
  }

  function Rotated(slots: Slots, ino: nat, n: nat): Slots { Shifted(slots, -1, n)[0 := LogFile(ino, [], true)] }

  /** A record that fits is added to the active file and nothing else changes. One that
      does not fit opens a new active file, and every other file moves up one slot. */
  lemma WriteRotatesExactly(slots: Slots, line: Line, bytes: nat, nextIno: nat, r: Retention)
    requires 0 in slots
    ensures var after := AfterWrite(slots, line, bytes, nextIno, r);
            if bytes + |line| <= r.fileBytes then
              after == slots[0 := slots[0].(chunks := slots[0].chunks + [line])]
            else
              && 0 in after && after[0] == LogFile(nextIno, [line], true)
              && (forall j :: j in after ==> j <= r.archives)
              && (forall j :: 1 <= j <= r.archives ==> (j in after <==> j - 1 in slots))
              && (forall j :: 1 <= j <= r.archives && j in after ==> after[j] == slots[j - 1])
  {
    assert [] + [line] == [line];
  }

  /** A rotation drops the oldest archive and nothing else. */
  lemma {:induction false} RotationDropsOldest(slots: Slots, ino: nat, n: nat)
    ensures SlotChunks(slots, n) + Retained(Rotated(slots, ino, n), n) == Retained(slots, n)
  {
    if n > 0 { RotatedBelow(slots, ino, n, n); }
  }

  lemma {:induction false} RotatedBelow(slots: Slots, ino: nat, n: nat, k: nat)
    requires 1 <= k <= n
    ensures Retained(Rotated(slots, ino, n), k) == Retained(slots, k - 1)
  {
    var after := Rotated(slots, ino, n);
    assert SlotChunks(after, k) == SlotChunks(slots, k - 1);
    if k > 1 {
      RotatedBelow(slots, ino, n, k - 1);
    } else {
      assert Retained(after, 0) == [];
    }
  }

  lemma ShiftedAway(slots: Slots, n: nat)
    ensures 0 !in Shifted(slots, -1, n)
  {
  }

  lemma ShiftedActive(slots: Slots, i: nat, n: nat)
    requires 0 in slots
    ensures 0 in Shifted(slots, i, n) && Shifted(slots, i, n)[0] == slots[0]
  {
  }

  lemma ShiftedStart(slots: Slots, nextIno: nat, retention: Retention)
    requires WellFormed(slots, nextIno, retention) && retention.archives > 0
    ensures slots - {retention.archives} == Shifted(slots, retention.archives - 1, retention.archives)
  {
  }

  ghost predicate Bounded(slots: Slots, limit: nat) { forall i :: i in slots ==> Size(slots[i].chunks) <= limit }

  lemma BoundedShifted(slots: Slots, i: int, n: nat, limit: nat)
    requires -1 <= i && Bounded(slots, limit)
    ensures Bounded(Shifted(slots, i, n), limit)
  {
    hide Size;
  }

  lemma BoundedFresh(slots: Slots, ino: nat, limit: nat)
    requires Bounded(slots, limit)
    ensures Bounded(slots[0 := LogFile(ino, [], true)], limit)
  {
  }

  ghost predicate WholeLines(chunks: seq<Chunk>, from: nat, to: int) {
    forall k :: from <= k < to && k < |chunks| ==> IsLine(chunks[k])
  }

  lemma WholeLinesBut(chunks: seq<Chunk>, from: nat)
    requires WholeLines(chunks, from, |chunks|)
    ensures WholeLines(chunks, from, |chunks| - 1)
  {
  }

  /** A failed write left a part of the line at the end. */
  ghost predicate Torn(before: seq<Chunk>, after: seq<Chunk>, line: Line) {
    exists chunk: Chunk :: chunk != [] && chunk <= line && after == before + [chunk]
  }

  /** The last thing written is the last of the active file. */
  ghost predicate EndsActive(slots: Slots, written: seq<Chunk>) {
    && 0 in slots && slots[0].chunks != [] && written != []
    && slots[0].chunks[|slots[0].chunks| - 1] == written[|written| - 1]
  }

  /** The files found on opening are still the first ones: `before`, and the then
      active one, which held `base`. */
  ghost predicate Layout(files: seq<seq<Chunk>>, before: seq<seq<Chunk>>, base: seq<Chunk>) {
    |before| < |files| && files[..|before|] == before && base <= files[|before|]
  }

  lemma LayoutGrows(files: seq<seq<Chunk>>, before: seq<seq<Chunk>>, base: seq<Chunk>, chunk: Chunk)
    requires Layout(files, before, base)
    ensures Layout(files + [[]], before, base) && Layout(Extended(files, chunk), before, base)
  {
  }

  lemma LayoutOnOpening(slots: Slots, n: nat, files: seq<seq<Chunk>>, written: seq<Chunk>)
    requires FilesKnown(slots, n, files, written) && 0 in slots
    ensures files != []
    ensures Layout(files, files[..|files| - 1], slots[0].chunks)
    ensures files == files[..|files| - 1] + [slots[0].chunks]
    ensures |written| == |Flat(files[..|files| - 1])| + |slots[0].chunks|
  {
    ActiveIsLast(slots, n, files, written);
  }

  lemma EmptySize()
    ensures Size([]) == 0
  {
  }

  /** What a write needs of the files: the active one sound, and every archive as
      well when the write has to rotate. */
  ghost predicate Writable(slots: Slots, n: nat, full: bool) {
    0 in slots && slots[0].sound && (full ==> SoundFrom(slots, 1, n))
  }

  ghost predicate SoundFrom(slots: Slots, i: nat, n: nat) {
    forall j :: j in slots && i <= j <= n ==> slots[j].sound
  }

  // ---------- The sink on Unix ----------

  class UnixSink {
    const dir: LogDirectory
    const retention: Retention
    var file: nat                 // inode of the held descriptor
    var bytes: nat
    ghost const before: seq<seq<Chunk>>  // the archives found on opening
    ghost const base: seq<Chunk>         // what the active file held then
    ghost const found: nat               // and all of them together

    /** The held file is still the active one and holds exactly `bytes`. */
    ghost predicate Settled()
      reads this, dir
    {
      0 in dir.slots && dir.slots[0].ino == file && Size(dir.slots[0].chunks) == bytes
    }

    ghost predicate Valid()
      reads this, dir
    {
      && dir.Valid() && dir.retention == retention && file < dir.nextIno
      && bytes <= retention.fileBytes
      && Bounded(dir.slots, retention.fileBytes)
      && found <= |dir.written|
      && WholeLines(dir.written, found, |dir.written| - if Settled() then 0 else 1)
      && found == |Flat(before)| + |base| && Layout(dir.files, before, base)
    }

    constructor (dir: LogDirectory)
      requires dir.Valid() && 0 in dir.slots
      requires Bounded(dir.slots, dir.retention.fileBytes)
      ensures Valid() && Settled() && this.dir == dir && this.retention == dir.retention
      ensures before + [base] == dir.files && base == dir.slots[0].chunks && found == |dir.written|
    {
      hide FilesKnown, Flat, Layout, FileList, Size, Retained, IsSuffix;
      LayoutOnOpening(dir.slots, dir.retention.archives, dir.files, dir.written);
      this.dir, this.retention := dir, dir.retention;
      file, before, base := dir.slots[0].ino, dir.files[..|dir.files| - 1], dir.slots[0].chunks;
      found := |dir.written|;
      bytes := Size(dir.slots[0].chunks);
    }

    /** An error is a fault of the device, or names a file that is not ready. */
    ghost predicate Refused(faults: nat, ready: bool, error: LogError)
      reads dir.device
    {
      (error == Io && faults < dir.device.faults) || (error == UnsafeStorage && !ready)
    }

    /** Frees slot 1 by moving every archive one slot up, the oldest one going first. */
    method ShiftArchives() returns (r: Result<(), LogError>)
      requires Valid() && Settled()
      modifies dir, dir.device
      ensures old(dir.device.faults) <= dir.device.faults
      ensures Valid() && Settled() && dir.nextIno == old(dir.nextIno) && dir.files == old(dir.files)
      ensures dir.written == old(dir.written) && old(dir.history) <= dir.history
      ensures r.Ok? ==> dir.slots == Shifted(old(dir.slots), 0, retention.archives)
      ensures r.Ok? ==> SoundFrom(old(dir.slots), 1, retention.archives)
      ensures r.Err? ==> Refused(old(dir.device.faults), SoundFrom(old(dir.slots), 1, retention.archives), r.error)
    {
      hide Size, Retained, Contiguous, IsLine, AllContiguous, WholeLines, Bounded, Shifted, Moved, WellFormed, Layout,
        FilesKnown, Flat, Extended;
      ghost var before := dir.slots;
      var n := retention.archives;
      ShiftedStart(before, dir.nextIno, retention);
      BoundedShifted(before, n - 1, n, retention.fileBytes);
      ShiftedActive(before, n - 1, n);
      if n in dir.slots {
        if !dir.slots[n].sound { return Err(UnsafeStorage); }
        var removed := dir.RemoveOldest();
        if !removed { return Err(Io); }
      }
      var i := n - 1;
      while i >= 1
        invariant 0 <= i < n
        invariant dir.slots == Shifted(before, i, n) && dir.nextIno == old(dir.nextIno)
        invariant Valid() && Settled() && dir.files == old(dir.files)
        invariant dir.written == old(dir.written) && old(dir.history) <= dir.history
        invariant old(dir.device.faults) <= dir.device.faults && SoundFrom(before, i + 1, n)
      {
        ShiftedStep(before, i, n);
        BoundedShifted(before, i - 1, n, retention.fileBytes);
        ShiftedActive(before, i - 1, n);
        if i in dir.slots {
          if !dir.slots[i].sound { return Err(UnsafeStorage); }
          var moved := dir.Shift(i);
          if !moved { return Err(Io); }
        }
        i := i - 1;
      }
      return Ok(());
    }

    method Rotate() returns (r: Result<(), LogError>)
      requires Valid() && Settled() && bytes > 0
      modifies this, dir, dir.device
      ensures old(dir.device.faults) <= dir.device.faults
      ensures Valid() && dir.written == old(dir.written) && old(dir.history) <= dir.history
      ensures r.Ok? ==> Settled() && bytes == 0 && dir.files == old(dir.files) + [[]]
      ensures r.Ok? ==> dir.slots == Rotated(old(dir.slots), old(dir.nextIno), retention.archives)
      ensures r.Ok? ==> Writable(old(dir.slots), retention.archives, true)
      ensures r.Err? ==> Refused(old(dir.device.faults), Writable(old(dir.slots), retention.archives, true), r.error)
    {
      hide Size, Retained, Contiguous, IsLine, AllContiguous, WholeLines, Bounded, Shifted, Moved, WellFormed, Layout,
        FilesKnown, Flat, Extended;
      ghost var start := dir.slots;
      var fault := dir.device.Fails();
      if fault { return Err(Io); }
      r := ShiftArchives();
      if r.Err? { return; }
      ShiftedStep(start, 0, retention.archives);
      ShiftedActive(start, 0, retention.archives);
      BoundedShifted(start, -1, retention.archives, retention.fileBytes);
      BoundedFresh(Shifted(start, -1, retention.archives), dir.nextIno, retention.fileBytes);
      ShiftedAway(start, retention.archives);
      WholeLinesBut(dir.written, found);
      LayoutGrows(dir.files, before, base, []);
      EmptySize();
      if 0 !in dir.slots || dir.slots[0].ino != file || !dir.slots[0].sound { return Err(UnsafeStorage); }
      var moved := dir.Shift(0);
      if !moved { return Err(Io); }
      var created := dir.CreateActive();
      if !created { return Err(Io); }
      file := dir.slots[0].ino;
      fault := dir.device.Fails();
      if fault { return Err(Io); }
      bytes := 0;
      fault := dir.device.Fails();
      if fault { return Err(Io); }
      return Ok(());
    }

    /** `record` is the outcome of `json_line`. */
    method Write(record: Option<Line>) returns (r: Result<(), LogError>)
      requires Valid()
      modifies this, dir, dir.device
      ensures old(dir.device.faults) <= dir.device.faults
      ensures Valid() && old(dir.history) <= dir.history
      ensures r.Ok? ==> old(Settled()) && Settled() && record.Some? && dir.written == old(dir.written) + [record.value]
      ensures r.Ok? ==> dir.slots == AfterWrite(old(dir.slots), record.value, old(bytes), old(dir.nextIno), retention)
      ensures r.Err? ==> (dir.written == old(dir.written)
                          || (!Settled() && record.Some? && Torn(old(dir.written), dir.written, record.value)
                              && EndsActive(dir.slots, dir.written)))
      ensures r.Ok? ==>
                var full := old(bytes) + |record.value| > retention.fileBytes;
                dir.files == FilesAfter(old(dir.files), record.value, full)
      ensures r == Err(InvalidRecord) <==> record.None?
      ensures record.Some? ==>
                var full := old(bytes) + |record.value| > retention.fileBytes;
                var ready := old(Settled()) && Writable(old(dir.slots), retention.archives, full);
                (r.Ok? ==> ready) && (r.Err? ==> Refused(old(dir.device.faults), ready, r.error))
      ensures !old(Settled()) ==> r.Err? && !Settled() && dir.slots == old(dir.slots) && dir.history == old(dir.history)
    {
      if record.None? { return Err(InvalidRecord); }
      if 0 !in dir.slots || dir.slots[0].ino != file || !dir.slots[0].sound { return Err(UnsafeStorage); }
      if Size(dir.slots[0].chunks) != bytes { return Err(UnsafeStorage); }
      r := AppendLine(record.value);
    }

    method AppendLine(line: Line) returns (r: Result<(), LogError>)
      requires Valid() && Settled() && dir.slots[0].sound
      modifies this, dir, dir.device
      ensures old(dir.device.faults) <= dir.device.faults
      ensures Valid() && old(dir.history) <= dir.history
      ensures r.Ok? ==> Settled() && dir.written == old(dir.written) + [line]
      ensures r.Ok? ==> dir.slots == AfterWrite(old(dir.slots), line, old(bytes), old(dir.nextIno), retention)
      ensures r.Err? ==> (dir.written == old(dir.written)
                          || (!Settled() && Torn(old(dir.written), dir.written, line)
                              && EndsActive(dir.slots, dir.written)))
      ensures r.Ok? ==> dir.files == FilesAfter(old(dir.files), line, old(bytes) + |line| > retention.fileBytes)
      ensures var full := old(bytes) + |line| > retention.fileBytes;
              var ready := Writable(old(dir.slots), retention.archives, full);
              (r.Ok? ==> ready) && (r.Err? ==> Refused(old(dir.device.faults), ready, r.error))
    {
      hide Retained, Contiguous, AllContiguous, WellFormed, Shifted, Moved, Size, Layout, FilesKnown, Flat,
        Extended, LogTail.IsLine;
      if bytes + |line| > retention.fileBytes {
        r := Rotate();
        if r.Err? { return; }
      }
      ghost var chunks, files := dir.slots[0].chunks, dir.files;
      var ok, chunk := dir.Append(line);
      SizeAppend(chunks, chunk);
      LayoutGrows(files, before, base, chunk);
      if !ok {
        return Err(Io);
      }
      bytes := bytes + |line|;
      return Ok(());
    }
  }

  predicate Good(f: LogFile, r: Retention) { f.sound && Size(f.chunks) <= r.fileBytes }

  ghost predicate AllGood(slots: Slots, r: Retention) {
    forall i :: i in slots && 1 <= i <= r.archives ==> Good(slots[i], r)
  }

  ghost predicate Distinct(slots: Slots, nextIno: nat) {
    && (forall i :: i in slots ==> slots[i].ino < nextIno)
    && (forall i, j :: i in slots && j in slots && i != j ==> slots[i].ino != slots[j].ino)
  }

  method CheckArchives(slots: Slots, retention: Retention) returns (r: Result<(), LogError>)
    ensures r.Ok? <==> AllGood(slots, retention)
    ensures r.Err? ==> r.error in {UnsafeStorage, InvalidLimits}
  {
    var index := 1;
    while index <= retention.archives
      invariant forall i :: i in slots && 1 <= i < index ==> Good(slots[i], retention)
    {
      if index in slots {
        if !slots[index].sound { return Err(UnsafeStorage); }
        if Size(slots[index].chunks) > retention.fileBytes { return Err(InvalidLimits); }
      }
      index := index + 1;
    }
    return Ok(());
  }

  predicate InRange(slots: Slots, r: Retention) { forall i | i in slots :: i <= r.archives }

  /** What `open_named` asks of the directory. Nothing in it looks inside a file. */
  ghost predicate Openable(slots: Slots, r: Retention) {
    ValidRetention(r) && InRange(slots, r) && AllGood(slots, r) && (0 in slots ==> Good(slots[0], r))
  }

  function WithActive(slots: Slots, ino: nat): Slots {
    if 0 in slots then slots else slots[0 := LogFile(ino, [], true)]
  }

  lemma SameArchives(slots: Slots, ino: nat, r: Retention)
    ensures AllGood(WithActive(slots, ino), r) <==> AllGood(slots, r)
  {
    var all := WithActive(slots, ino);
    assert forall i :: i in slots && i > 0 ==> i in all && all[i] == slots[i];
    assert forall i :: i in all && i > 0 ==> i in slots && all[i] == slots[i];
  }

  /** What opening finds beside the slots: the mode and owner of the directory, the
      writer lock, and archive names that are no slot number from 1 on. */
  datatype Surroundings = Surroundings(directoryPrivate: bool, leased: bool, strayArchive: bool)

  predicate Orderly(around: Surroundings) { around.directoryPrivate && around.leased && !around.strayArchive }

  /** The checks of `open_named`, which creates the active file when it is missing. */
  method OpenUnix(device: Device, retention: Retention, slots: Slots, nextIno: nat, around: Surroundings)
    returns (r: Result<UnixSink, LogError>)
    requires Distinct(slots, nextIno)
    modifies device
    ensures old(device.faults) <= device.faults
    ensures r.Ok? ==> Orderly(around) && Openable(slots, retention) && r.value.dir.device == device
    ensures r.Err? ==>
              || (r.error == Io && old(device.faults) < device.faults)
              || (r.error in {UnsafeStorage, InvalidLimits} && !(Orderly(around) && Openable(slots, retention)))
    ensures r.Ok? ==> && fresh(r.value) && fresh(r.value.dir) && r.value.Valid() && r.value.Settled()
                      && r.value.retention == retention && r.value.dir.slots == WithActive(slots, nextIno)
                      && r.value.base == WithActive(slots, nextIno)[0].chunks
                      && r.value.before + [r.value.base] == r.value.dir.files
                      && r.value.found == |r.value.dir.written|
    ensures !ValidRetention(retention) ==> r == Err(InvalidLimits)
  {
    hide Size, Retained, FileList, Flat, FilesKnown, Layout, WholeLines, IsSuffix;
    if !ValidRetention(retention) { return Err(InvalidLimits); }
    var fault := device.Fails();
    if fault { return Err(Io); }
    if !around.directoryPrivate { return Err(UnsafeStorage); }
    if !around.leased { return Err(UnsafeStorage); }
    if around.strayArchive { return Err(UnsafeStorage); }
    if !InRange(slots, retention) { return Err(UnsafeStorage); }
    EmptySize();
    SameArchives(slots, nextIno, retention);
    var all := WithActive(slots, nextIno);
    if !all[0].sound { return Err(UnsafeStorage); }
    if Size(all[0].chunks) > retention.fileBytes { return Err(InvalidLimits); }
    var checked := CheckArchives(all, retention);
    if checked.Err? { return Err(checked.error); }
    var dir := new LogDirectory(device, retention, all, nextIno + 1);
    var sink := new UnixSink(dir);
    return Ok(sink);
  }

  // ---------- The sink on Windows ----------

  class WindowsSink {
    const dir: LogDirectory
    const retention: Retention
    var file: Option<nat>
    var bytes: nat
    var failed: bool
    ghost const before: seq<seq<Chunk>>
    ghost const base: seq<Chunk>
    ghost const found: nat

    ghost predicate Settled()
      reads this, dir
    {
      0 in dir.slots && file == Some(dir.slots[0].ino) && Size(dir.slots[0].chunks) == bytes
    }

    /** What holds even half way through a write. */
    ghost predicate Consistent()
      reads this, dir
    {
      && dir.Valid() && dir.retention == retention
      && bytes <= retention.fileBytes && found <= |dir.written|
      && WholeLines(dir.written, found, |dir.written| - if Settled() then 0 else 1)
      && found == |Flat(before)| + |base| && Layout(dir.files, before, base)
    }

    ghost predicate Valid()
      reads this, dir
    {
      Consistent() && (failed || Settled())
    }

    constructor (dir: LogDirectory)
      requires dir.Valid() && 0 in dir.slots && Size(dir.slots[0].chunks) <= dir.retention.fileBytes
      ensures Valid() && !failed && this.dir == dir
      ensures before + [base] == dir.files && base == dir.slots[0].chunks && found == |dir.written|
    {
      hide FilesKnown, Flat, Layout, FileList, Size, Retained, IsSuffix;
      LayoutOnOpening(dir.slots, dir.retention.archives, dir.files, dir.written);
      this.dir, this.retention := dir, dir.retention;
      file, failed := Some(dir.slots[0].ino), false;
      before, base, found := dir.files[..|dir.files| - 1], dir.slots[0].chunks, |dir.written|;
      bytes := Size(dir.slots[0].chunks);
    }

    /** An error is a fault of the device, or names a file that is not ready. */
    ghost predicate Refused(faults: nat, ready: bool, error: LogError)
      reads dir.device
    {
      (error == Io && faults < dir.device.faults) || (error in {UnsafeStorage, InvalidLimits} && !ready)
    }

    method CheckedArchive(index: nat) returns (r: Result<bool, LogError>)
      ensures r.Ok? ==> r.value == (index in dir.slots) && (index in dir.slots ==> Good(dir.slots[index], retention))
      modifies dir.device
      ensures old(dir.device.faults) <= dir.device.faults
      ensures r.Err? ==>
                Refused(old(dir.device.faults), index in dir.slots ==> Good(dir.slots[index], retention), r.error)
    {
      var fault := dir.device.Fails();
      if fault { return Err(Io); }
      if index !in dir.slots { return Ok(false); }
      if !dir.slots[index].sound { return Err(UnsafeStorage); }
      if Size(dir.slots[index].chunks) > retention.fileBytes { return Err(InvalidLimits); }
      return Ok(true);
    }

    method ShiftArchives() returns (r: Result<(), LogError>)
      requires dir.Valid() && dir.retention == retention
      modifies dir, dir.device
      ensures old(dir.device.faults) <= dir.device.faults
      ensures dir.Valid() && dir.nextIno == old(dir.nextIno) && dir.files == old(dir.files)
      ensures dir.written == old(dir.written) && old(dir.history) <= dir.history
      ensures 0 in old(dir.slots) ==> 0 in dir.slots && dir.slots[0] == old(dir.slots)[0]
      ensures r.Ok? ==> dir.slots == Shifted(old(dir.slots), 0, retention.archives)
      ensures r.Err? ==> Refused(old(dir.device.faults), AllGood(old(dir.slots), retention), r.error)
    {
      hide Size, Retained, Contiguous, AllContiguous, Shifted, Moved, WellFormed, FilesKnown, Flat;
      ghost var before := dir.slots;
      var n := retention.archives;
      ShiftedStart(before, dir.nextIno, retention);
      if 0 in before { ShiftedActive(before, n - 1, n); }
      var present := CheckedArchive(n);
      if present.Err? { return Err(present.error); }
      if present.value {
        var removed := dir.RemoveOldest();
        if !removed { return Err(Io); }
      }
      var i := n - 1;
      while i >= 1
        invariant 0 <= i < n
        invariant dir.slots == Shifted(before, i, n) && dir.nextIno == old(dir.nextIno)
        invariant dir.Valid() && dir.written == old(dir.written) && old(dir.history) <= dir.history
        invariant dir.files == old(dir.files) && old(dir.device.faults) <= dir.device.faults
        invariant 0 in before ==> 0 in dir.slots && dir.slots[0] == before[0]
      {
        ShiftedStep(before, i, n);
        if 0 in before { ShiftedActive(before, i - 1, n); }
        present := CheckedArchive(i);
        if present.Err? { return Err(present.error); }
        if present.value {
          var moved := dir.Shift(i);
          if !moved { return Err(Io); }
        }
        i := i - 1;
      }
      return Ok(());
    }

    method CheckAll() returns (r: Result<(), LogError>)
      modifies dir.device
      ensures old(dir.device.faults) <= dir.device.faults
      ensures if r.Ok? then AllGood(dir.slots, retention)
              else Refused(old(dir.device.faults), AllGood(dir.slots, retention), r.error)
    {
      var index := 1;
      while index <= retention.archives
        invariant forall i :: i in dir.slots && 1 <= i < index ==> Good(dir.slots[i], retention)
        invariant old(dir.device.faults) <= dir.device.faults
      {
        var present := CheckedArchive(index);
        if present.Err? { return Err(present.error); }
        index := index + 1;
      }
      return Ok(());
    }

    method Rotate() returns (r: Result<(), LogError>)
      requires Consistent() && Settled()
      modifies this, dir, dir.device
      ensures old(dir.device.faults) <= dir.device.faults
      ensures Consistent() && dir.written == old(dir.written) && old(dir.history) <= dir.history
      ensures failed == old(failed)
      ensures r.Ok? ==> Settled() && bytes == 0 && dir.files == old(dir.files) + [[]]
      ensures r.Ok? ==> dir.slots == Rotated(old(dir.slots), old(dir.nextIno), retention.archives)
      ensures !AllGood(old(dir.slots), retention) ==> r.Err? && dir.slots == old(dir.slots)
      ensures r.Ok? ==> old(dir.slots)[0].sound
      ensures var ready := old(dir.slots)[0].sound && AllGood(old(dir.slots), retention);
              r.Err? ==> Refused(old(dir.device.faults), ready, r.error)
    {
      hide Size, Retained, Contiguous, AllContiguous, Shifted, Moved, WellFormed, WholeLines, AllGood, Layout,
        FilesKnown, Flat, Extended;
      ghost var start := dir.slots;
      LayoutGrows(dir.files, before, base, []);
      WholeLinesBut(dir.written, found);
      if !dir.slots[0].sound { return Err(UnsafeStorage); }
      var checked := CheckAll();
      if checked.Err? { return checked; }
      var fault := dir.device.Fails();
      if fault { return Err(Io); }
      file := None;
      r := ShiftArchives();
      if r.Err? { return; }
      ShiftedStep(start, 0, retention.archives);
      ShiftedActive(start, 0, retention.archives);
      ShiftedAway(start, retention.archives);
      EmptySize();
      fault := dir.device.Fails();
      if fault { return Err(Io); }
      if Size(dir.slots[0].chunks) != bytes { return Err(UnsafeStorage); }
      var moved := dir.Shift(0);
      if !moved { return Err(Io); }
      var created := dir.CreateActive();
      if !created { return Err(Io); }
      file := Some(dir.slots[0].ino);
      bytes := 0;
      return Ok(());
    }

    method WriteLine(line: Line) returns (r: Result<(), LogError>)
      requires Valid() && !failed
      modifies this, dir, dir.device
      ensures old(dir.device.faults) <= dir.device.faults
      ensures Consistent() && old(dir.history) <= dir.history && failed == old(failed)
      ensures r.Ok? ==> Settled() && dir.written == old(dir.written) + [line]
      ensures r.Ok? ==> dir.slots == AfterWrite(old(dir.slots), line, old(bytes), old(dir.nextIno), retention)
      ensures r.Err? ==> (dir.written == old(dir.written)
                          || (!Settled() && Torn(old(dir.written), dir.written, line)
                              && EndsActive(dir.slots, dir.written)))
      ensures r.Ok? ==> dir.files == FilesAfter(old(dir.files), line, old(bytes) + |line| > retention.fileBytes)
      ensures old(bytes) + |line| > retention.fileBytes && !AllGood(old(dir.slots), retention) ==>
                r.Err? && dir.slots == old(dir.slots)
      ensures var full := old(bytes) + |line| > retention.fileBytes;
              var ready := old(dir.slots)[0].sound && (full ==> AllGood(old(dir.slots), retention));
              (r.Ok? ==> ready) && (r.Err? ==> Refused(old(dir.device.faults), ready, r.error))
    {
      hide Retained, Contiguous, AllContiguous, WellFormed, Size, AllGood, Layout, FilesKnown, Flat, Extended,
        LogTail.IsLine;
      if !dir.slots[0].sound { return Err(UnsafeStorage); }
      if Size(dir.slots[0].chunks) != bytes { return Err(UnsafeStorage); }
      if bytes + |line| > retention.fileBytes {
        r := Rotate();
        if r.Err? { return; }
      }
      ghost var chunks, files := dir.slots[0].chunks, dir.files;
      var ok, chunk := dir.Append(line);
      SizeAppend(chunks, chunk);
      LayoutGrows(files, before, base, chunk);
      if !ok { return Err(Io); }
      bytes := bytes + |line|;
      return Ok(());
    }

    method Write(record: Option<Line>) returns (r: Result<(), LogError>)
      requires Valid()
      modifies this, dir, dir.device
      ensures old(dir.device.faults) <= dir.device.faults
      ensures Valid() && old(dir.history) <= dir.history
      ensures old(failed) ==> r.Err? && failed && dir.slots == old(dir.slots) && dir.history == old(dir.history)
      ensures !old(failed) && record.Some? ==> failed == r.Err?
      ensures !old(failed) && record.None? ==>
                r.Err? && !failed && dir.slots == old(dir.slots) && dir.history == old(dir.history)
      ensures r.Ok? ==> Settled() && record.Some? && dir.written == old(dir.written) + [record.value]
      ensures r.Ok? ==> dir.slots == AfterWrite(old(dir.slots), record.value, old(bytes), old(dir.nextIno), retention)
      ensures r.Err? ==> (dir.written == old(dir.written)
                          || (failed && record.Some? && Torn(old(dir.written), dir.written, record.value)
                              && EndsActive(dir.slots, dir.written)))
      ensures !old(failed) ==> (r == Err(InvalidRecord) <==> record.None?)
      ensures !old(failed) && record.Some? ==>
                var full := old(bytes) + |record.value| > retention.fileBytes;
                var ready := old(dir.slots)[0].sound && (full ==> AllGood(old(dir.slots), retention));
                (r.Ok? ==> ready) && (r.Err? ==> Refused(old(dir.device.faults), ready, r.error))
      ensures record.Some? && old(bytes) + |record.value| > retention.fileBytes ==>
                AllGood(old(dir.slots), retention) || (r.Err? && dir.slots == old(dir.slots))
    {
      hide AllGood, WholeLines, Size, Layout, FilesKnown, Flat, Extended;
      if failed { return Err(UnsafeStorage); }
      if record.None? { return Err(InvalidRecord); }
      r := WriteLine(record.value);
      if r.Err? { failed := true; }
    }
  }
}
