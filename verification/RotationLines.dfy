/** The physical lines of the active log file, across the reopening of a sink
    (src/log/rotating.rs:73-178, src/log/windows_rotating.rs:700-808). Opening never
    looks inside the file, so a fragment left by a failed write stays at its end. */
module RotationLines {
  import opened Outcomes
  import opened Bytes
  import opened LogTail
  import opened Rotation

  /** What a reader of the file finds. */
  function Content(chunks: seq<Chunk>): seq<byte> { Concat(chunks) }

  lemma {:induction false} SizeIsLength(chunks: seq<Chunk>)
    ensures |Content(chunks)| == Size(chunks)
  {
    if chunks != [] {
      var front, last := chunks[..|chunks| - 1], chunks[|chunks| - 1];
      SizeIsLength(front);
      ConcatSnoc(front, last);
      assert chunks == front + [last];
    }
  }

  lemma {:induction false} ContentAppend(a: seq<Chunk>, b: seq<Chunk>)
    ensures Content(a + b) == Content(a) + Content(b)
  {
    if a == [] {
      assert a + b == b;
    } else {
      ContentAppend(a[1..], b);
      assert (a + b)[1..] == a[1..] + b;
      assert a[0] + Content(a[1..]) + Content(b) == a[0] + (Content(a[1..]) + Content(b));
    }
  }

  ghost predicate AllLines(chunks: seq<Chunk>) { forall i :: 0 <= i < |chunks| ==> Rotation.IsLine(chunks[i]) }

  // ---------- File by file ----------

  /** The lines of all these files, each file read on its own. */
  function Physical(files: seq<seq<Chunk>>): seq<seq<byte>> {
    if files == [] then [] else Physical(files[..|files| - 1]) + Lines(Content(files[|files| - 1]))
  }

  lemma {:induction false} PhysicalAppend(a: seq<seq<Chunk>>, b: seq<seq<Chunk>>)
    ensures Physical(a + b) == Physical(a) + Physical(b)
  {
    hide Lines, Content;
    if b == [] {
      assert a + b == a;
    } else {
      PhysicalAppend(a, b[..|b| - 1]);
      assert (a + b)[..|a + b| - 1] == a + b[..|b| - 1];
    }
  }

  /** Files made of lines are read as just these lines. */
  lemma {:induction false} PhysicalLines(files: seq<seq<Chunk>>)
    requires AllLines(Flat(files))
    ensures Physical(files) == Flat(files)
  {
    hide Lines, Rotation.IsLine, Concat;
    if files != [] {
      var front, last := files[..|files| - 1], files[|files| - 1];
      PartsAreLines(Flat(front), last);
      PhysicalLines(front);
      AreLines(last);
    }
  }

  ghost predicate Clean(content: seq<byte>) { content == [] || EndsLine(content) }

  /** The slots hold the files found on opening and, behind them, those of the sink. As
      long as the file that was active on opening is still there, what is read of all
      slots are the lines found and then exactly the lines written, if and only if
      that file was empty or ended in a newline or got no line. Once it is dropped,
      only lines that were written are read. */
  ghost predicate LinesKept(
    kept: seq<seq<Chunk>>, files: seq<seq<Chunk>>, before: seq<seq<Chunk>>, base: seq<Chunk>, since: seq<Chunk>)
  {
    && IsSuffix(kept, files) && Layout(files, before, base)
    && var dropped, first := |files| - |kept|, files[|before|][|base|..];
       && first <= since
       && if dropped <= |before| then
            (Physical(kept) == Physical(before[dropped..]) + Lines(Content(base)) + since
             <==> Clean(Content(base)) || first == [])
          else
            Physical(kept) == Flat(kept) && IsSuffix(Flat(kept), since)
  }

  lemma FilesLines(
    kept: seq<seq<Chunk>>, files: seq<seq<Chunk>>, before: seq<seq<Chunk>>, base: seq<Chunk>, since: seq<Chunk>)
    requires IsSuffix(kept, files) && Layout(files, before, base)
    requires |Flat(before)| + |base| <= |Flat(files)|
    requires since == Flat(files)[|Flat(before)| + |base|..] && AllLines(since)
    ensures LinesKept(kept, files, before, base, since)
  {
    hide Flat, Physical, AllLines, Content;
    var o, dropped := |before|, |files| - |kept|;
    var first, later := files[o][|base|..], files[o + 1..];
    SinceParts(files, before, base);
    assert since == first + Flat(later);
    PartsAreLines(first, Flat(later));
    PhysicalLines(later);
    if dropped <= o {
      assert kept == before[dropped..] + [files[o]] + later;
      PhysicalAppend(before[dropped..] + [files[o]], later);
      PhysicalAppend(before[dropped..], [files[o]]);
      assert files[o] == base + first;
      FirstFile(base, first);
      SameEnds(Physical(before[dropped..]), Lines(Content(base + first)), Lines(Content(base)) + first, Flat(later));
      assert Physical(before[dropped..]) + Lines(Content(base)) + since
          == Physical(before[dropped..]) + (Lines(Content(base)) + first) + Flat(later);
    } else {
      var gone := later[..dropped - o - 1];
      assert later == gone + kept;
      FlatAppend(gone, kept);
      PartsAreLines(Flat(gone), Flat(kept));
      PhysicalLines(kept);
    }
  }

  lemma SinceParts(files: seq<seq<Chunk>>, before: seq<seq<Chunk>>, base: seq<Chunk>)
    requires Layout(files, before, base)
    ensures var o := |before|;
            Flat(files) == Flat(before) + base + (files[o][|base|..] + Flat(files[o + 1..]))
  {
    hide Flat;
    var o := |before|;
    assert files == before + [files[o]] + files[o + 1..];
    FlatAppend(before + [files[o]], files[o + 1..]);
    FlatAppend(before, [files[o]]);
    OneFile(files[o]);
    assert files[o] == base + files[o][|base|..];
  }

  lemma PartsAreLines(a: seq<Chunk>, b: seq<Chunk>)
    requires AllLines(a + b)
    ensures AllLines(a) && AllLines(b)
  {
    hide Rotation.IsLine;
    assert forall i :: 0 <= i < |a| ==> (a + b)[i] == a[i];
    assert forall i :: 0 <= i < |b| ==> (a + b)[|a| + i] == b[i];
  }

  lemma FrontAndLines(front: seq<Chunk>, lines: seq<Chunk>)
    requires AllLines(lines)
    ensures Lines(Content(front + lines)) == Lines(Content(front)) + lines <==> Clean(Content(front)) || lines == []
  {
    hide Lines, EndsLine, LogTail.IsLine, Concat;
    ContentAppend(front, lines);
    AppendedLines(Content(front), lines);
  }

  lemma FirstFile(base: seq<Chunk>, first: seq<Chunk>)
    requires AllLines(first)
    ensures Physical([base + first]) == Lines(Content(base + first))
    ensures Lines(Content(base + first)) == Lines(Content(base)) + first <==> Clean(Content(base)) || first == []
  {
    hide Lines, EndsLine, Concat;
    assert [base + first][..0] == [];
    FrontAndLines(base, first);
  }

  lemma SameEnds<T>(front: seq<T>, a: seq<T>, b: seq<T>, back: seq<T>)
    ensures front + a + back == front + b + back <==> a == b
  {
    if front + a + back == front + b + back {
      var whole := front + a + back;
      assert |a| == |b|;
      assert a == whole[|front|..|front| + |a|] == b;
    }
  }

  // ---------- One after the other ----------

  /** The same for a reader of the slots' concatenation. */
  ghost predicate LinesJoined(kept: seq<Chunk>, since: seq<Chunk>) {
    if |kept| <= |since| then
      Lines(Content(kept)) == kept && IsSuffix(kept, since)
    else
      var front := kept[..|kept| - |since|];
      && kept == front + since
      && (Lines(Content(kept)) == Lines(Content(front)) + since <==> Clean(Content(front)) || since == [])
  }

  lemma JoinedLines(kept: seq<Chunk>, written: seq<Chunk>, found: nat)
    requires IsSuffix(kept, written) && found <= |written| && AllLines(written[found..])
    ensures LinesJoined(kept, written[found..])
  {
    hide Lines, EndsLine, LogTail.IsLine, Concat, AllLines;
    var since := written[found..];
    if |kept| <= |since| {
      assert since == since[..|since| - |kept|] + kept;
      PartsAreLines(since[..|since| - |kept|], kept);
      AreLines(kept);
    } else {
      var front := kept[..|kept| - |since|];
      assert kept == front + since;
      FrontAndLines(front, since);
    }
  }

  lemma AreLines(chunks: seq<Chunk>)
    requires AllLines(chunks)
    ensures Lines(Content(chunks)) == chunks
  {
    hide Lines, LogTail.IsLine, EndsLine;
    LinesOfLines(chunks);
  }

  lemma Since(written: seq<Chunk>, found: nat)
    requires found <= |written| && WholeLines(written, found, |written|)
    ensures AllLines(written[found..])
  {
    hide Rotation.IsLine;
  }

  // ---------- The sinks ----------

  /** For every sink on Unix that is in step with its file, before and after rotations. */
  lemma UnixLines(sink: UnixSink)
    requires sink.Valid() && sink.Settled()
    ensures sink.found <= |sink.dir.written|
    ensures var n, since := sink.retention.archives, sink.dir.written[sink.found..];
            && LinesKept(FileList(sink.dir.slots, n), sink.dir.files, sink.before, sink.base, since)
            && LinesJoined(Retained(sink.dir.slots, n), since)
    ensures |Content(sink.dir.slots[0].chunks)| == sink.bytes
  {
    hide LinesKept, LinesJoined, Size, Retained, WholeLines, Bounded, Rotation.IsLine, FileList, Flat, Layout, IsSuffix;
    var n, written := sink.retention.archives, sink.dir.written;
    Since(written, sink.found);
    FilesLines(FileList(sink.dir.slots, n), sink.dir.files, sink.before, sink.base, written[sink.found..]);
    JoinedLines(Retained(sink.dir.slots, n), written, sink.found);
    SizeIsLength(sink.dir.slots[0].chunks);
  }

  /** For every sink on Windows that has not failed. */
  lemma WindowsLines(sink: WindowsSink)
    requires sink.Valid() && !sink.failed
    ensures 0 in sink.dir.slots && sink.found <= |sink.dir.written|
    ensures var n, since := sink.retention.archives, sink.dir.written[sink.found..];
            && LinesKept(FileList(sink.dir.slots, n), sink.dir.files, sink.before, sink.base, since)
            && LinesJoined(Retained(sink.dir.slots, n), since)
    ensures |Content(sink.dir.slots[0].chunks)| == sink.bytes
  {
    hide LinesKept, LinesJoined, Size, Retained, WholeLines, Rotation.IsLine, FileList, Flat, Layout, IsSuffix;
    var n, written := sink.retention.archives, sink.dir.written;
    Since(written, sink.found);
    FilesLines(FileList(sink.dir.slots, n), sink.dir.files, sink.before, sink.base, written[sink.found..]);
    JoinedLines(Retained(sink.dir.slots, n), written, sink.found);
    SizeIsLength(sink.dir.slots[0].chunks);
  }

  // ---------- A line lost across a reopening ----------

  lemma FragmentIsOpen(first: Line, chunk: Chunk)
    requires chunk != [] && chunk < first
    ensures NEWLINE !in chunk && !EndsLine(chunk)
  {
    forall i | 0 <= i < |chunk| ensures chunk[i] != NEWLINE {
      assert chunk[i] == first[..|first| - 1][i];
    }
  }

  /** A write into a new file that fails after any k bytes; the file it leaves can be
      opened; and the next line written is no line of the file. */
  lemma LineLostAfterReopening(first: Line, k: nat, second: Line, r: Retention, ino: nat)
    requires ValidRetention(r) && 0 < k < |first| && k + |second| <= r.fileBytes
    ensures var slots := map[0 := LogFile(ino, [first[..k]], true)];
            var after := AfterWrite(slots, second, k, ino + 1, r);
            && Torn([], [first[..k]], first) && EndsActive(slots, [first[..k]])
            && Openable(slots, r)
            && 0 in after && Lines(Content(after[0].chunks)) == [first[..k] + second]
            && second !in Lines(Content(after[0].chunks))
  {
    hide Lines, EndsLine, LogTail.IsLine, Shifted;
    var chunk := first[..k];
    var slots := map[0 := LogFile(ino, [chunk], true)];
    assert [] + [chunk] == [chunk];
    assert Torn([], [chunk], first);
    SizeAppend([], chunk);
    FragmentIsOpen(first, chunk);
    GluedLine([], chunk, second);
    NoLines();
    assert [] + chunk + second == chunk + second;
    assert Content([chunk] + [second]) == chunk + second by { TwoChunks(chunk, second); }
    assert |chunk + second| != |second|;
  }

  lemma TwoChunks(a: Chunk, b: Chunk)
    ensures Content([a] + [b]) == a + b
  {
    ConcatSnoc([], b);
    ConcatSnoc([a], b);
    ConcatSnoc([], a);
    assert [] + [a] == [a];
  }

  lemma ContentEnds(chunks: seq<Chunk>)
    requires chunks != [] && chunks[|chunks| - 1] != []
    ensures Content(chunks) != [] && (EndsLine(Content(chunks)) <==> EndsLine(chunks[|chunks| - 1]))
  {
    var last := chunks[|chunks| - 1];
    ConcatSnoc(chunks[..|chunks| - 1], last);
    assert chunks == chunks[..|chunks| - 1] + [last];
  }

  /** What a sink opened later found, and the lines of the file after its first write. */
  ghost predicate Glued(found: seq<byte>, after: seq<byte>, line: seq<byte>) {
    && Lines(found) != []
    && var last := |Lines(found)| - 1;
       Lines(found)[last] != [] && Lines(after) == Lines(found)[..last] + [Lines(found)[last] + line]
  }

  lemma GluesLast(found: seq<byte>, line: Line)
    requires found != [] && !EndsLine(found)
    ensures Glued(found, found + line, line)
  {
    hide Lines, EndsLine, Concat;
    LinesSplit(found);
    var lines := Lines(found);
    LastOfSplit(lines, found);
    var front, last := lines[..|lines| - 1], lines[|lines| - 1];
    forall i | 0 <= i < |front| ensures LogTail.IsLine(front[i]) && EndsLine(front[i]) { assert front[i] == lines[i]; }
    LinesOfLines(front);
    ConcatSnoc(front, last);
    assert lines == front + [last];
    OpenLine(last);
    if front == [] { NoText(); }
    GluedLine(Concat(front), last, line);
  }

  lemma NoText()
    ensures Concat([]) == []
  {
  }

  lemma OpenLine(line: seq<byte>)
    requires LogTail.IsLine(line) && !EndsLine(line)
    ensures line != [] && NEWLINE !in line
  {
    assert line == line[..|line| - 1] + [line[|line| - 1]];
  }

  /** A write, a reopening, and a write. When the first one fails in the middle of its
      line and the second one succeeds without a rotation, its line is glued to the
      last one of the file found. */
  method WriteReopenWrite(sink: UnixSink, first: Line, second: Line)
    returns (reopened: Option<UnixSink>, again: bool, ghost torn: bool)
    requires sink.Valid()
    modifies sink, sink.dir, sink.dir.device
    ensures torn
       <==> |sink.dir.written| == |old(sink.dir.written)| + 1 && sink.dir.written[|old(sink.dir.written)|] != first
    ensures reopened.Some? ==> reopened.value.Valid() && fresh(reopened.value) && fresh(reopened.value.dir)
    ensures reopened.Some? && again ==> reopened.value.Settled()
    ensures torn && reopened.Some? && again && |reopened.value.dir.files| == |reopened.value.before| + 1 ==>
              Glued(Content(reopened.value.base), Content(reopened.value.dir.slots[0].chunks), second)
  {
    hide Retained, Size, WholeLines, Bounded, WellFormed, Lines, EndsLine, LogTail.IsLine, Openable, Torn, EndsActive,
      AfterWrite, Content, Glued, Flat, FilesKnown, FileList, Layout;
    ghost var before := sink.dir.written;
    reopened, again := None, false;
    var r := sink.Write(Some(first));
    torn := |sink.dir.written| == |before| + 1 && sink.dir.written[|before|] != first;
    if torn { TornEnds(sink.dir.slots, before, sink.dir.written, first); }
    KnownDistinct(sink.dir.slots, sink.dir.nextIno, sink.retention);
    var around: Surroundings := *;
    var opening := OpenUnix(sink.dir.device, sink.retention, sink.dir.slots, sink.dir.nextIno, around);
    if opening.Err? { return; }
    var next := opening.value;
    reopened := Some(next);
    var w := next.Write(Some(second));
    again := w.Ok?;
    if again && torn && |next.dir.files| == |next.before| + 1 {
      var n := next.retention.archives;
      OneWrite(next.dir.slots, n, next.dir.files, next.dir.written, next.before, next.base, second);
    }
  }

  lemma KnownDistinct(slots: Slots, nextIno: nat, r: Retention)
    requires WellFormed(slots, nextIno, r)
    ensures Distinct(slots, nextIno)
  {
  }

  lemma TornEnds(slots: Slots, before: seq<Chunk>, after: seq<Chunk>, line: Line)
    requires Torn(before, after, line) && EndsActive(slots, after) && after[|before|] != line
    ensures 0 in slots && Content(slots[0].chunks) != [] && !EndsLine(Content(slots[0].chunks))
  {
    hide Content, EndsLine;
    var chunk := after[|before|];
    FragmentIsOpen(line, chunk);
    ContentEnds(slots[0].chunks);
  }

  lemma OneWrite(
    slots: Slots, n: nat, files: seq<seq<Chunk>>, written: seq<Chunk>, before: seq<seq<Chunk>>, base: seq<Chunk>,
    line: Line)
    requires FilesKnown(slots, n, files, written) && 0 in slots && |files| == |before| + 1
    requires files == FilesAfter(before + [base], line, false)
    requires Content(base) != [] && !EndsLine(Content(base))
    ensures Glued(Content(base), Content(slots[0].chunks), line)
  {
    hide Glued, EndsLine, LogTail.IsLine, FilesKnown;
    ActiveIsLast(slots, n, files, written);
    ConcatSnoc(base, line);
    GluesLast(Content(base), line);
  }
}
