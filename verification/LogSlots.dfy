/** Following a log into slots longer than what a query reads of them (the guard of
    src/cli/tail.rs:62-65 with the limit of src/cli/mod.rs:774). */
module LogSlots {
  import opened Outcomes
  import opened Bytes
  import opened LogTail
  import opened LogQuery
  import opened LogFollow

  // ---------- Decoders ----------

  ghost predicate Apart(decode: Decoder, a: seq<byte>, b: seq<byte>) {
    && decode(a).Ok? && decode(b).Ok?
    && decode(a + b) == Ok(decode(a).value + decode(b).value)
  }

  /** The decoder works line by line and finds a record in every text. */
  ghost predicate ByLines(decode: Decoder) {
    && decode([]) == Ok([])
    && (forall a, b {:trigger Apart(decode, a, b)} ::
          (a == [] || EndsLine(a)) && decode(a + b).Ok? ==> Apart(decode, a, b))
    && (forall a :: a != [] && decode(a).Ok? ==> decode(a).value != [])
  }

  type Parser = seq<byte> -> Result<Entry, ()>

  function DecodeLines(lines: seq<seq<byte>>, parse: Parser): Result<seq<Entry>, ()> {
    if lines == [] then Ok([])
    else
      var first :- parse(lines[0]);
      var rest :- DecodeLines(lines[1..], parse);
      Ok([first] + rest)
  }

  /** One record per line, as in src/cli/mod.rs:1311-1316. */
  function LineDecoder(parse: Parser): Decoder { bytes => DecodeLines(Lines(bytes), parse) }

  lemma {:induction false} DecodeLinesAppend(a: seq<seq<byte>>, b: seq<seq<byte>>, parse: Parser)
    ensures DecodeLines(a + b, parse).Ok? <==> DecodeLines(a, parse).Ok? && DecodeLines(b, parse).Ok?
    ensures DecodeLines(a + b, parse).Ok? ==>
              DecodeLines(a + b, parse).value == DecodeLines(a, parse).value + DecodeLines(b, parse).value
  {
    if a == [] {
      assert a + b == b;
    } else {
      DecodeLinesAppend(a[1..], b, parse);
      assert (a + b)[1..] == a[1..] + b;
    }
  }

  lemma {:induction false} DecodeLinesCount(lines: seq<seq<byte>>, parse: Parser)
    ensures DecodeLines(lines, parse).Ok? ==> |DecodeLines(lines, parse).value| == |lines|
  {
    if lines != [] { DecodeLinesCount(lines[1..], parse); }
  }

  lemma LineDecoderByLines(parse: Parser)
    ensures ByLines(LineDecoder(parse))
  {
    hide Lines, DecodeLines;
    var decode := LineDecoder(parse);
    NoLines();
    DecodeLinesCount([], parse);
    assert DecodeLines([], parse) == Ok([]) by { NothingDecoded(parse); }
    forall a, b | (a == [] || EndsLine(a)) && decode(a + b).Ok? ensures Apart(decode, a, b) {
      LinesAppend(a, b);
      DecodeLinesAppend(Lines(a), Lines(b), parse);
    }
    forall a | a != [] && decode(a).Ok? ensures decode(a).value != [] {
      LinesSplit(a);
      LastOfSplit(Lines(a), a);
      DecodeLinesCount(Lines(a), parse);
    }
  }

  lemma NothingDecoded(parse: Parser)
    ensures DecodeLines([], parse) == Ok([])
  {
  }

  // ---------- One slot ----------

  /** A slot is read whole exactly when it is no longer than the limit. */
  lemma ReadWhole(bytes: seq<byte>, p: nat)
    requires Kept(bytes, p)
    ensures p == 0 <==> |bytes| <= MAX_SUFFIX_BYTES
  {
    assert Boundary(bytes, 0);
  }

  /** All records of the slot, read or not. */
  ghost function All(part: Part, decode: Decoder): seq<Entry> {
    if part.Found? && decode(part.bytes).Ok? then decode(part.bytes).value else []
  }

  predicate Short(part: Part) { part.Found? ==> |part.bytes| <= MAX_SUFFIX_BYTES }

  predicate Decodes(part: Part, decode: Decoder) { part.Found? ==> decode(part.bytes).Ok? }

  /** The query reads a tail of the slot's records, and misses one exactly in a long slot. */
  lemma SlotReading(part: Part, decode: Decoder)
    requires ByLines(decode) && Decodes(part, decode) && PartEntries(part, decode).Ok?
    ensures var read := PartEntries(part, decode).value;
            && |read| <= |All(part, decode)| && All(part, decode)[|All(part, decode)| - |read|..] == read
            && (|read| == |All(part, decode)| <==> Short(part))
  {
    hide ByLines, Kept, PartEntries;
    if part.Found? {
      var bytes := part.bytes;
      var p := PartRead(part, decode);
      ReadWhole(bytes, p);
      SplitSlot(bytes, p, decode);
    } else {
      UnreadPart(part, decode);
    }
  }

  lemma UnreadPart(part: Part, decode: Decoder)
    requires !part.Found? && PartEntries(part, decode).Ok?
    ensures PartEntries(part, decode).value == []
  {
  }

  lemma PartRead(part: Part, decode: Decoder) returns (p: nat)
    requires part.Found? && PartEntries(part, decode).Ok?
    ensures p <= |part.bytes| && Kept(part.bytes, p) && decode(part.bytes[p..]) == Ok(PartEntries(part, decode).value)
  {
    hide LinesFit;
    p :| Kept(part.bytes, p) && PartEntries(part, decode) == Decoded(part.bytes[p..], decode);
  }

  lemma SplitSlot(bytes: seq<byte>, p: nat, decode: Decoder)
    requires ByLines(decode) && decode(bytes).Ok? && Kept(bytes, p)
    ensures p <= |bytes| && Apart(decode, bytes[..p], bytes[p..]) && bytes[..p] + bytes[p..] == bytes
    ensures decode(bytes[..p]).value == [] <==> p == 0
  {
    hide LinesFit;
    assert bytes[..p] + bytes[p..] == bytes;
    assert Boundary(bytes, p);
    assert Apart(decode, bytes[..p], bytes[p..]);
    if p == 0 { assert bytes[..p] == []; }
  }

  // ---------- All slots ----------

  ghost function WholeLog(parts: seq<Part>, decode: Decoder): seq<Entry> {
    if parts == [] then [] else WholeLog(parts[..|parts| - 1], decode) + All(parts[|parts| - 1], decode)
  }

  ghost predicate AllDecode(parts: seq<Part>, decode: Decoder) {
    forall part :: part in parts ==> Decodes(part, decode)
  }

  ghost predicate AllShort(parts: seq<Part>) { forall part :: part in parts ==> Short(part) }

  function Range(from: nat, to: nat): seq<nat>
    requires from <= to
  {
    seq(to - from, i requires 0 <= i < to - from => from + i)
  }

  /** The positions in the whole log of the records a query gathers. */
  ghost function ReadAt(parts: seq<Part>, decode: Decoder): seq<nat>
    requires ByLines(decode) && AllDecode(parts, decode) && Gather(parts, decode).Ok?
  {
    if parts == [] then []
    else
      var front, last := parts[..|parts| - 1], parts[|parts| - 1];
      SlotReading(last, decode);
      var end := |WholeLog(front, decode)| + |All(last, decode)|;
      ReadAt(front, decode) + Range(end - |PartEntries(last, decode).value|, end)
  }

  /** What a query gathers is a reading of the whole log. */
  lemma {:induction false} GatherIsReading(parts: seq<Part>, decode: Decoder)
    requires ByLines(decode) && AllDecode(parts, decode) && Gather(parts, decode).Ok?
    ensures var log, at := WholeLog(parts, decode), ReadAt(parts, decode);
            Reading(log, at) && Records(log, at) == Gather(parts, decode).value
  {
    hide ByLines, PartEntries, All, Decodes, Records, Range, Reading;
    if parts == [] {
      EmptyReading();
    } else {
      var front, last := parts[..|parts| - 1], parts[|parts| - 1];
      GatherIsReading(front, decode);
      SlotReading(last, decode);
      ReadingGrows(WholeLog(front, decode), ReadAt(front, decode), All(last, decode), PartEntries(last, decode).value);
    }
  }

  lemma EmptyReading()
    ensures Reading([], []) && Records([], []) == []
  {
  }

  lemma ReadingGrows(log: seq<Entry>, at: seq<nat>, more: seq<Entry>, read: seq<Entry>)
    requires Reading(log, at) && |read| <= |more| && more[|more| - |read|..] == read
    ensures var end := |log| + |more|;
            var grown := at + Range(end - |read|, end);
            Reading(log + more, grown) && Records(log + more, grown) == Records(log, at) + read
  {
    var end := |log| + |more|;
    var grown := at + Range(end - |read|, end);
    forall i | |at| <= i < |grown| ensures (log + more)[grown[i]] == read[i - |at|] {
      assert grown[i] == end - |read| + (i - |at|);
      assert (log + more)[grown[i]] == more[grown[i] - |log|];
    }
    assert Records(log + more, grown) == Records(log, at) + read;
  }

  /** The whole log is read exactly when no slot is long. */
  lemma {:induction false} ReadsAll(parts: seq<Part>, decode: Decoder)
    requires ByLines(decode) && AllDecode(parts, decode) && Gather(parts, decode).Ok?
    ensures |Gather(parts, decode).value| <= |WholeLog(parts, decode)|
    ensures |Gather(parts, decode).value| == |WholeLog(parts, decode)| <==> AllShort(parts)
    ensures AllShort(parts) ==> Gather(parts, decode).value == WholeLog(parts, decode)
  {
    hide ByLines, PartEntries, All, Decodes, Short;
    if parts != [] {
      var front, last := parts[..|parts| - 1], parts[|parts| - 1];
      assert parts == front + [last];
      ReadsAll(front, decode);
      SlotReading(last, decode);
      assert AllShort(parts) <==> AllShort(front) && Short(last);
    }
  }

  // ---------- Following ----------

  /** No long slot lies behind the record at position p, and the unread front of its
      own slot does not reach behind it. */
  ghost predicate ReadBehind(parts: seq<Part>, decode: Decoder, p: nat)
    requires ByLines(decode) && AllDecode(parts, decode) && Gather(parts, decode).Ok?
  {
    parts == []
    || var front, last := parts[..|parts| - 1], parts[|parts| - 1];
       var start := |WholeLog(front, decode)|;
       if p < start then Short(last) && ReadBehind(front, decode, p)
       else |All(last, decode)| - |PartEntries(last, decode).value| <= p + 1 - start
  }

  lemma {:induction false} ReadsBehind(parts: seq<Part>, decode: Decoder, p: nat)
    requires ByLines(decode) && AllDecode(parts, decode) && Gather(parts, decode).Ok?
    requires p < |WholeLog(parts, decode)|
    ensures ReadsAllAfter(WholeLog(parts, decode), ReadAt(parts, decode), p) <==> ReadBehind(parts, decode, p)
  {
    hide ByLines, PartEntries, All, Decodes, Short;
    var front, last := parts[..|parts| - 1], parts[|parts| - 1];
    GatherIsReading(front, decode);
    SlotReading(last, decode);
    var log, at := WholeLog(front, decode), ReadAt(front, decode);
    ReadsAfterGrowing(log, at, All(last, decode), |PartEntries(last, decode).value|, p);
    if p < |log| { ReadsBehind(front, decode, p); }
  }

  lemma ReadsAfterGrowing(log: seq<Entry>, at: seq<nat>, more: seq<Entry>, read: nat, p: nat)
    requires Reading(log, at) && read <= |more| && p < |log| + |more|
    ensures var end := |log| + |more|;
            var grown := at + Range(end - read, end);
            ReadsAllAfter(log + more, grown, p)
            <==> if p < |log| then read == |more| && ReadsAllAfter(log, at, p) else |more| - read <= p + 1 - |log|
  {
    var end := |log| + |more|;
    var grown := at + Range(end - read, end);
    forall k | 0 <= k < end ensures k in grown <==> if k < |log| then k in at else k >= end - read {
      InGrown(log, at, read, end, k);
    }
    if ReadsAllAfter(log + more, grown, p) {
      if p < |log| {
        assert read < |more| ==> |log| in grown;
        assert forall k :: p < k < |log| ==> k in grown;
      } else {
        assert p + 1 < end ==> p + 1 in grown;
      }
    }
  }

  lemma InGrown(log: seq<Entry>, at: seq<nat>, read: nat, end: nat, k: nat)
    requires Reading(log, at) && |log| + read <= end && k < end
    ensures k in at + Range(end - read, end) <==> if k < |log| then k in at else k >= end - read
  {
    var tail := Range(end - read, end);
    if k >= end - read { assert tail[k - (end - read)] == k; }
    assert k in at + tail <==> k in at || k in tail;
  }

  /** Follow the record at position p of the log that the slots hold, by any cursor an
      earlier query gave it. Every answer is right if and only if it is a gap, or the
      slots are read behind p, the last record read up to p has the content of the
      cursor, and as many of that content are read up to p as the cursor counts. */
  lemma FollowAcrossSlots(parts: seq<Part>, decode: Decoder, p: nat, c: Cursor, tail: nat, hash: Hash)
    requires ByLines(decode) && AllDecode(parts, decode) && Gather(parts, decode).Ok?
    requires p < |WholeLog(parts, decode)|
    ensures var log, at, kept := WholeLog(parts, decode), ReadAt(parts, decode), Gather(parts, decode).value;
            var n := ReadUpTo(at, p);
            && Reading(log, at) && Records(log, at) == kept
            && ((forall r :: Answers(Stamp(kept, hash), tail, Some(c), r) ==> Right(log, at, p, hash, r))
                <==> (|| (forall q :: !Names(kept, tail, c, hash, q))
                      || (&& ReadBehind(parts, decode, p) && n > 0
                          && hash(kept[n - 1].bytes) == c.hash && Occurrences(kept[..n], c.hash, hash) == c.count)))
  {
    hide ByLines, AllDecode, Gather, WholeLog, ReadAt, ReadBehind, Answers, Stamp, Right, Names, Occurrences;
    GatherIsReading(parts, decode);
    ReadsBehind(parts, decode, p);
    FollowReading(WholeLog(parts, decode), ReadAt(parts, decode), p, c, tail, hash);
  }

  function EntriesOf(stamped: seq<Stamped>): (r: seq<Entry>)
    ensures |r| == |stamped|
  {
    seq(|stamped|, i requires 0 <= i < |stamped| => stamped[i].entry)
  }

  lemma {:induction false} GatherAppend(a: seq<Part>, b: seq<Part>, decode: Decoder)
    requires Gather(a + b, decode).Ok?
    ensures Gather(a, decode).Ok? && Gather(b, decode).Ok?
    ensures Gather(a + b, decode).value == Gather(a, decode).value + Gather(b, decode).value
  {
    hide PartEntries;
    if b == [] {
      assert a + b == a;
    } else {
      assert (a + b)[..|a + b| - 1] == a + b[..|b| - 1];
      GatherAppend(a, b[..|b| - 1], decode);
    }
  }

  /** The followed record lies in the slots `older`, and what is read up to it is what
      was read then. Every answer is a gap or exactly the records behind it if and only
      if no newer slot is longer than 1 MiB, or the record has left the window. */
  lemma FollowIntoSlots(
    older: seq<Part>, newer: seq<Part>, decode: Decoder, seen: seq<Entry>, i: nat, tail: nat, hash: Hash)
    requires ByLines(decode) && AllDecode(newer, decode) && Gather(older + newer, decode).Ok?
    requires Gather(older, decode).Ok? && i < |Gather(older, decode).value| && i < |seen|
    requires seen[..i + 1] == Gather(older, decode).value[..i + 1]
    ensures var now, c := Gather(older + newer, decode).value, CursorOf(seen, i, hash);
            var behind := Gather(older, decode).value[i + 1..] + WholeLog(newer, decode);
            ((forall r :: Answers(Stamp(now, hash), tail, Some(c), r) ==>
                r == Err(FollowGap) || (r.Ok? && EntriesOf(r.value) == behind))
             <==> AllShort(newer) || i + tail + 1 < |now|)
  {
    hide ByLines, AllDecode, Answers, Stamp, Occurrences, PartEntries, WholeLog, AllShort;
    GatherAppend(older, newer, decode);
    ReadsAll(newer, decode);
    var now, kept := Gather(older + newer, decode).value, Gather(older, decode).value;
    var c := CursorOf(seen, i, hash);
    assert now[..i + 1] == kept[..i + 1];
    assert CursorOf(now, i, hash) == c by { assert now[i] == kept[..i + 1][i] == seen[..i + 1][i]; }
    if i + tail + 1 >= |now| {
      assert Names(now, tail, c, hash, i);
      var answer := Stamp(now, hash)[i + 1..];
      forall r { AnswerNamed(now, tail, c, hash, i, r); }
      assert Answers(Stamp(now, hash), tail, Some(c), Ok(answer));
      StampedEntries(now, hash, i + 1);
      assert now[i + 1..] == kept[i + 1..] + Gather(newer, decode).value;
    } else {
      forall q ensures !Names(now, tail, c, hash, q) {
        if Names(now, tail, c, hash, q) { SameCursor(now, i, q, hash); }
      }
      forall r { AnswerGap(now, tail, c, hash, r); }
    }
  }

  lemma StampedEntries(entries: seq<Entry>, hash: Hash, from: nat)
    requires from <= |entries|
    ensures EntriesOf(Stamp(entries, hash)[from..]) == entries[from..]
  {
  }

  // ---------- An input that goes wrong ----------

  const LINE_BYTES := 16 * 1024
  const LINES := 65

  /** A line of 16 KiB that is one letter over and over. */
  function LogLine(letter: byte): (line: seq<byte>)
    requires letter != NEWLINE
    ensures |line| == LINE_BYTES && LogTail.IsLine(line) && EndsLine(line) && line[0] == letter
  {
    seq(LINE_BYTES - 1, _ => letter) + [NEWLINE]
  }

  /** A record whose serialised form is its line without the newline. */
  function Record(line: seq<byte>): Entry { Entry(if EndsLine(line) then line[..|line| - 1] else line, true) }

  function ParseRecord(line: seq<byte>): Result<Entry, ()> { Ok(Record(line)) }

  const DECODER: Decoder := LineDecoder(ParseRecord)

  function RecordsOf(lines: seq<seq<byte>>): (r: seq<Entry>)
    ensures |r| == |lines|
  {
    seq(|lines|, i requires 0 <= i < |lines| => Record(lines[i]))
  }

  ghost predicate LongLines(lines: seq<seq<byte>>) {
    forall i :: 0 <= i < |lines| ==> |lines[i]| == LINE_BYTES && LogTail.IsLine(lines[i]) && EndsLine(lines[i])
  }

  lemma {:induction false} DecodesRecords(lines: seq<seq<byte>>)
    ensures DecodeLines(lines, ParseRecord) == Ok(RecordsOf(lines))
  {
    hide Record;
    if lines != [] {
      DecodesRecords(lines[1..]);
      assert RecordsOf(lines) == [Record(lines[0])] + RecordsOf(lines[1..]);
    }
  }

  lemma {:induction false} LongSizes(lines: seq<seq<byte>>)
    requires LongLines(lines)
    ensures |Concat(lines)| == LINE_BYTES * |lines|
    ensures TotalBytes(RecordsOf(lines)) == (LINE_BYTES - 1) * |lines|
    ensures forall i :: 0 <= i < |lines| ==> |RecordsOf(lines)[i].bytes| == LINE_BYTES - 1
  {
    if lines != [] {
      assert RecordsOf(lines)[1..] == RecordsOf(lines[1..]);
      LongSizes(lines[1..]);
    }
  }

  /** Up to 64 such lines are decoded, one record each, within every budget. */
  lemma DecodesLong(lines: seq<seq<byte>>)
    requires LongLines(lines) && |lines| < LINES
    ensures Decoded(Concat(lines), DECODER) == Ok(RecordsOf(lines))
  {
    hide Record, RecordsOf, CheckEntries, LogTail.IsLine, EndsLine, TotalBytes, Concat, Lines, DecodeLines;
    LinesOfLines(lines);
    DecodesRecords(lines);
    assert DECODER(Concat(lines)) == Ok(RecordsOf(lines));
    LongRecordsFit(lines);
  }

  lemma LongRecordsFit(lines: seq<seq<byte>>)
    requires LongLines(lines) && |lines| < LINES
    ensures CheckEntries(RecordsOf(lines), 0).Ok?
  {
    hide CheckEntries, LogTail.IsLine, EndsLine, TotalBytes, Concat;
    LongSizes(lines);
    assert TotalBytes(RecordsOf(lines)) <= MAX_SUFFIX_BYTES;
    CheckExact(RecordsOf(lines), 0);
  }

  lemma PartIs(bytes: seq<byte>, p: nat, decode: Decoder)
    requires Kept(bytes, p) && |bytes| <= MAX_PART_BYTES
    ensures PartEntries(Found(bytes), decode) == Decoded(bytes[p..], decode)
  {
    forall q: nat | Kept(bytes, q) ensures q == p { KeptOnce(bytes, p, q); }
  }

  /** The lines of the slot that a query reads. */
  function ReadLines(lines: seq<seq<byte>>): seq<seq<byte>>
    requires lines != []
  {
    if |lines| == LINES then lines[1..] else lines
  }

  /** Of 65 such lines the first is not read. */
  lemma KeepsLong(lines: seq<seq<byte>>)
    requires LongLines(lines) && 0 < |lines| <= LINES
    ensures var p := if |lines| == LINES then LINE_BYTES else 0;
            && p <= |Concat(lines)| && Kept(Concat(lines), p)
            && Concat(lines)[p..] == Concat(ReadLines(lines))
  {
    hide Lines, LogTail.IsLine;
    var bytes, first, rest := Concat(lines), lines[0], lines[1..];
    LongSizes(lines);
    LinesOfLines(lines);
    LinesOfLines(rest);
    assert bytes == first + Concat(rest);
    assert bytes[LINE_BYTES..] == Concat(rest) && bytes[0..] == bytes;
    assert bytes[LINE_BYTES - 1] == first[LINE_BYTES - 1];
  }

  function Letters(): seq<seq<byte>> { seq(LINES, i requires 0 <= i < LINES => LogLine(20 + i)) }

  lemma LettersAreLong()
    ensures LongLines(Letters()) && LongLines([LogLine(11)])
    ensures DECODER(Concat(Letters())) == Ok(RecordsOf(Letters()))
    ensures Record(LogLine(20)) !in RecordsOf(Letters())[1..]
  {
    hide Lines, DecodeLines, LogTail.IsLine, EndsLine, LogLine;
    LinesOfLines(Letters());
    DecodesRecords(Letters());
    forall i | 0 < i < LINES ensures RecordsOf(Letters())[i] != Record(LogLine(20)) {
      assert RecordsOf(Letters())[i].bytes[0] == 20 + i;
    }
  }

  lemma GatherTwo(a: Part, b: Part, decode: Decoder)
    requires PartEntries(a, decode).Ok? && PartEntries(b, decode).Ok?
    ensures Gather([a], decode) == PartEntries(a, decode)
    ensures Gather([a, b], decode) == Ok(PartEntries(a, decode).value + PartEntries(b, decode).value)
  {
    hide PartEntries;
    assert [a][..0] == [] && [a, b][..1] == [a];
    assert [] + PartEntries(a, decode).value == PartEntries(a, decode).value;
  }

  lemma ReadLinesLong(lines: seq<seq<byte>>)
    requires LongLines(lines) && 0 < |lines| <= LINES
    ensures LongLines(ReadLines(lines)) && |ReadLines(lines)| < LINES
  {
  }

  lemma SlotOfLines(lines: seq<seq<byte>>)
    requires LongLines(lines) && 0 < |lines| <= LINES
    ensures PartEntries(Found(Concat(lines)), DECODER) == Ok(RecordsOf(ReadLines(lines)))
  {
    hide PartEntries, Decoded, Kept, Concat, RecordsOf, LongLines, ReadLines, LineDecoder, TotalBytes;
    var p := if |lines| == LINES then LINE_BYTES else 0;
    LongSizes(lines);
    KeepsLong(lines);
    PartIs(Concat(lines), p, DECODER);
    ReadLinesLong(lines);
    DecodesLong(ReadLines(lines));
  }

  /** The follower has read the only record. The file is rotated, and 65 records of
      16 KiB, all different, go to the new one. Following answers 64 of them and no gap. */
  lemma FollowCanSkipUnread(hash: Hash)
    ensures var slot, x := Concat(Letters()), Record(LogLine(11));
            var before, now := [Found(LogLine(11))], [Found(LogLine(11)), Found(slot)];
            && ByLines(DECODER) && |slot| == LINES * LINE_BYTES
            && Gather(before, DECODER) == Ok([x])
            && Gather(now, DECODER).Ok? && DECODER(slot) == Ok(RecordsOf(Letters()))
            && var c := CursorOf([x], 0, hash);
               forall r: Answer :: Answers(Stamp(Gather(now, DECODER).value, hash), 100, Some(c), r) ==>
                 && r.Ok? && EntriesOf(r.value) == RecordsOf(Letters())[1..]
                 && Record(LogLine(20)) !in EntriesOf(r.value)
  {
    hide Record, Answers, Stamp, PartEntries, ByLines, Concat, LogLine, Letters, Gather, CursorOf, Occurrences, Names,
      RecordsOf, EntriesOf, LineDecoder, LongLines, LogTail.IsLine, EndsLine;
    var x, unseen := Record(LogLine(11)), RecordsOf(Letters())[1..];
    var now, c := [x] + unseen, CursorOf([x], 0, hash);
    LineDecoderByLines(ParseRecord);
    LettersAreLong();
    OldAndNew();
    NamesFirst(x, unseen, 100, hash);
    forall r: Answer { AnswerNamed(now, 100, c, hash, 0, r); }
    StampedEntries(now, hash, 1);
    assert now[1..] == unseen;
  }

  lemma NamesFirst(x: Entry, more: seq<Entry>, tail: nat, hash: Hash)
    requires |more| <= tail
    ensures Names([x] + more, tail, CursorOf([x], 0, hash), hash, 0)
  {
    assert [x][..1] == ([x] + more)[..1];
  }

  lemma OldAndNew()
    ensures var first, slot := Found(LogLine(11)), Found(Concat(Letters()));
            && Gather([first], DECODER) == Ok([Record(LogLine(11))])
            && Gather([first, slot], DECODER) == Ok([Record(LogLine(11))] + RecordsOf(Letters())[1..])
            && |slot.bytes| == LINES * LINE_BYTES
  {
    hide Record, PartEntries, Gather, Concat, LineDecoder, TotalBytes, LogTail.IsLine, EndsLine;
    var x := LogLine(11);
    LettersAreLong();
    LongSizes(Letters());
    SlotOfLines([x]);
    SlotOfLines(Letters());
    OneText(x);
    GatherTwo(Found(x), Found(Concat(Letters())), DECODER);
    assert RecordsOf([x]) == [Record(x)] && RecordsOf(Letters()[1..]) == RecordsOf(Letters())[1..];
  }

  lemma OneText(text: seq<byte>)
    ensures Concat([text]) == text
  {
    assert Concat([text]) == text + Concat([]);
  }
}
