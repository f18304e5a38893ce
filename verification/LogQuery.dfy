/** The query over a rotated log (src/cli/mod.rs:738-819). */
module LogQuery {
  import opened Outcomes
  import opened Bytes
  import opened LogTail

  const MAX_PART_BYTES := 8 * 1024 * 1024
  const MAX_SUFFIX_BYTES := 1024 * 1024
  const MAX_ENTRY_BYTES := 16 * 1024
  const MAX_PART_ENTRIES := 16384

  datatype QueryError =
    | InvalidTail | Unreadable | BudgetExceeded | IntegrityFailed | DecodeFailed
    | RecordInvalid | Unavailable | FollowGap

  /** What the caller's reader finds in a slot. */
  datatype Part = Missing | Failing | Found(bytes: seq<byte>)

  /** A decoded record in its serialised form. */
  datatype Entry = Entry(bytes: seq<byte>, isObject: bool)

  type Decoder = seq<byte> -> Result<seq<Entry>, ()>

  /** `revision`, the hexadecimal SHA-256 of a serialised record: any function. */
  type Hash = seq<byte> -> string

  datatype Cursor = Cursor(hash: string, count: nat)

  datatype Stamped = Stamped(entry: Entry, cursor: Cursor)

  // ---------- The log a query works on ----------

  function CheckEntries(entries: seq<Entry>, soFar: nat): Result<(), QueryError> {
    if entries == [] then Ok(())
    else
      var total := soFar + |entries[0].bytes|;
      if |entries[0].bytes| > MAX_ENTRY_BYTES || total > MAX_SUFFIX_BYTES then Err(BudgetExceeded)
      else if !entries[0].isObject then Err(RecordInvalid)
      else CheckEntries(entries[1..], total)
  }

  function TotalBytes(entries: seq<Entry>): nat {
    if entries == [] then 0 else |entries[0].bytes| + TotalBytes(entries[1..])
  }

  /** Every record is an object within its budget, and so is their sum. */
  lemma {:induction false} CheckExact(entries: seq<Entry>, soFar: nat)
    requires soFar <= MAX_SUFFIX_BYTES
    ensures CheckEntries(entries, soFar).Ok? <==>
            && (forall i :: 0 <= i < |entries| ==> |entries[i].bytes| <= MAX_ENTRY_BYTES && entries[i].isObject)
            && soFar + TotalBytes(entries) <= MAX_SUFFIX_BYTES
  {
    if entries != [] {
      var total := soFar + |entries[0].bytes|;
      if total <= MAX_SUFFIX_BYTES { CheckExact(entries[1..], total); }
      assert forall i :: 1 <= i < |entries| ==> entries[i] == entries[1..][i - 1];
    }
  }

  /** The records of one slot: those of the suffix `ReadTailLines` keeps. */
  ghost function PartEntries(part: Part, decode: Decoder): Result<seq<Entry>, QueryError> {
    match part
    case Missing => Ok([])
    case Failing => Err(Unreadable)
    case Found(bytes) =>
      if |bytes| > MAX_PART_BYTES then Err(BudgetExceeded)
      else if !(exists p: nat :: Kept(bytes, p)) then Err(IntegrityFailed)
      else
        var p: nat :| Kept(bytes, p);
        Decoded(bytes[p..], decode)
  }

  ghost predicate Kept(bytes: seq<byte>, p: nat) {
    && LongestSuffix(bytes, p, MAX_SUFFIX_BYTES)
    && p - SuffixStart(bytes, MAX_SUFFIX_BYTES) <= MAX_ENTRY_BYTES && LinesFit(bytes[p..], MAX_ENTRY_BYTES)
  }

  lemma KeptOnce(bytes: seq<byte>, p: nat, q: nat)
    requires Kept(bytes, p) && Kept(bytes, q)
    ensures p == q
  {
  }

  function Decoded(suffix: seq<byte>, decode: Decoder): Result<seq<Entry>, QueryError> {
    match decode(suffix)
    case Err(_) => Err(DecodeFailed)
    case Ok(entries) =>
      if |entries| > MAX_PART_ENTRIES then Err(BudgetExceeded)
      else match CheckEntries(entries, 0) case Err(error) => Err(error) case Ok(_) => Ok(entries)
  }

  /** All slots, the oldest first. */
  ghost function Gather(parts: seq<Part>, decode: Decoder): Result<seq<Entry>, QueryError> {
    if parts == [] then Ok([])
    else match Gather(parts[..|parts| - 1], decode)
      case Err(error) => Err(error)
      case Ok(older) => (
        match PartEntries(parts[|parts| - 1], decode)
        case Err(error) => Err(error)
        case Ok(newer) => Ok(older + newer))
  }

  lemma {:induction false} GatherStops(parts: seq<Part>, k: nat, decode: Decoder)
    requires k <= |parts| && Gather(parts[..k], decode).Err?
    ensures Gather(parts, decode) == Gather(parts[..k], decode)
    decreases |parts| - k
  {
    if k < |parts| {
      assert parts[..k + 1][..k] == parts[..k];
      GatherStops(parts, k + 1, decode);
    } else {
      assert parts[..k] == parts;
    }
  }

  // ---------- Cursors ----------

  function Occurrences(entries: seq<Entry>, h: string, hash: Hash): nat {
    if entries == [] then 0
    else Occurrences(entries[..|entries| - 1], h, hash) + if hash(entries[|entries| - 1].bytes) == h then 1 else 0
  }

  function CursorOf(entries: seq<Entry>, i: nat, hash: Hash): Cursor
    requires i < |entries|
  {
    var h := hash(entries[i].bytes);
    Cursor(h, Occurrences(entries[..i + 1], h, hash))
  }

  function Stamp(entries: seq<Entry>, hash: Hash): (r: seq<Stamped>)
    ensures |r| == |entries|
  {
    seq(|entries|, i requires 0 <= i < |entries| => Stamped(entries[i], CursorOf(entries, i, hash)))
  }

  lemma {:induction false} OccurrencesGrow(entries: seq<Entry>, i: nat, j: nat, h: string, hash: Hash)
    requires i <= j <= |entries|
    ensures Occurrences(entries[..i], h, hash) <= Occurrences(entries[..j], h, hash)
  {
    if i < j {
      assert entries[..j][..j - 1] == entries[..j - 1];
      OccurrencesGrow(entries, i, j - 1, h, hash);
    }
  }

  lemma CursorsDiffer(entries: seq<Entry>, i: nat, j: nat, hash: Hash)
    requires i < j < |entries|
    ensures CursorOf(entries, i, hash) != CursorOf(entries, j, hash)
  {
    var h := hash(entries[j].bytes);
    OccurrencesGrow(entries, i + 1, j, h, hash);
    assert entries[..j + 1][..j] == entries[..j];
  }

  /** No two records of one query carry the same cursor. */
  lemma CursorsDistinct(entries: seq<Entry>, hash: Hash)
    ensures forall i, j :: 0 <= i < j < |entries| ==> Stamp(entries, hash)[i].cursor != Stamp(entries, hash)[j].cursor
  {
    forall i, j | 0 <= i < j < |entries| ensures Stamp(entries, hash)[i].cursor != Stamp(entries, hash)[j].cursor {
      CursorsDiffer(entries, i, j, hash);
    }
  }

  // ---------- The answer ----------

  function Last<T>(s: seq<T>, n: nat): seq<T> { if |s| <= n then s else s[|s| - n..] }

  /** With a cursor: exactly what follows the record it names, when that record is
      among the last tail + 1, and otherwise a gap. */
  ghost predicate Answers(all: seq<Stamped>, tail: nat, cursor: Option<Cursor>, r: Result<seq<Stamped>, QueryError>) {
    match cursor
    case None => r == Ok(Last(all, tail))
    case Some(c) =>
      && (forall k :: 0 <= k < |all| && all[k].cursor == c && k + tail + 1 >= |all| ==> r == Ok(all[k + 1..]))
      && ((forall k :: 0 <= k < |all| && k + tail + 1 >= |all| ==> all[k].cursor != c) ==> r == Err(FollowGap))
  }

  method Select(entries: seq<Stamped>, ghost all: seq<Stamped>, tail: nat, cursor: Option<Cursor>)
    returns (r: Result<seq<Stamped>, QueryError>)
    requires entries == Last(all, tail + 1)
    requires forall i, j :: 0 <= i < j < |all| ==> all[i].cursor != all[j].cursor
    ensures Answers(all, tail, cursor, r)
  {
    hide Answers;
    if cursor.Some? {
      var i := 0;
      while i < |entries| && entries[i].cursor != cursor.value
        invariant 0 <= i <= |entries|
        invariant forall k :: 0 <= k < i ==> entries[k].cursor != cursor.value
      {
        i := i + 1;
      }
      SelectAnswers(entries, all, tail, cursor.value, i);
      if i == |entries| { return Err(FollowGap); }
      var after := entries[i + 1..];
      if |after| > tail { return Err(FollowGap); }
      return Ok(after);
    }
    AnswersWhole(all, tail);
    if |entries| > tail { return Ok(entries[|entries| - tail..]); }
    return Ok(entries);
  }

  lemma SelectAnswers(entries: seq<Stamped>, all: seq<Stamped>, tail: nat, c: Cursor, i: nat)
    requires entries == Last(all, tail + 1) && i <= |entries|
    requires forall i, j :: 0 <= i < j < |all| ==> all[i].cursor != all[j].cursor
    requires forall k :: 0 <= k < i ==> entries[k].cursor != c
    requires i < |entries| ==> entries[i].cursor == c
    ensures Answers(all, tail, Some(c), if i == |entries| then Err(FollowGap) else Ok(entries[i + 1..]))
  {
    var skipped := |all| - |entries|;
    if i < |entries| {
      SameTail(all, tail + 1, i);
      assert all[skipped + i].cursor == c;
      forall k | 0 <= k < |all| && all[k].cursor == c ensures k == skipped + i {
      }
    } else {
      assert forall k :: skipped <= k < |all| ==> all[k] == entries[k - skipped];
    }
  }

  lemma SameTail(all: seq<Stamped>, n: nat, i: nat)
    requires i < |Last(all, n)|
    ensures var skipped := |all| - |Last(all, n)|;
            Last(all, n)[i] == all[skipped + i] && Last(all, n)[i + 1..] == all[skipped + i + 1..]
  {
  }

  lemma AnswersWhole(all: seq<Stamped>, tail: nat)
    ensures Answers(all, tail, None, Ok(Last(all, tail)))
    ensures var entries := Last(all, tail + 1);
            Last(all, tail) == if |entries| > tail then entries[|entries| - tail..] else entries
  {
  }

  lemma StampSnoc(entries: seq<Entry>, e: Entry, hash: Hash)
    ensures Stamp(entries + [e], hash)
         == Stamp(entries, hash) + [Stamped(e, Cursor(hash(e.bytes), Occurrences(entries, hash(e.bytes), hash) + 1))]
  {
    var more := entries + [e];
    assert more[..|entries| + 1] == more && more[..|entries|] == entries;
    forall i | 0 <= i < |entries| ensures Stamp(more, hash)[i] == Stamp(entries, hash)[i] {
      assert more[..i + 1] == entries[..i + 1];
    }
  }

  function Counted(occurrences: map<string, nat>, h: string): nat { if h in occurrences then occurrences[h] else 0 }

  /** What the loop keeps in its `occurrences` map. */
  ghost predicate Counts(occurrences: map<string, nat>, entries: seq<Entry>, hash: Hash) {
    forall h :: Counted(occurrences, h) == Occurrences(entries, h, hash)
  }

  method AddEntry(
    buffer: seq<Stamped>, occurrences: map<string, nat>, e: Entry, tail: nat, hash: Hash, ghost all: seq<Entry>)
    returns (kept: seq<Stamped>, counted: map<string, nat>)
    requires buffer == Last(Stamp(all, hash), tail + 1) && Counts(occurrences, all, hash)
    ensures kept == Last(Stamp(all + [e], hash), tail + 1) && Counts(counted, all + [e], hash)
  {
    hide Stamp, Last, Counts, Occurrences;
    var h := hash(e.bytes);
    CountsSnoc(occurrences, all, e, hash);
    LastSnoc(Stamp(all, hash), Stamped(e, Cursor(h, Occurrences(all, h, hash) + 1)), tail + 1);
    var count := Counted(occurrences, h) + 1;
    counted := occurrences[h := count];
    kept := buffer + [Stamped(e, Cursor(h, count))];
    if |kept| > tail + 1 { kept := kept[1..]; }
    StampSnoc(all, e, hash);
  }

  lemma LastSnoc(all: seq<Stamped>, e: Stamped, n: nat)
    requires n > 0
    ensures Last(all + [e], n) == if |Last(all, n)| < n then Last(all, n) + [e] else Last(all, n)[1..] + [e]
    ensures |Last(all, n)| <= n
    ensures |Last(all, n)| == n ==> (Last(all, n) + [e])[1..] == Last(all, n)[1..] + [e]
  {
  }

  lemma CountsSnoc(occurrences: map<string, nat>, all: seq<Entry>, e: Entry, hash: Hash)
    requires Counts(occurrences, all, hash)
    ensures Counted(occurrences, hash(e.bytes)) == Occurrences(all, hash(e.bytes), hash)
    ensures Counts(occurrences[hash(e.bytes) := Counted(occurrences, hash(e.bytes)) + 1], all + [e], hash)
  {
    var h, more := hash(e.bytes), all + [e];
    var counted := occurrences[h := Counted(occurrences, h) + 1];
    assert more[..|all|] == all;
    forall g ensures Counted(counted, g) == Occurrences(more, g, hash) {
      assert Counted(occurrences, g) == Occurrences(all, g, hash);
      assert Occurrences(more, g, hash) == Occurrences(all, g, hash) + if h == g then 1 else 0;
    }
  }

  method ReadSuffix(bytes: seq<byte>) returns (r: Option<seq<byte>>)
    ensures match r
            case Some(suffix) => exists p: nat :: Kept(bytes, p) && suffix == bytes[p..]
            case None => forall p: nat :: !Kept(bytes, p)
  {
    hide LongestSuffix, LinesFit, SuffixStart;
    var suffix := ReadTailLines(bytes, MAX_SUFFIX_BYTES, MAX_ENTRY_BYTES);
    if suffix.Err? { return None; }
    assert exists p: nat :: p <= |bytes| && LongestSuffix(bytes, p, MAX_SUFFIX_BYTES);
    return Some(suffix.value);
  }

  method AddPart(
    buffer: seq<Stamped>, occurrences: map<string, nat>, entries: seq<Entry>, tail: nat, hash: Hash,
    ghost all: seq<Entry>)
    returns (r: Result<(seq<Stamped>, map<string, nat>), QueryError>)
    requires buffer == Last(Stamp(all, hash), tail + 1) && Counts(occurrences, all, hash)
    ensures match CheckEntries(entries, 0)
            case Err(error) => r == Err(error)
            case Ok(_) =>
              && r.Ok? && r.value.0 == Last(Stamp(all + entries, hash), tail + 1)
              && Counts(r.value.1, all + entries, hash)
  {
    hide Stamp, Counts, Last;
    var kept, counted := buffer, occurrences;
    var total: nat := 0;
    var i := 0;
    assert entries[0..] == entries && all + entries[..0] == all;
    while i < |entries|
      invariant 0 <= i <= |entries|
      invariant CheckEntries(entries, 0) == CheckEntries(entries[i..], total)
      invariant kept == Last(Stamp(all + entries[..i], hash), tail + 1) && Counts(counted, all + entries[..i], hash)
    {
      var e := entries[i];
      assert entries[i..][1..] == entries[i + 1..];
      total := total + |e.bytes|;
      if |e.bytes| > MAX_ENTRY_BYTES || total > MAX_SUFFIX_BYTES { return Err(BudgetExceeded); }
      if !e.isObject { return Err(RecordInvalid); }
      kept, counted := AddEntry(kept, counted, e, tail, hash, all + entries[..i]);
      assert all + entries[..i] + [e] == all + entries[..i + 1];
      i := i + 1;
    }
    assert entries[..|entries|] == entries;
    return Ok((kept, counted));
  }

  ghost predicate QueryAnswers(
    tail: nat, parts: seq<Part>, cursor: Option<Cursor>, decode: Decoder, hash: Hash,
    r: Result<seq<Stamped>, QueryError>)
  {
    match Gather(parts, decode)
    case Err(error) => r == Err(error)
    case Ok(all) =>
      if forall i :: 0 <= i < |parts| ==> parts[i].Missing? then r == Err(Unavailable)
      else Answers(Stamp(all, hash), tail, cursor, r)
  }

  /** `parts` lists slots 4 down to 0. */
  method QueryRotatingLogs(tail: nat, parts: seq<Part>, cursor: Option<Cursor>, decode: Decoder, hash: Hash)
    returns (r: Result<seq<Stamped>, QueryError>)
    ensures if 1 <= tail <= 1000 then QueryAnswers(tail, parts, cursor, decode, hash, r) else r == Err(InvalidTail)
  {
    hide Stamp, Counts, Last, Answers, PartEntries, CheckEntries;
    if !(1 <= tail <= 1000) { return Err(InvalidTail); }
    var buffer: seq<Stamped>, occurrences: map<string, nat> := [], map[];
    var available := false;
    ghost var all: seq<Entry> := [];
    NothingStamped(tail, hash);
    var i := 0;
    while i < |parts|
      invariant 0 <= i <= |parts|
      invariant Gather(parts[..i], decode) == Ok(all)
      invariant available <==> exists k :: 0 <= k < i && !parts[k].Missing?
      invariant buffer == Last(Stamp(all, hash), tail + 1) && Counts(occurrences, all, hash)
    {
      assert parts[..i + 1][..i] == parts[..i];
      var entries := ReadPart(parts[i], decode);
      if entries.Err? {
        GatherStops(parts, i + 1, decode);
        return Err(entries.error);
      }
      if entries.value.Some? {
        available := true;
        var added := AddPart(buffer, occurrences, entries.value.value, tail, hash, all);
        if added.Err? {
          GatherStops(parts, i + 1, decode);
          return Err(added.error);
        }
        buffer, occurrences := added.value.0, added.value.1;
        all := all + entries.value.value;
      } else {
        assert all + [] == all;
      }
      i := i + 1;
    }
    assert parts[..|parts|] == parts;
    if !available { return Err(Unavailable); }
    CursorsDistinct(all, hash);
    r := Select(buffer, Stamp(all, hash), tail, cursor);
  }

  lemma NothingStamped(tail: nat, hash: Hash)
    ensures [] == Last(Stamp([], hash), tail + 1) && Counts(map[], [], hash)
  {
  }

  /** Reads and decodes one slot; its records are still to be checked one by one. */
  method ReadPart(part: Part, decode: Decoder) returns (r: Result<Option<seq<Entry>>, QueryError>)
    ensures part.Missing? <==> r == Ok(None)
    ensures part.Failing? <==> r == Err(Unreadable)
    ensures part.Found? && r.Ok? ==>
              && |part.bytes| <= 8 * 1024 * 1024 && |r.value.value| <= 16384
              && exists p: nat :: Kept(part.bytes, p) && decode(part.bytes[p..]) == Ok(r.value.value)
    ensures part.Found? && r.Err? ==>
              if |part.bytes| > 8 * 1024 * 1024 then r.error == BudgetExceeded
              else if forall p: nat :: !Kept(part.bytes, p) then r.error == IntegrityFailed
              else exists p: nat :: Kept(part.bytes, p) &&
                     if decode(part.bytes[p..]).Err? then r.error == DecodeFailed
                     else |decode(part.bytes[p..]).value| > 16384 && r.error == BudgetExceeded
    ensures match r
            case Err(error) => !part.Missing? && PartEntries(part, decode) == Err(error)
            case Ok(None) => part.Missing? && PartEntries(part, decode) == Ok([])
            case Ok(Some(entries)) =>
              && !part.Missing?
              && PartEntries(part, decode)
                 == match CheckEntries(entries, 0) case Err(error) => Err(error) case Ok(_) => Ok(entries)
  {
    hide SuffixStart, LinesFit, CheckEntries;
    if part.Missing? { return Ok(None); }
    if part.Failing? { return Err(Unreadable); }
    if |part.bytes| > MAX_PART_BYTES { return Err(BudgetExceeded); }
    var suffix := ReadSuffix(part.bytes);
    if suffix.None? { return Err(IntegrityFailed); }
    forall p: nat, q: nat | Kept(part.bytes, p) && Kept(part.bytes, q) ensures p == q { KeptOnce(part.bytes, p, q); }
    var entries := decode(suffix.value);
    if entries.Err? { return Err(DecodeFailed); }
    if |entries.value| > MAX_PART_ENTRIES { return Err(BudgetExceeded); }
    return Ok(Some(entries.value));
  }
}
