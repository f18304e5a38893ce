/** Which slots a log query can use, and which error it answers for the first one it
    cannot: the conditions themselves, slot by slot and record by record. */
module LogErrors {
  import opened Outcomes
  import opened Bytes
  import opened LogTail
  import opened LogQuery

  // ---------- The records of one slot ----------

  /** The record is within its own budget, and the slot up to it within the common one. */
  predicate WithinBudget(entries: seq<Entry>, soFar: nat, i: nat)
    requires i < |entries|
  {
    |entries[i].bytes| <= 16 * 1024 && soFar + TotalBytes(entries[..i + 1]) <= 1024 * 1024
  }

  /** The first record that breaks a condition, and the error that names it. */
  ghost predicate BreaksAt(entries: seq<Entry>, soFar: nat, i: nat, error: QueryError) {
    && i < |entries|
    && (forall j :: 0 <= j < i ==> WithinBudget(entries, soFar, j) && entries[j].isObject)
    && if WithinBudget(entries, soFar, i) then !entries[i].isObject && error == RecordInvalid
       else error == BudgetExceeded
  }

  lemma WithinShifted(entries: seq<Entry>, soFar: nat, i: nat)
    requires 0 < i < |entries|
    ensures WithinBudget(entries, soFar, i) <==> WithinBudget(entries[1..], soFar + |entries[0].bytes|, i - 1)
    ensures WithinBudget(entries, soFar, 0) <==>
              |entries[0].bytes| <= MAX_ENTRY_BYTES && soFar + |entries[0].bytes| <= MAX_SUFFIX_BYTES
  {
    assert entries[..i + 1][1..] == entries[1..][..i];
    FirstWithin(entries, soFar);
  }

  lemma FirstWithin(entries: seq<Entry>, soFar: nat)
    requires entries != []
    ensures WithinBudget(entries, soFar, 0) <==>
              |entries[0].bytes| <= MAX_ENTRY_BYTES && soFar + |entries[0].bytes| <= MAX_SUFFIX_BYTES
  {
    assert entries[..1] == [entries[0]];
    assert TotalBytes([entries[0]]) == |entries[0].bytes| + TotalBytes([entries[0]][1..]);
  }

  /** The check answers the error of the first record that breaks a condition, and
      none if there is no such record. */
  lemma {:induction false} CheckBreaks(entries: seq<Entry>, soFar: nat)
    ensures CheckEntries(entries, soFar).Ok? ==>
              forall i :: 0 <= i < |entries| ==> WithinBudget(entries, soFar, i) && entries[i].isObject
    ensures CheckEntries(entries, soFar).Err? ==>
              exists i: nat :: BreaksAt(entries, soFar, i, CheckEntries(entries, soFar).error)
  {
    hide WithinBudget;
    if entries != [] {
      FirstWithin(entries, soFar);
      forall i | 0 < i < |entries|
        ensures WithinBudget(entries, soFar, i) <==> WithinBudget(entries[1..], soFar + |entries[0].bytes|, i - 1)
      {
        WithinShifted(entries, soFar, i);
      }
      if WithinBudget(entries, soFar, 0) && entries[0].isObject {
        var total := soFar + |entries[0].bytes|;
        CheckBreaks(entries[1..], total);
        if CheckEntries(entries, soFar).Err? {
          var i: nat :| BreaksAt(entries[1..], total, i, CheckEntries(entries[1..], total).error);
          assert BreaksAt(entries, soFar, i + 1, CheckEntries(entries, soFar).error);
        }
      } else {
        assert BreaksAt(entries, soFar, 0, CheckEntries(entries, soFar).error);
      }
    }
  }

  // ---------- One slot ----------

  /** The slot can be used and holds these records. */
  ghost predicate SlotGives(part: Part, decode: Decoder, entries: seq<Entry>) {
    match part
    case Missing => entries == []
    case Failing => false
    case Found(bytes) =>
      && |bytes| <= 8 * 1024 * 1024
      && (exists p: nat :: Kept(bytes, p) && decode(bytes[p..]) == Ok(entries))
      && |entries| <= 16384
      && forall i :: 0 <= i < |entries| ==> WithinBudget(entries, 0, i) && entries[i].isObject
  }

  /** The records decode but are too many, or the first bad one gives this error. */
  ghost predicate EntriesBreak(entries: seq<Entry>, error: QueryError) {
    if |entries| > 16384 then error == BudgetExceeded else exists i: nat :: BreaksAt(entries, 0, i, error)
  }

  /** The slot cannot be used, for the reason this error names. */
  ghost predicate SlotBreaks(part: Part, decode: Decoder, error: QueryError) {
    match part
    case Missing => false
    case Failing => error == Unreadable
    case Found(bytes) =>
      if |bytes| > 8 * 1024 * 1024 then error == BudgetExceeded
      else if forall p: nat :: !Kept(bytes, p) then error == IntegrityFailed
      else exists p: nat :: Kept(bytes, p) && SuffixBreaks(decode(bytes[p..]), error)
  }

  ghost predicate SuffixBreaks(decoded: Result<seq<Entry>, ()>, error: QueryError) {
    match decoded
    case Err(_) => error == DecodeFailed
    case Ok(entries) => EntriesBreak(entries, error)
  }

  /** A slot gives records or an error, and never both. */
  lemma SlotDecided(part: Part, decode: Decoder)
    ensures match PartEntries(part, decode)
            case Ok(entries) => SlotGives(part, decode, entries)
            case Err(error) => SlotBreaks(part, decode, error)
  {
    hide SuffixStart, LinesFit, CheckEntries, WithinBudget, BreaksAt;
    if part.Found? && |part.bytes| <= MAX_PART_BYTES && exists p: nat :: Kept(part.bytes, p) {
      var p: nat :| Kept(part.bytes, p);
      forall q: nat | Kept(part.bytes, q) ensures p == q { KeptOnce(part.bytes, p, q); }
      var decoded := decode(part.bytes[p..]);
      if decoded.Ok? { CheckBreaks(decoded.value, 0); }
    }
  }

  lemma SlotExclusive(part: Part, decode: Decoder, entries: seq<Entry>, error: QueryError, other: QueryError)
    requires SlotBreaks(part, decode, error)
    ensures !SlotGives(part, decode, entries)
    ensures SlotBreaks(part, decode, other) ==> other == error
  {
    hide Kept, WithinBudget;
    if part.Found? {
      forall p: nat, q: nat | Kept(part.bytes, p) && Kept(part.bytes, q) ensures p == q {
        KeptOnce(part.bytes, p, q);
      }
    }
  }

  // ---------- All slots ----------

  function Flat(lists: seq<seq<Entry>>): seq<Entry> {
    if lists == [] then [] else Flat(lists[..|lists| - 1]) + lists[|lists| - 1]
  }

  ghost predicate Usable(part: Part, decode: Decoder) { exists entries :: SlotGives(part, decode, entries) }

  /** What each slot holds. */
  ghost predicate SlotsGive(parts: seq<Part>, decode: Decoder, lists: seq<seq<Entry>>) {
    |lists| == |parts| && forall i :: 0 <= i < |parts| ==> SlotGives(parts[i], decode, lists[i])
  }

  /** The i-th slot is the first that cannot be used. */
  ghost predicate FirstBroken(parts: seq<Part>, decode: Decoder, i: nat, error: QueryError) {
    && i < |parts| && SlotBreaks(parts[i], decode, error)
    && forall j :: 0 <= j < i ==> Usable(parts[j], decode)
  }

  lemma {:induction false} GatherDecided(parts: seq<Part>, decode: Decoder) returns (lists: seq<seq<Entry>>)
    ensures Gather(parts, decode).Ok? ==>
              SlotsGive(parts, decode, lists) && Gather(parts, decode).value == Flat(lists)
    ensures Gather(parts, decode).Err? ==>
              exists i: nat :: FirstBroken(parts, decode, i, Gather(parts, decode).error)
  {
    hide SlotGives, SlotBreaks, PartEntries;
    lists := [];
    if parts != [] {
      var front, last := parts[..|parts| - 1], parts[|parts| - 1];
      var older := GatherDecided(front, decode);
      SlotDecided(last, decode);
      if Gather(front, decode).Err? {
        var error := Gather(parts, decode).error;
        var i: nat :| FirstBroken(front, decode, i, error);
        forall j | 0 <= j < i ensures Usable(parts[j], decode) { assert Usable(front[j], decode); }
        assert parts[i] == front[i] && FirstBroken(parts, decode, i, error);
      } else if PartEntries(last, decode).Ok? {
        lists := older + [PartEntries(last, decode).value];
        assert lists[..|lists| - 1] == older;
        forall i | 0 <= i < |parts| ensures SlotGives(parts[i], decode, lists[i]) {
          if i < |front| { assert SlotGives(front[i], decode, older[i]); }
        }
      } else {
        forall j | 0 <= j < |front| ensures Usable(parts[j], decode) {
          assert SlotGives(front[j], decode, older[j]) && parts[j] == front[j];
        }
        assert FirstBroken(parts, decode, |front|, Gather(parts, decode).error);
      }
    }
  }

  lemma FirstBrokenOnce(parts: seq<Part>, decode: Decoder, i: nat, error: QueryError, j: nat, other: QueryError)
    requires FirstBroken(parts, decode, i, error) && FirstBroken(parts, decode, j, other)
    ensures i == j && error == other
  {
    hide SlotGives, SlotBreaks;
    if i < j {
      var entries :| SlotGives(parts[i], decode, entries);
      SlotExclusive(parts[i], decode, entries, error, error);
    } else if j < i {
      var entries :| SlotGives(parts[j], decode, entries);
      SlotExclusive(parts[j], decode, entries, other, other);
    } else {
      SlotExclusive(parts[i], decode, [], error, other);
    }
  }

  lemma BrokenGivesNothing(parts: seq<Part>, decode: Decoder, i: nat, error: QueryError, lists: seq<seq<Entry>>)
    requires FirstBroken(parts, decode, i, error)
    ensures !SlotsGive(parts, decode, lists)
  {
    hide SlotGives, SlotBreaks;
    if SlotsGive(parts, decode, lists) { SlotExclusive(parts[i], decode, lists[i], error, error); }
  }

  /** A query answers the error of the oldest slot it cannot use. Only if it can use
      them all, and one of them is there, it answers from the records they hold. */
  lemma QueryDecided(
    tail: nat, parts: seq<Part>, cursor: Option<Cursor>, decode: Decoder, hash: Hash,
    r: Result<seq<Stamped>, QueryError>)
    requires 1 <= tail <= 1000 && QueryAnswers(tail, parts, cursor, decode, hash, r)
    ensures forall i: nat, error :: FirstBroken(parts, decode, i, error) ==> r == Err(error)
    ensures forall lists :: SlotsGive(parts, decode, lists) ==>
              if forall i :: 0 <= i < |parts| ==> parts[i].Missing? then r == Err(Unavailable)
              else Answers(Stamp(Flat(lists), hash), tail, cursor, r)
    ensures (exists i: nat, error :: FirstBroken(parts, decode, i, error)) <==>
              forall lists :: !SlotsGive(parts, decode, lists)
  {
    hide SlotGives, SlotBreaks, Answers, Stamp, Gather;
    var found := GatherDecided(parts, decode);
    if Gather(parts, decode).Ok? {
      forall lists | SlotsGive(parts, decode, lists) ensures lists == found {
        SameLists(parts, decode, lists, found);
      }
      forall i: nat, error | FirstBroken(parts, decode, i, error) ensures false {
        BrokenGivesNothing(parts, decode, i, error, found);
      }
    } else {
      var k: nat :| FirstBroken(parts, decode, k, Gather(parts, decode).error);
      forall lists ensures !SlotsGive(parts, decode, lists) {
        BrokenGivesNothing(parts, decode, k, Gather(parts, decode).error, lists);
      }
      forall i: nat, error | FirstBroken(parts, decode, i, error) ensures error == Gather(parts, decode).error {
        FirstBrokenOnce(parts, decode, i, error, k, Gather(parts, decode).error);
      }
    }
  }

  lemma SlotGivesOnce(part: Part, decode: Decoder, a: seq<Entry>, b: seq<Entry>)
    requires SlotGives(part, decode, a) && SlotGives(part, decode, b)
    ensures a == b
  {
    hide Kept, WithinBudget;
    if part.Found? {
      forall p: nat, q: nat | Kept(part.bytes, p) && Kept(part.bytes, q) ensures p == q {
        KeptOnce(part.bytes, p, q);
      }
    }
  }

  lemma SameLists(parts: seq<Part>, decode: Decoder, a: seq<seq<Entry>>, b: seq<seq<Entry>>)
    requires SlotsGive(parts, decode, a) && SlotsGive(parts, decode, b)
    ensures a == b
  {
    hide SlotGives;
    forall i | 0 <= i < |parts| ensures a[i] == b[i] { SlotGivesOnce(parts[i], decode, a[i], b[i]); }
  }
}
