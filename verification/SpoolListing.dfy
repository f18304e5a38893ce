/** The sorted, admission-checked listing behind every spool operation
    (`current_entries` in src/runtime/spool.rs). */
module SpoolListing {
  import opened Outcomes
  import opened Bytes
  import opened SpoolNames
  import opened SpoolStore
  import opened SpoolDirectory

  // ---------- Sorted listings ----------

  ghost predicate SortedByName(entries: seq<FileEntry>) {
    forall i, j :: 0 <= i < j < |entries| ==> TextBefore(entries[i].name, entries[j].name)
  }

  /** What `current_entries` returns: everything but the lock, by name. */
  ghost predicate Listing(files: Files, entries: seq<FileEntry>) {
    SortedByName(entries) && Lists(files - {LOCK}, entries)
  }

  function InsertEntry(e: FileEntry, sorted: seq<FileEntry>): (r: seq<FileEntry>)
    ensures forall x :: x in r <==> x == e || x in sorted
  {
    if sorted == [] then [e]
    else if TextBefore(e.name, sorted[0].name) then [e] + sorted
    else [sorted[0]] + InsertEntry(e, sorted[1..])
  }

  function SortEntries(entries: seq<FileEntry>): (r: seq<FileEntry>)
    ensures forall x :: x in r <==> x in entries
  {
    if entries == [] then [] else InsertEntry(entries[0], SortEntries(entries[1..]))
  }

  lemma {:induction false} InsertKeepsOrder(e: FileEntry, sorted: seq<FileEntry>)
    requires SortedByName(sorted) && forall x :: x in sorted ==> x.name != e.name
    ensures SortedByName(InsertEntry(e, sorted))
  {
    hide TextBefore;
    if sorted != [] {
      if TextBefore(e.name, sorted[0].name) {
        forall j | 0 <= j < |sorted| ensures TextBefore(e.name, sorted[j].name) {
          if j > 0 { TextTransitive(e.name, sorted[0].name, sorted[j].name); }
        }
      } else {
        TextTotal(e.name, sorted[0].name);
        InsertKeepsOrder(e, sorted[1..]);
        var rest := InsertEntry(e, sorted[1..]);
        forall j | 0 <= j < |rest| ensures TextBefore(sorted[0].name, rest[j].name) {
          assert rest[j] in rest;
          if rest[j] != e {
            var k :| 0 <= k < |sorted[1..]| && sorted[1..][k] == rest[j];
            assert sorted[k + 1] == rest[j];
          }
        }
      }
    }
  }

  lemma {:induction false} SortSorts(entries: seq<FileEntry>)
    requires forall i, j :: 0 <= i < j < |entries| ==> entries[i].name != entries[j].name
    ensures SortedByName(SortEntries(entries))
  {
    if entries != [] {
      SortSorts(entries[1..]);
      forall x | x in SortEntries(entries[1..]) ensures x.name != entries[0].name {
        assert x in entries[1..];
        var k :| 0 <= k < |entries[1..]| && entries[1..][k] == x;
        assert entries[k + 1] == x;
      }
      InsertKeepsOrder(entries[0], SortEntries(entries[1..]));
    }
  }

  lemma TextTotal(a: string, b: string)
    requires a != b
    ensures TextBefore(a, b) != TextBefore(b, a)
  {
    BeforeTotal(CharBefore, a, b);
  }

  lemma TextTransitive(a: string, b: string, c: string)
    requires TextBefore(a, b) && TextBefore(b, c)
    ensures TextBefore(a, c)
  {
    BeforeTransitive(CharBefore, a, b, c);
  }

  lemma TextIrreflexive(a: string)
    ensures !TextBefore(a, a)
  {
    BeforeIrreflexive(CharBefore, a);
  }

  lemma SortedListing(files: Files, entries: seq<FileEntry>)
    requires Lists(files, entries)
    ensures Lists(files, SortEntries(entries)) && SortedByName(SortEntries(entries))
  {
    hide TextBefore;
    SortSorts(entries);
    var sorted := SortEntries(entries);
    forall i | 0 <= i < |sorted| ensures sorted[i].name in files && sorted[i].bytes == |files[sorted[i].name]| {
      assert sorted[i] in sorted;
    }
    forall i, j | 0 <= i < j < |sorted| ensures sorted[i].name != sorted[j].name {
      TextIrreflexive(sorted[i].name);
    }
  }

  function Retain(entries: seq<FileEntry>): (r: seq<FileEntry>)
    ensures forall x :: x in r <==> x in entries && x.name != LOCK
  {
    if entries == [] then []
    else if entries[0].name == LOCK then Retain(entries[1..])
    else [entries[0]] + Retain(entries[1..])
  }

  lemma {:induction false} RetainKeepsDistinct(entries: seq<FileEntry>)
    requires forall i, j :: 0 <= i < j < |entries| ==> entries[i].name != entries[j].name
    ensures forall i, j :: 0 <= i < j < |Retain(entries)| ==> Retain(entries)[i].name != Retain(entries)[j].name
  {
    if entries != [] {
      RetainKeepsDistinct(entries[1..]);
      var rest := Retain(entries[1..]);
      forall j | 0 <= j < |rest| ensures rest[j].name != entries[0].name {
        assert rest[j] in rest;
        var k :| 0 <= k < |entries[1..]| && entries[1..][k] == rest[j];
        assert entries[k + 1] == rest[j];
      }
    }
  }

  lemma RetainLists(files: Files, entries: seq<FileEntry>)
    requires Lists(files, entries)
    ensures Lists(files - {LOCK}, Retain(entries))
  {
    RetainKeepsDistinct(entries);
    var kept := Retain(entries);
    forall i | 0 <= i < |kept| ensures kept[i].name in files - {LOCK} && kept[i].bytes == |files[kept[i].name]| {
      assert kept[i] in kept;
    }
  }

  function SumBytes(entries: seq<FileEntry>): nat {
    if entries == [] then 0 else SumBytes(entries[..|entries| - 1]) + entries[|entries| - 1].bytes
  }

  lemma {:induction false} ListsMeasure(files: Files, entries: seq<FileEntry>)
    requires Lists(files, entries)
    ensures |entries| == |files| && SumBytes(entries) == Total(files)
    decreases |entries|
  {
    if entries == [] {
      assert files.Keys == {};
    } else {
      var front, last := entries[..|entries| - 1], entries[|entries| - 1];
      var rest := files - {last.name};
      forall n | n in rest ensures FileEntry(n, |rest[n]|) in front {
        assert FileEntry(n, |files[n]|) in entries;
      }
      ListsMeasure(rest, front);
      TotalRemove(files, last.name);
      assert rest.Keys == files.Keys - {last.name};
    }
  }

  lemma TotalWithoutLock(files: Files)
    requires LOCK in files ==> files[LOCK] == []
    ensures Total(files - {LOCK}) == Total(files)
    ensures |files - {LOCK}| == |EntryNames(files)|
  {
    if LOCK in files {
      TotalRemove(files, LOCK);
    } else {
      assert files - {LOCK} == files;
    }
    assert (files - {LOCK}).Keys == EntryNames(files);
  }

  // ---------- current_entries ----------

  predicate EntryAdmitted(e: FileEntry) {
    if e.name == LOCK then e.bytes == 0 else ParseName(e.name).Ok?
  }

  method NamesAdmitted(entries: seq<FileEntry>) returns (ok: bool)
    ensures ok <==> forall j :: 0 <= j < |entries| ==> EntryAdmitted(entries[j])
  {
    hide EntryAdmitted;
    for i := 0 to |entries|
      invariant forall j :: 0 <= j < i ==> EntryAdmitted(entries[j])
    {
      if !EntryAdmitted(entries[i]) { return false; }
    }
    return true;
  }

  lemma AdmittedMeansWellNamed(files: Files, entries: seq<FileEntry>)
    requires Lists(files, entries)
    ensures WellNamed(files) <==> forall j :: 0 <= j < |entries| ==> EntryAdmitted(entries[j])
  {
    hide ParseName;
    if WellNamed(files) {
      forall j | 0 <= j < |entries| ensures EntryAdmitted(entries[j]) {}
    }
    if forall j :: 0 <= j < |entries| ==> EntryAdmitted(entries[j]) {
      forall n | n in files ensures if n == LOCK then files[n] == [] else ParseName(n).Ok? {
        var j :| 0 <= j < |entries| && entries[j] == FileEntry(n, |files[n]|);
      }
    }
  }

  method CurrentEntries(directory: Directory, lim: Limits) returns (r: Result<seq<FileEntry>, SpoolError>)
    modifies directory.device
    ensures old(directory.device.faults) <= directory.device.faults
    ensures r.Ok? ==> Current(directory.files, lim) && Listing(directory.files, r.value)
    ensures r.Err? ==>
              || (r.error == Io && old(directory.device.faults) < directory.device.faults)
              || Refusal(directory.files, lim) == Some(r.error)
  {
    hide ParseName, Total, TextBefore, Lists, EntryAdmitted, Retain, SortEntries;
    var listed := directory.List(lim.maxEntries + 1, lim.maxBytes);
    if listed.Err? { return Err(listed.error); }
    var entries := listed.value;
    var ok := NamesAdmitted(entries);
    AdmittedMeansWellNamed(directory.files, entries);
    if !ok { return Err(InvalidRecord); }
    var kept := Retain(entries);
    RetainLists(directory.files, entries);
    ListsMeasure(directory.files - {LOCK}, kept);
    TotalWithoutLock(directory.files);
    if |kept| > lim.maxEntries { return Err(SpoolFull); }
    SortedListing(directory.files - {LOCK}, kept);
    return Ok(SortEntries(kept));
  }
}
