/** Record identities and the file names that carry them (src/runtime/spool.rs). */
module SpoolNames {
  import opened Outcomes
  import opened Bytes

  datatype SpoolError =
    | InvalidLimits | RecordTooLarge | SpoolFull | InvalidRecord | InvalidContract | RecordNotFound
    | BudgetExceeded | DestinationExists | PublishedDurabilityUnknown | AlreadyRunning | Io

  datatype QuarantineReason = Corrupt | IdentityMismatch

  const I64_LIMIT := 0x8000_0000_0000_0000

  predicate IsLowerHex(c: char) { '0' <= c <= '9' || 'a' <= c <= 'f' }

  predicate ValidId(s: string) {
    |s| == 32 && forall i :: 0 <= i < 32 ==> IsLowerHex(s[i])
  }

  type RecordId = s: string | ValidId(s) witness "00000000000000000000000000000000"

  /** What a file name says about its record. */
  datatype Name = Name(id: RecordId, priority: byte, created: int, quarantined: Option<QuarantineReason>)

  ghost predicate ValidName(n: Name) { 0 <= n.created < I64_LIMIT }

  // ---------- Decimal text ----------

  predicate AllDigits(s: string) { forall i :: 0 <= i < |s| ==> '0' <= s[i] <= '9' }

  function DecimalValue(s: string): nat
    requires AllDigits(s)
  {
    if s == "" then 0 else 10 * DecimalValue(s[..|s| - 1]) + (s[|s| - 1] as int - '0' as int)
  }

  /** `{:0width}` of a number that fits the width. */
  function FixedDecimal(n: nat, width: nat): (s: string)
    requires n < Pow(10, width)
    ensures |s| == width && AllDigits(s)
  {
    if width == 0 then "" else FixedDecimal(n / 10, width - 1) + [(n % 10 + '0' as int) as char]
  }

  /** `str::parse` for an integer type with the given bounds: one optional sign,
      then at least one digit. */
  function ParseInteger(s: string, least: int, greatest: int): Option<int> {
    var negative := s != "" && s[0] == '-';
    var digits := if s != "" && (s[0] == '+' || s[0] == '-') then s[1..] else s;
    if digits == "" || !AllDigits(digits) then None
    else
      var value: int := if negative then 0 - DecimalValue(digits) else DecimalValue(digits);
      if least <= value <= greatest then Some(value) else None
  }

  lemma {:induction false} DecimalOfFixed(n: nat, width: nat)
    requires n < Pow(10, width)
    ensures DecimalValue(FixedDecimal(n, width)) == n
  {
    if width > 0 {
      DecimalOfFixed(n / 10, width - 1);
      var s := FixedDecimal(n, width);
      assert s[..|s| - 1] == FixedDecimal(n / 10, width - 1);
      assert s[|s| - 1] as int - '0' as int == n % 10;
    }
  }

  lemma ParseOfFixed(n: nat, width: nat, least: int, greatest: int)
    requires width > 0 && n < Pow(10, width) && least <= n <= greatest
    ensures ParseInteger(FixedDecimal(n, width), least, greatest) == Some(n)
  {
    DecimalOfFixed(n, width);
    assert '0' <= FixedDecimal(n, width)[0] <= '9';
  }

  lemma WidthsSuffice()
    ensures Pow(10, 3) == 1000
    ensures Pow(10, 20) > I64_LIMIT
  {
    assert Pow(10, 1) == 10 * Pow(10, 0);
    assert Pow(10, 2) == 10 * Pow(10, 1);
    assert Pow(10, 4) == 10 * Pow(10, 3);
    assert Pow(10, 5) == 10 * Pow(10, 4);
    assert Pow(10, 6) == 10 * Pow(10, 5);
    assert Pow(10, 7) == 10 * Pow(10, 6);
    assert Pow(10, 8) == 10 * Pow(10, 7);
    assert Pow(10, 9) == 10 * Pow(10, 8);
    assert Pow(10, 10) == 10 * Pow(10, 9);
    assert Pow(10, 11) == 10 * Pow(10, 10);
    assert Pow(10, 12) == 10 * Pow(10, 11);
    assert Pow(10, 13) == 10 * Pow(10, 12);
    assert Pow(10, 14) == 10 * Pow(10, 13);
    assert Pow(10, 15) == 10 * Pow(10, 14);
    assert Pow(10, 16) == 10 * Pow(10, 15);
    assert Pow(10, 17) == 10 * Pow(10, 16);
    assert Pow(10, 18) == 10 * Pow(10, 17);
    assert Pow(10, 19) == 10 * Pow(10, 18);
    assert Pow(10, 20) == 10 * Pow(10, 19);
  }

  // ---------- Splitting ----------

  function Split(s: string, separator: char): (parts: seq<string>)
    ensures |parts| >= 1
  {
    if s == "" then [""]
    else
      var rest := Split(s[1..], separator);
      if s[0] == separator then [""] + rest else [[s[0]] + rest[0]] + rest[1..]
  }

  function LastIndexOf(s: string, c: char): (r: Option<nat>)
    ensures r.Some? ==> r.value < |s| && s[r.value] == c && forall i :: r.value < i < |s| ==> s[i] != c
    ensures r.None? ==> c !in s
  {
    if s == "" then None
    else if s[|s| - 1] == c then Some(|s| - 1)
    else LastIndexOf(s[..|s| - 1], c)
  }

  lemma {:induction false} SplitWithout(s: string, separator: char)
    requires separator !in s
    ensures Split(s, separator) == [s]
  {
    if s != "" {
      SplitWithout(s[1..], separator);
      assert [s[0]] + s[1..] == s;
    }
  }

  lemma {:induction false} SplitFirst(front: string, separator: char, rest: string)
    requires separator !in front
    ensures Split(front + [separator] + rest, separator) == [front] + Split(rest, separator)
  {
    var s := front + [separator] + rest;
    if front == "" {
      assert s[1..] == rest;
    } else {
      SplitFirst(front[1..], separator, rest);
      assert s[1..] == front[1..] + [separator] + rest;
      assert [front[0]] + front[1..] == front;
    }
  }

  // ---------- Names ----------

  function Extension(quarantined: Option<QuarantineReason>): string {
    match quarantined
    case None => "record"
    case Some(Corrupt) => "bad"
    case Some(IdentityMismatch) => "identity"
  }

  function Stem(n: Name): string
    requires ValidName(n)
  {
    WidthsSuffice();
    FixedDecimal(n.priority, 3) + "-" + (FixedDecimal(n.created, 20) + "-" + n.id)
  }

  function RecordName(n: Name): string
    requires ValidName(n)
  {
    Stem(n) + "." + Extension(n.quarantined)
  }

  function ParseExtension(extension: string): Result<Option<QuarantineReason>, SpoolError> {
    if extension == "record" then Ok(None)
    else if extension == "bad" then Ok(Some(Corrupt))
    else if extension == "identity" then Ok(Some(IdentityMismatch))
    else Err(InvalidRecord)
  }

  function ParseStem(stem: string, quarantined: Option<QuarantineReason>): Result<Name, SpoolError> {
    var parts := Split(stem, '-');
    var priority := ParseInteger(parts[0], 0, 255);
    if priority.None? || |parts| < 2 then Err(InvalidRecord)
    else
      var created := ParseInteger(parts[1], -I64_LIMIT, I64_LIMIT - 1);
      if created.None? || |parts| < 3 || !ValidId(parts[2]) then Err(InvalidRecord)
      else if |parts| > 3 || created.value < 0 then Err(InvalidRecord)
      else Ok(Name(parts[2], priority.value, created.value, quarantined))
  }

  function ParseName(text: string): (r: Result<Name, SpoolError>)
    ensures r.Ok? ==> ValidName(r.value) && text == RecordName(r.value)
  {
    var dot := LastIndexOf(text, '.');
    if dot.None? then Err(InvalidRecord)
    else
      var quarantined :- ParseExtension(text[dot.value + 1..]);
      var name :- ParseStem(text[..dot.value], quarantined);
      if RecordName(name) != text then Err(InvalidRecord) else Ok(name)
  }

  /** The text of a name: three digits, twenty digits, the identifier, and an
      extension that says what became of the record. */
  lemma RecordNameText(n: Name)
    requires ValidName(n)
    ensures |RecordName(n)| >= 57
    ensures var text := RecordName(n);
            && AllDigits(text[..3]) && DecimalValue(text[..3]) == n.priority && text[3] == '-'
            && AllDigits(text[4..24]) && DecimalValue(text[4..24]) == n.created && text[24] == '-'
            && text[25..57] == n.id
            && (n.quarantined.None? <==> text[57..] == ".record")
            && (n.quarantined == Some(Corrupt) <==> text[57..] == ".bad")
            && (n.quarantined == Some(IdentityMismatch) <==> text[57..] == ".identity")
  {
    hide FixedDecimal, DecimalValue, AllDigits;
    WidthsSuffice();
    var priority, created := FixedDecimal(n.priority, 3), FixedDecimal(n.created, 20);
    DecimalOfFixed(n.priority, 3);
    DecimalOfFixed(n.created, 20);
    var text := RecordName(n);
    assert text == Stem(n) + ("." + Extension(n.quarantined));
    assert text[57..] == "." + Extension(n.quarantined);
    assert text[..57] == Stem(n) == priority + "-" + (created + "-" + n.id);
    assert text[..3] == priority && text[4..24] == created;
    assert text[57..] == ".record" || text[57..] == ".bad" || text[57..] == ".identity";
    ExtensionsDiffer(n.quarantined);
  }

  lemma ExtensionsDiffer(quarantined: Option<QuarantineReason>)
    ensures quarantined.None? <==> "." + Extension(quarantined) == ".record"
    ensures quarantined == Some(Corrupt) <==> "." + Extension(quarantined) == ".bad"
    ensures quarantined == Some(IdentityMismatch) <==> "." + Extension(quarantined) == ".identity"
  {
    assert ("." + Extension(quarantined))[1..] == Extension(quarantined);
    assert |".record"| == 7 && |".bad"| == 4 && |".identity"| == 9;
  }

  lemma HexHasNoSeparators(id: RecordId)
    ensures '-' !in id && '.' !in id
  {
  }

  lemma SplitThree(a: string, b: string, c: string)
    requires '-' !in a && '-' !in b && '-' !in c
    ensures Split(a + "-" + (b + "-" + c), '-') == [a, b, c]
  {
    SplitWithout(c, '-');
    SplitFirst(b, '-', c);
    SplitFirst(a, '-', b + "-" + c);
  }

  lemma ParseStemOfStem(n: Name)
    requires ValidName(n)
    ensures ParseStem(Stem(n), n.quarantined) == Ok(n)
  {
    WidthsSuffice();
    var priority, created := FixedDecimal(n.priority, 3), FixedDecimal(n.created, 20);
    ParseOfFixed(n.priority, 3, 0, 255);
    ParseOfFixed(n.created, 20, -I64_LIMIT, I64_LIMIT - 1);
    HexHasNoSeparators(n.id);
    SplitThree(priority, created, n.id);
    var parts := Split(Stem(n), '-');
    assert parts[0] == priority && parts[1] == created && parts[2] == n.id && |parts| == 3;
  }

  lemma StemHasNoDot(n: Name)
    requires ValidName(n)
    ensures |Stem(n)| == 57 && '.' !in Stem(n)
  {
    WidthsSuffice();
    HexHasNoSeparators(n.id);
  }

  lemma LastDot(front: string, back: string)
    requires '.' !in back
    ensures LastIndexOf(front + "." + back, '.') == Some(|front|)
  {
    var s := front + "." + back;
    assert s[|front|] == '.';
    assert forall i :: |front| < i < |s| ==> s[i] == back[i - |front| - 1];
  }

  lemma ParseOfExtension(quarantined: Option<QuarantineReason>)
    ensures ParseExtension(Extension(quarantined)) == Ok(quarantined)
    ensures '.' !in Extension(quarantined)
  {
    assert "bad"[0] == 'b' && "record"[0] == 'r' && "identity"[0] == 'i';
  }

  /** `parse_name` undoes `record_name`. */
  lemma ParseOfRecordName(n: Name)
    requires ValidName(n)
    ensures ParseName(RecordName(n)) == Ok(n)
  {
    var stem, extension := Stem(n), Extension(n.quarantined);
    ParseOfExtension(n.quarantined);
    LastDot(stem, extension);
    ParseStemOfStem(n);
    ParseNameParts(RecordName(n), stem, extension);
  }

  lemma ParseNameParts(text: string, stem: string, extension: string)
    requires text == stem + "." + extension
    requires LastIndexOf(text, '.') == Some(|stem|)
    requires ParseExtension(extension).Ok? && ParseStem(stem, ParseExtension(extension).value).Ok?
    requires ValidName(ParseStem(stem, ParseExtension(extension).value).value)
    requires RecordName(ParseStem(stem, ParseExtension(extension).value).value) == text
    ensures ParseName(text) == ParseStem(stem, ParseExtension(extension).value)
  {
    assert text[|stem| + 1..] == extension && text[..|stem|] == stem;
  }

  /** `parse_name` accepts exactly the names `record_name` can produce. */
  lemma ParseAcceptsExactlyImage(text: string)
    ensures ParseName(text).Ok? <==> exists n :: ValidName(n) && text == RecordName(n)
  {
    if n :| ValidName(n) && text == RecordName(n) {
      ParseOfRecordName(n);
    }
  }

  lemma RecordNameInjective(m: Name, n: Name)
    requires ValidName(m) && ValidName(n) && RecordName(m) == RecordName(n)
    ensures m == n
  {
    ParseOfRecordName(m);
    ParseOfRecordName(n);
  }

  // ---------- Order ----------

  predicate CharBefore(a: char, b: char) { a < b }

  predicate TextBefore(a: string, b: string) { Before(CharBefore, a, b) }

  lemma {:induction false} FixedDecimalOrder(m: nat, n: nat, width: nat)
    requires m < Pow(10, width) && n < Pow(10, width)
    ensures TextBefore(FixedDecimal(m, width), FixedDecimal(n, width)) <==> m < n
    ensures FixedDecimal(m, width) == FixedDecimal(n, width) <==> m == n
  {
    DecimalOfFixed(m, width);
    DecimalOfFixed(n, width);
    if width > 0 {
      var x, y := [(m % 10 + '0' as int) as char], [(n % 10 + '0' as int) as char];
      FixedDecimalOrder(m / 10, n / 10, width - 1);
      BeforeAppend(CharBefore, FixedDecimal(m / 10, width - 1), FixedDecimal(n / 10, width - 1), x, y);
      assert Before(CharBefore, x, y) <==> m % 10 < n % 10;
    }
  }

  /** Numeric order on priority, then timestamp, then the identifier's text. */
  predicate Precedes(m: Name, n: Name) {
    || m.priority < n.priority
    || (m.priority == n.priority && m.created < n.created)
    || (m.priority == n.priority && m.created == n.created && TextBefore(m.id, n.id))
  }

  predicate SameStem(m: Name, n: Name) { m.id == n.id && m.priority == n.priority && m.created == n.created }

  /** One fixed-width field, a separator, and the rest. */
  lemma FieldOrder(a: string, b: string, x: string, y: string)
    requires |a| == |b|
    ensures TextBefore(a + "-" + x, b + "-" + y) <==> TextBefore(a, b) || (a == b && TextBefore(x, y))
  {
    BeforeAppend(CharBefore, a + "-", b + "-", x, y);
    BeforeAppend(CharBefore, a, b, "-", "-");
    BeforeIrreflexive(CharBefore, "-");
    assert a + "-" == b + "-" ==> a == b by {
      assert (a + "-")[..|a|] == a && (b + "-")[..|b|] == b;
    }
  }

  lemma StemOrder(m: Name, n: Name)
    requires ValidName(m) && ValidName(n)
    ensures TextBefore(Stem(m), Stem(n)) <==> Precedes(m, n)
  {
    WidthsSuffice();
    var mp, mc := FixedDecimal(m.priority, 3), FixedDecimal(m.created, 20);
    var np, nc := FixedDecimal(n.priority, 3), FixedDecimal(n.created, 20);
    FixedDecimalOrder(m.priority, n.priority, 3);
    FixedDecimalOrder(m.created, n.created, 20);
    FieldOrder(mc, nc, m.id, n.id);
    FieldOrder(mp, np, mc + "-" + m.id, nc + "-" + n.id);
  }

  lemma StemInjective(m: Name, n: Name)
    requires ValidName(m) && ValidName(n) && Stem(m) == Stem(n)
    ensures SameStem(m, n)
  {
    ParseStemOfStem(m.(quarantined := None));
    ParseStemOfStem(n.(quarantined := None));
  }

  /** Sorting file names by bytes sorts records by (priority, timestamp, id). */
  lemma NameOrder(m: Name, n: Name)
    requires ValidName(m) && ValidName(n) && !SameStem(m, n)
    ensures TextBefore(RecordName(m), RecordName(n)) <==> Precedes(m, n)
  {
    StemOrder(m, n);
    StemHasNoDot(m);
    StemHasNoDot(n);
    if Stem(m) == Stem(n) { StemInjective(m, n); }
    BeforeAppend(CharBefore, Stem(m), Stem(n), "." + Extension(m.quarantined), "." + Extension(n.quarantined));
    assert RecordName(m) == Stem(m) + ("." + Extension(m.quarantined));
    assert RecordName(n) == Stem(n) + ("." + Extension(n.quarantined));
  }
}
