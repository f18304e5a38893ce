/** The two terminal line editors (src/cli/terminal.rs:200-245, 403-471) and the
    one editor over Unicode scalars that both of them implement. Deadlines, signals
    and echo are left out: `Editing` is where they may interrupt. */
module LineEditors {
  import opened Outcomes
  import opened Bytes
  import opened Unicode

  datatype Editor<T> = Editing(line: T) | Submitted(text: seq<Scalar>) | Cancelled | TooLarge | Invalid

  // ---------- The editor a person sees ----------

  /** A scalar that is no control code and not the erase key. */
  type Glyph = c: int | (0 <= c < 0xD800 || 0xE000 <= c < 0x11_0000) && c >= 0x20 && c != 0x7F witness 0x20

  /** Control codes but the ones with a meaning are dropped. */
  type Dropped = n: int | 0 <= n < 0x20 && n != 3 && n != 8 && n != 10 && n != 13

  datatype Key = Type(c: Glyph) | Erase(delete: bool) | Enter(feed: bool) | Interrupt | Control(code: Dropped)

  function Press(line: seq<Scalar>, key: Key, maxBytes: nat): Editor<seq<Scalar>> {
    match key
    case Type(c) => if Utf8Length(line + [c]) > maxBytes then TooLarge else Editing(line + [c])
    case Erase(_) => Editing(if line == [] then [] else line[..|line| - 1])
    case Enter(_) => Submitted(line)
    case Interrupt => Cancelled
    case Control(_) => Editing(line)
  }

  function Session(keys: seq<Key>, maxBytes: nat): Editor<seq<Scalar>> {
    if keys == [] then Editing([])
    else match Session(keys[..|keys| - 1], maxBytes)
      case Editing(line) => Press(line, keys[|keys| - 1], maxBytes)
      case done => done
  }

  // ---------- The byte editor ----------

  /** Erasing takes the trailing continuation bytes and the byte before them. */
  function Strip(bytes: seq<byte>): seq<byte> {
    if bytes == [] then []
    else if Tail(bytes[|bytes| - 1]) then Strip(bytes[..|bytes| - 1])
    else bytes[..|bytes| - 1]
  }

  function ByteKey(bytes: seq<byte>, b: byte, maxBytes: nat): Editor<seq<byte>> {
    if b == 13 || b == 10 then
      match DecodeUtf8(bytes) case Some(text) => Submitted(text) case None => Invalid
    else if b == 3 then Cancelled
    else if b == 8 || b == 127 then Editing(Strip(bytes))
    else if b < 0x20 then Editing(bytes)
    else if |bytes| + 1 > maxBytes then TooLarge
    else Editing(bytes + [b])
  }

  function ByteRun(e: Editor<seq<byte>>, input: seq<byte>, maxBytes: nat): Editor<seq<byte>> {
    if input == [] then e
    else match ByteRun(e, input[..|input| - 1], maxBytes)
      case Editing(bytes) => ByteKey(bytes, input[|input| - 1], maxBytes)
      case done => done
  }

  /** What `String::from_utf8` makes of the buffer. */
  method FromUtf8(bytes: seq<byte>) returns (r: Option<seq<Scalar>>)
    ensures r == DecodeUtf8(bytes)
    ensures forall line :: r == Some(line) <==> EncodeUtf8(line) == bytes
  {
    r := DecodeUtf8(bytes);
    forall line ensures r == Some(line) <==> EncodeUtf8(line) == bytes { Utf8Exact(bytes, line); }
  }

  lemma RunStops(e: Editor<seq<byte>>, input: seq<byte>, k: nat, maxBytes: nat)
    requires k <= |input| && !ByteRun(e, input[..k], maxBytes).Editing?
    ensures ByteRun(e, input, maxBytes) == ByteRun(e, input[..k], maxBytes)
    decreases |input| - k
  {
    if k < |input| {
      assert input[..k + 1][..k] == input[..k];
      RunStops(e, input, k + 1, maxBytes);
    } else {
      assert input[..k] == input;
    }
  }

  method UnixInput(input: seq<byte>, maxBytes: nat) returns (r: Editor<seq<byte>>)
    ensures r == ByteRun(Editing([]), input, maxBytes)
  {
    hide DecodeUtf8, HasTailBits;
    var bytes: seq<byte> := [];
    var i := 0;
    while i < |input|
      invariant 0 <= i <= |input|
      invariant ByteRun(Editing([]), input[..i], maxBytes) == Editing(bytes)
    {
      var b := input[i];
      ghost var before := bytes;
      assert input[..i + 1][..i] == input[..i];
      if !ByteKey(bytes, b, maxBytes).Editing? {
        RunStops(Editing([]), input, i + 1, maxBytes);
      }
      if b == 13 || b == 10 {
        var text := FromUtf8(bytes);
        if text.Some? { return Submitted(text.value); }
        return Invalid;
      } else if b == 3 {
        return Cancelled;
      } else if b == 8 || b == 127 {
        if bytes != [] {
          var removed := bytes[|bytes| - 1];
          bytes := bytes[..|bytes| - 1];
          if HasTailBits(removed) {
            while bytes != [] && HasTailBits(bytes[|bytes| - 1])
              invariant Strip(bytes) == Strip(before)
              decreases |bytes|
            {
              bytes := bytes[..|bytes| - 1];
            }
            if bytes != [] { bytes := bytes[..|bytes| - 1]; }
          }
        }
      } else if b >= 0x20 {
        bytes := bytes + [b];
        if |bytes| > maxBytes { return TooLarge; }
      }
      i := i + 1;
    }
    assert input[..|input|] == input;
    return Editing(bytes);
  }

  // ---------- The UTF-16 editor ----------

  type high = u: int | 0xD800 <= u <= 0xDBFF witness 0xD800

  /** A UTF-16 buffer in progress: whole scalars and perhaps a high surrogate. */
  datatype Draft = Draft(line: seq<Scalar>, pending: Option<high>)

  function PendingUnits(pending: Option<high>): seq<unit> {
    match pending
    case None => []
    case Some(h) => var u: unit := h; [u]
  }

  function Units(d: Draft): seq<unit> { EncodeUtf16(d.line) + PendingUnits(d.pending) }

  /** A completed scalar joins the line when the whole line still fits. */
  function Completed(line: seq<Scalar>, c: Scalar, maxBytes: nat): Editor<Draft> {
    if Utf8Length(line + [c]) > maxBytes then TooLarge else Editing(Draft(line + [c], None))
  }

  /** A pending high surrogate goes first, then one scalar at a time. */
  function Erased(d: Draft): Draft {
    Draft(if d.pending.Some? || d.line == [] then d.line else d.line[..|d.line| - 1], None)
  }

  function UnitKey(d: Draft, u: unit, maxBytes: nat): Editor<Draft> {
    if u == 0 || u == 10 then Editing(d)
    else if u == 13 then if d.pending.Some? then Invalid else Submitted(d.line)
    else if u == 3 then Cancelled
    else if u == 8 || u == 127 then Editing(Erased(d))
    else if u < 0x20 then Editing(d)
    else if HighSurrogate(u) then if d.pending.Some? then Invalid else Editing(Draft(d.line, Some(u as int)))
    else if LowSurrogate(u) then
      if d.pending.None? then Invalid else Completed(d.line, Paired(d.pending.value, u), maxBytes)
    else if d.pending.Some? then Invalid
    else Completed(d.line, u, maxBytes)
  }

  function UnitRun(e: Editor<Draft>, input: seq<unit>, maxBytes: nat): Editor<Draft> {
    if input == [] then e
    else match UnitRun(e, input[..|input| - 1], maxBytes)
      case Editing(d) => UnitKey(d, input[|input| - 1], maxBytes)
      case done => done
  }

  lemma UnitRunStops(e: Editor<Draft>, input: seq<unit>, k: nat, maxBytes: nat)
    requires k <= |input| && !UnitRun(e, input[..k], maxBytes).Editing?
    ensures UnitRun(e, input, maxBytes) == UnitRun(e, input[..k], maxBytes)
    decreases |input| - k
  {
    if k < |input| {
      assert input[..k + 1][..k] == input[..k];
      UnitRunStops(e, input, k + 1, maxBytes);
    } else {
      assert input[..k] == input;
    }
  }

  const EMPTY := Draft([], None)

  /** The buffer and the counter stand for this draft. */
  ghost predicate Holds(units: seq<unit>, counter: nat, d: Draft) { units == Units(d) && counter == Utf8Length(d.line) }

  function CharSize(u: unit): nat { if IsScalar(u) then Utf8Size(u) else 0 }

  function Less(a: nat, b: nat): nat { if a < b then 0 else a - b }

  /** The backspace branch: one unit, or two when they are a surrogate pair. */
  method EraseUnits(units: seq<unit>, counter: nat, ghost d: Draft) returns (rest: seq<unit>, bytes: nat)
    requires Holds(units, counter, d)
    ensures Holds(rest, bytes, Erased(d))
  {
    hide EncodeUtf16, Utf8Length, Utf8Size, Utf16;
    rest, bytes := units, counter;
    ErasedUnits(d);
    if d.pending.None? && d.line != [] { LastUnits(d.line[|d.line| - 1]); }
    if d.pending.None? && d.line == [] { EmptyDraft(); }
    if rest != [] {
      var removed := rest[|rest| - 1];
      rest := rest[..|rest| - 1];
      if LowSurrogate(removed) && rest != [] && HighSurrogate(rest[|rest| - 1]) {
        rest := rest[..|rest| - 1];
        bytes := Less(bytes, 4);
      } else if !HighSurrogate(removed) {
        bytes := Less(bytes, CharSize(removed));
      }
    }
  }

  lemma LastUnits(c: Scalar)
    ensures c < 0x1_0000 ==> Utf16(c) == [c as unit] && CharSize(c) == Utf8Size(c)
    ensures c >= 0x1_0000 ==>
              |Utf16(c)| == 2 && HighSurrogate(Utf16(c)[0]) && LowSurrogate(Utf16(c)[1]) && Utf8Size(c) == 4
  {
  }

  lemma ErasedUnits(d: Draft)
    ensures d.pending.Some? ==> Units(d) == EncodeUtf16(d.line) + [d.pending.value as int]
    ensures d.pending.None? && d.line != [] ==>
              var front, c := d.line[..|d.line| - 1], d.line[|d.line| - 1];
              && Units(d) == EncodeUtf16(front) + Utf16(c)
              && Utf8Length(d.line) == Utf8Length(front) + Utf8Size(c)
    ensures Units(Draft(d.line, None)) == EncodeUtf16(d.line)
  {
    if d.line != [] {
      var front, c := d.line[..|d.line| - 1], d.line[|d.line| - 1];
      assert d.line == front + [c];
      Utf16Snoc(front, c);
      Utf8Snoc(front, c);
    }
  }

  method FromUtf16(units: seq<unit>) returns (r: Option<seq<Scalar>>)
    ensures r == DecodeUtf16(units)
    ensures forall line :: r == Some(line) <==> EncodeUtf16(line) == units
  {
    r := DecodeUtf16(units);
    forall line ensures r == Some(line) <==> EncodeUtf16(line) == units { Utf16Exact(units, line); }
  }

  lemma TypedUnits(d: Draft, u: unit, maxBytes: nat)
    ensures d.pending.Some? <==> Units(d) != [] && HighSurrogate(Units(d)[|Units(d)| - 1])
    ensures d.pending.None? && !HighSurrogate(u) && !LowSurrogate(u) ==>
              Units(Draft(d.line + [u], None)) == Units(d) + [u]
    ensures d.pending.None? && HighSurrogate(u) ==> Units(Draft(d.line, Some(u as int))) == Units(d) + [u]
    ensures d.pending.Some? && LowSurrogate(u) ==>
              var c := Paired(d.pending.value, u);
              Units(Draft(d.line + [c], None)) == Units(d) + [u] && Utf8Size(c) == 4
  {
    if d.pending.Some? && LowSurrogate(u) {
      PairedEncodes(d.pending.value, u);
      Utf16Snoc(d.line, Paired(d.pending.value, u));
    } else if d.pending.None? {
      LastUnit(d.line);
      if !HighSurrogate(u) && !LowSurrogate(u) { Utf16Snoc(d.line, u); }
    }
  }

  /** The branch for a printable unit: what it adds to the counter, or a refusal. */
  method TypeUnit(units: seq<unit>, counter: nat, u: unit, maxBytes: nat, ghost d: Draft)
    returns (r: Editor<seq<unit>>, bytes: nat)
    requires Holds(units, counter, d) && counter <= maxBytes && u >= 0x20 && u != 127
    ensures match UnitKey(d, u, maxBytes)
            case Editing(after) => r.Editing? && Holds(r.line, bytes, after) && bytes <= maxBytes
            case Invalid => r == Invalid
            case TooLarge => r == TooLarge
            case _ => false
  {
    hide EncodeUtf16, Utf8Length, Utf16, Paired;
    TypedUnits(d, u, maxBytes);
    bytes := counter;
    var previousHigh := units != [] && HighSurrogate(units[|units| - 1]);
    var encoded: nat;
    if HighSurrogate(u) {
      if previousHigh { return Invalid, bytes; }
      encoded := 0;
    } else if LowSurrogate(u) {
      if !previousHigh { return Invalid, bytes; }
      encoded := 4;
      Utf8Snoc(d.line, Paired(d.pending.value, u));
    } else {
      if previousHigh { return Invalid, bytes; }
      encoded := Utf8Size(u);
      Utf8Snoc(d.line, u);
    }
    bytes := bytes + encoded;
    if bytes > maxBytes { return TooLarge, bytes; }
    return Editing(units + [u]), bytes;
  }

  /** `input` lists the units of the key presses, each as often as it repeats. */
  method WindowsInput(input: seq<unit>, maxBytes: nat) returns (r: Editor<seq<unit>>, counter: nat)
    ensures match UnitRun(Editing(EMPTY), input, maxBytes)
            case Editing(d) => r.Editing? && Holds(r.line, counter, d)
            case Submitted(text) => r == Submitted(text)
            case Cancelled => r == Cancelled
            case TooLarge => r == TooLarge
            case Invalid => r == Invalid
  {
    hide DecodeUtf16, EncodeUtf16, Utf8Length, Paired, Units, Erased, Completed;
    var units: seq<unit> := [];
    counter := 0;
    ghost var d := EMPTY;
    assert Holds(units, counter, d) by { EmptyDraft(); }
    var i := 0;
    while i < |input|
      invariant 0 <= i <= |input| && counter <= maxBytes
      invariant UnitRun(Editing(EMPTY), input[..i], maxBytes) == Editing(d)
      invariant Holds(units, counter, d)
    {
      var u := input[i];
      assert input[..i + 1][..i] == input[..i];
      assert UnitRun(Editing(EMPTY), input[..i + 1], maxBytes) == UnitKey(d, u, maxBytes);
      if !UnitKey(d, u, maxBytes).Editing? { UnitRunStops(Editing(EMPTY), input, i + 1, maxBytes); }
      if u == 13 {
        var text := FromUtf16(units);
        SubmittedDraft(d);
        if text.Some? { return Submitted(text.value), counter; }
        return Invalid, counter;
      } else if u == 3 {
        return Cancelled, counter;
      } else if u == 8 || u == 127 {
        ShorterDraft(d);
        units, counter := EraseUnits(units, counter, d);
        d := Erased(d);
      } else if u >= 0x20 {
        var typed: Editor<seq<unit>>;
        typed, counter := TypeUnit(units, counter, u, maxBytes, d);
        if !typed.Editing? { return typed, counter; }
        units := typed.line;
        d := UnitKey(d, u, maxBytes).line;
      }
      i := i + 1;
    }
    assert input[..|input|] == input;
    return Editing(units), counter;
  }

  lemma EmptyDraft()
    ensures Holds([], 0, EMPTY)
  {
  }

  lemma ShorterDraft(d: Draft)
    ensures Utf8Length(Erased(d).line) <= Utf8Length(d.line)
  {
    hide EncodeUtf16, Utf8Length, Utf16;
    ErasedUnits(d);
  }

  lemma SubmittedDraft(d: Draft)
    ensures DecodeUtf16(Units(d)) == if d.pending.Some? then None else Some(d.line)
  {
    hide DecodeUtf16, EncodeUtf16;
    ErasedUnits(d);
    if d.pending.Some? { DanglingHigh(d.line, d.pending.value); } else { Utf16Decodes(d.line); }
  }

  // ---------- Both refine the scalar editor ----------

  function BytesOf(key: Key): seq<byte> {
    match key
    case Type(c) => Utf8(c)
    case Erase(delete) => [if delete then 127 else 8]
    case Enter(feed) => [if feed then 10 else 13]
    case Interrupt => [3]
    case Control(code) => var b: byte := code; [b]
  }

  function UnitsOf(key: Key): seq<unit> {
    match key
    case Type(c) => Utf16(c)
    case Erase(delete) => [if delete then 127 else 8]
    case Enter(_) => [13]
    case Interrupt => [3]
    case Control(code) => var u: unit := code; [u]
  }

  function KeyBytes(keys: seq<Key>): seq<byte> {
    if keys == [] then [] else KeyBytes(keys[..|keys| - 1]) + BytesOf(keys[|keys| - 1])
  }

  function KeyUnits(keys: seq<Key>): seq<unit> {
    if keys == [] then [] else KeyUnits(keys[..|keys| - 1]) + UnitsOf(keys[|keys| - 1])
  }

  function InBytes(e: Editor<seq<Scalar>>): Editor<seq<byte>> {
    match e
    case Editing(line) => Editing(EncodeUtf8(line))
    case Submitted(text) => Submitted(text)
    case Cancelled => Cancelled
    case TooLarge => TooLarge
    case Invalid => Invalid
  }

  function InUnits(e: Editor<seq<Scalar>>): Editor<Draft> {
    match e
    case Editing(line) => Editing(Draft(line, None))
    case Submitted(text) => Submitted(text)
    case Cancelled => Cancelled
    case TooLarge => TooLarge
    case Invalid => Invalid
  }

  lemma {:induction false} SessionFits(keys: seq<Key>, maxBytes: nat)
    ensures match Session(keys, maxBytes) case Editing(line) => Utf8Length(line) <= maxBytes case _ => true
  {
    if keys != [] {
      SessionFits(keys[..|keys| - 1], maxBytes);
      match Session(keys[..|keys| - 1], maxBytes)
      case Editing(line) =>
        if line != [] {
          assert line == line[..|line| - 1] + [line[|line| - 1]];
          Utf8Snoc(line[..|line| - 1], line[|line| - 1]);
        }
      case _ =>
    }
  }

  lemma {:induction false} ByteRunAppend(e: Editor<seq<byte>>, a: seq<byte>, b: seq<byte>, maxBytes: nat)
    ensures ByteRun(e, a + b, maxBytes) == ByteRun(ByteRun(e, a, maxBytes), b, maxBytes)
  {
    hide ByteKey;
    if b == [] {
      assert a + b == a;
    } else {
      ByteRunAppend(e, a, b[..|b| - 1], maxBytes);
      assert (a + b)[..|a + b| - 1] == a + b[..|b| - 1];
    }
  }

  lemma {:induction false} UnitRunAppend(e: Editor<Draft>, a: seq<unit>, b: seq<unit>, maxBytes: nat)
    ensures UnitRun(e, a + b, maxBytes) == UnitRun(UnitRun(e, a, maxBytes), b, maxBytes)
  {
    hide UnitKey;
    if b == [] {
      assert a + b == a;
    } else {
      UnitRunAppend(e, a, b[..|b| - 1], maxBytes);
      assert (a + b)[..|a + b| - 1] == a + b[..|b| - 1];
    }
  }

  lemma {:induction false} TypeBytes(bytes: seq<byte>, s: seq<byte>, maxBytes: nat)
    requires |bytes| <= maxBytes && forall k :: 0 <= k < |s| ==> s[k] >= 0x20 && s[k] != 127
    ensures ByteRun(Editing(bytes), s, maxBytes) == if |bytes| + |s| > maxBytes then TooLarge else Editing(bytes + s)
  {
    if s == [] {
      assert bytes + s == bytes;
    } else {
      TypeBytes(bytes, s[..|s| - 1], maxBytes);
      assert bytes + s == bytes + s[..|s| - 1] + [s[|s| - 1]];
    }
  }

  lemma GlyphBytes(c: Glyph)
    ensures forall k :: 0 <= k < |Utf8(c)| ==> Utf8(c)[k] >= 0x20 && Utf8(c)[k] != 127
  {
  }

  lemma StripScalar(front: seq<byte>, c: Scalar)
    ensures Strip(front + Utf8(c)) == front
  {
    var s := Utf8(c);
    var lead := front + [s[0]];
    if c < 0x80 {
      assert front + s == lead;
    } else if c < 0x800 {
      assert front + s == lead + [s[1]];
      StripTail(lead, s[1]);
    } else if c < 0x1_0000 {
      assert front + s == lead + [s[1]] + [s[2]];
      StripTail(lead, s[1]);
      StripTail(lead + [s[1]], s[2]);
    } else {
      assert front + s == lead + [s[1]] + [s[2]] + [s[3]];
      StripTail(lead, s[1]);
      StripTail(lead + [s[1]], s[2]);
      StripTail(lead + [s[1]] + [s[2]], s[3]);
    }
    StripTail(front, s[0]);
  }

  lemma StripTail(s: seq<byte>, b: byte)
    ensures (s + [b])[..|s|] == s
    ensures Tail(b) ==> Strip(s + [b]) == Strip(s)
    ensures !Tail(b) ==> Strip(s + [b]) == s
  {
  }

  /** One key press, as the bytes a terminal sends for it. */
  lemma KeyInBytes(line: seq<Scalar>, key: Key, maxBytes: nat)
    requires Utf8Length(line) <= maxBytes
    ensures ByteRun(Editing(EncodeUtf8(line)), BytesOf(key), maxBytes) == InBytes(Press(line, key, maxBytes))
  {
    hide Utf8, EncodeUtf8, Utf8Length, Strip, DecodeUtf8, Utf8Size;
    var bytes := EncodeUtf8(line);
    EncodedLength(line);
    match key
    case Type(c) =>
      Utf8Snoc(line, c);
      GlyphBytes(c);
      TypeBytes(bytes, Utf8(c), maxBytes);
    case Erase(_) =>
      OneByte(Editing(bytes), BytesOf(key)[0], maxBytes);
      if line != [] {
        var front, c := line[..|line| - 1], line[|line| - 1];
        assert line == front + [c];
        Utf8Snoc(front, c);
        StripScalar(EncodeUtf8(front), c);
      } else {
        NothingToStrip();
      }
    case Enter(_) =>
      OneByte(Editing(bytes), BytesOf(key)[0], maxBytes);
      Utf8Decodes(line);
    case _ =>
      OneByte(Editing(bytes), BytesOf(key)[0], maxBytes);
  }

  lemma OneByte(e: Editor<seq<byte>>, b: byte, maxBytes: nat)
    ensures ByteRun(e, [b], maxBytes) == match e case Editing(bytes) => ByteKey(bytes, b, maxBytes) case done => done
  {
    assert [b][..0] == [];
  }

  lemma NothingToStrip()
    ensures EncodeUtf8([]) == [] && Strip([]) == []
  {
  }

  lemma OneUnit(e: Editor<Draft>, u: unit, maxBytes: nat)
    ensures UnitRun(e, [u], maxBytes) == match e case Editing(d) => UnitKey(d, u, maxBytes) case done => done
  {
    assert [u][..0] == [];
  }

  /** One key press, as the units the console reports for it. */
  lemma KeyInUnits(line: seq<Scalar>, key: Key, maxBytes: nat)
    ensures UnitRun(Editing(Draft(line, None)), UnitsOf(key), maxBytes) == InUnits(Press(line, key, maxBytes))
  {
    hide Utf16, Utf8Length, Paired;
    var e: Editor<Draft> := Editing(Draft(line, None));
    match key
    case Type(c) =>
      LastUnits(c);
      if c < 0x1_0000 {
        OneUnit(e, Utf16(c)[0], maxBytes);
      } else {
        EncodesPaired(c);
        var h, l := Utf16(c)[0], Utf16(c)[1];
        assert Utf16(c) == [h] + [l];
        UnitRunAppend(e, [h], [l], maxBytes);
        OneUnit(e, h, maxBytes);
        OneUnit(Editing(Draft(line, Some(h as int))), l, maxBytes);
      }
    case _ =>
      OneUnit(e, UnitsOf(key)[0], maxBytes);
  }

  /** The byte editor shows a person exactly the scalar editor, on every key sequence. */
  lemma {:induction false} BytesRefine(keys: seq<Key>, maxBytes: nat)
    ensures ByteRun(Editing([]), KeyBytes(keys), maxBytes) == InBytes(Session(keys, maxBytes))
  {
    hide ByteKey, Press, BytesOf;
    if keys == [] {
      NothingToStrip();
    } else {
      var front, key := keys[..|keys| - 1], keys[|keys| - 1];
      BytesRefine(front, maxBytes);
      SessionFits(front, maxBytes);
      ByteRunAppend(Editing([]), KeyBytes(front), BytesOf(key), maxBytes);
      match Session(front, maxBytes)
      case Editing(line) => KeyInBytes(line, key, maxBytes);
      case _ => DoneBytes(InBytes(Session(front, maxBytes)), BytesOf(key), maxBytes);
    }
  }

  lemma {:induction false} DoneBytes(e: Editor<seq<byte>>, input: seq<byte>, maxBytes: nat)
    requires !e.Editing?
    ensures ByteRun(e, input, maxBytes) == e
  {
    if input != [] { DoneBytes(e, input[..|input| - 1], maxBytes); }
  }

  lemma {:induction false} DoneUnits(e: Editor<Draft>, input: seq<unit>, maxBytes: nat)
    requires !e.Editing?
    ensures UnitRun(e, input, maxBytes) == e
  {
    if input != [] { DoneUnits(e, input[..|input| - 1], maxBytes); }
  }

  /** So does the UTF-16 editor. */
  lemma {:induction false} UnitsRefine(keys: seq<Key>, maxBytes: nat)
    ensures UnitRun(Editing(EMPTY), KeyUnits(keys), maxBytes) == InUnits(Session(keys, maxBytes))
  {
    hide UnitKey, Press, UnitsOf;
    if keys != [] {
      var front, key := keys[..|keys| - 1], keys[|keys| - 1];
      UnitsRefine(front, maxBytes);
      UnitRunAppend(Editing(EMPTY), KeyUnits(front), UnitsOf(key), maxBytes);
      match Session(front, maxBytes)
      case Editing(line) => KeyInUnits(line, key, maxBytes);
      case _ => DoneUnits(InUnits(Session(front, maxBytes)), UnitsOf(key), maxBytes);
    }
  }

  /** A session is refused as too large by the very key that makes its text longer
      than the limit, and by no earlier one. */
  lemma {:induction false} RefusedExactlyWhenFull(keys: seq<Key>, maxBytes: nat)
    ensures Session(keys, maxBytes) == TooLarge <==>
            exists k :: 0 <= k < |keys| && Overflows(keys, k, maxBytes)
  {
    hide Press;
    if keys != [] {
      var front, key := keys[..|keys| - 1], keys[|keys| - 1];
      RefusedExactlyWhenFull(front, maxBytes);
      if Session(front, maxBytes) == TooLarge {
        var k :| 0 <= k < |front| && Overflows(front, k, maxBytes);
        assert keys[..k] == front[..k];
        assert Overflows(keys, k, maxBytes);
      } else if Overflows(keys, |front|, maxBytes) {
        PressOverflow(Session(front, maxBytes).line, key, maxBytes);
      } else {
        forall k | 0 <= k < |front| ensures !Overflows(keys, k, maxBytes) {
          assert keys[..k] == front[..k];
          assert Overflows(keys, k, maxBytes) == Overflows(front, k, maxBytes);
        }
        match Session(front, maxBytes)
        case Editing(line) => PressOverflow(line, key, maxBytes);
        case _ =>
      }
    }
  }

  lemma PressOverflow(line: seq<Scalar>, key: Key, maxBytes: nat)
    ensures Press(line, key, maxBytes) == TooLarge <==> key.Type? && Utf8Length(line + [key.c]) > maxBytes
  {
  }

  ghost predicate Overflows(keys: seq<Key>, k: nat, maxBytes: nat)
    requires k < |keys|
  {
    && Session(keys[..k], maxBytes).Editing? && keys[k].Type?
    && Utf8Length(Session(keys[..k], maxBytes).line + [keys[k].c]) > maxBytes
  }
}
