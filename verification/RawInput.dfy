/** The line editors on raw streams, malformed ones included: what is submitted, what
    is refused, and what is ignored. */
module RawInput {
  import opened Outcomes
  import opened Bytes
  import opened Unicode
  import opened LineEditors

  // ---------- Bytes ----------

  predicate PlainByte(b: byte) { b >= 0x20 && b != 127 }

  /** Plain bytes and Enter: the text they encode is submitted, bytes that encode no
      text are invalid, and bytes beyond the limit are too large. */
  lemma PlainBytes(input: seq<byte>, enter: byte, maxBytes: nat)
    requires (forall k :: 0 <= k < |input| ==> PlainByte(input[k])) && (enter == 10 || enter == 13)
    ensures var r := ByteRun(Editing([]), input + [enter], maxBytes);
            && (|input| > maxBytes ==> r == TooLarge)
            && (|input| <= maxBytes ==> r == Invalid || r.Submitted?)
            && (|input| <= maxBytes ==> forall line :: r == Submitted(line) <==> EncodeUtf8(line) == input)
  {
    hide DecodeUtf8, EncodeUtf8;
    TypeBytes([], input, maxBytes);
    assert [] + input == input;
    assert (input + [enter])[..|input|] == input;
    forall line ensures DecodeUtf8(input) == Some(line) <==> EncodeUtf8(line) == input { Utf8Exact(input, line); }
  }

  /** Control bytes without a meaning change nothing, in any buffer. */
  lemma {:induction false} IgnoredBytes(bytes: seq<byte>, input: seq<byte>, maxBytes: nat)
    requires forall k :: 0 <= k < |input| ==> input[k] < 0x20 && input[k] !in {3, 8, 10, 13}
    ensures ByteRun(Editing(bytes), input, maxBytes) == Editing(bytes)
  {
    if input != [] { IgnoredBytes(bytes, input[..|input| - 1], maxBytes); }
  }

  /** Erasing takes the continuation bytes at the end of any buffer and the one byte
      in front of them. */
  lemma {:induction false} StripShape(bytes: seq<byte>)
    ensures Strip(bytes) <= bytes && (bytes != [] ==> |Strip(bytes)| < |bytes|)
    ensures forall k :: |Strip(bytes)| < k < |bytes| ==> 0x80 <= bytes[k] < 0xC0
    ensures Strip(bytes) != [] || (bytes != [] && !(0x80 <= bytes[0] < 0xC0)) ==>
              |Strip(bytes)| < |bytes| && !(0x80 <= bytes[|Strip(bytes)|] < 0xC0)
  {
    if bytes != [] && Tail(bytes[|bytes| - 1]) { StripShape(bytes[..|bytes| - 1]); }
  }

  lemma ErasedBytes(bytes: seq<byte>, erase: byte, maxBytes: nat)
    requires erase == 8 || erase == 127
    ensures ByteRun(Editing(bytes), [erase], maxBytes) == Editing(Strip(bytes))
  {
    hide DecodeUtf8, Strip;
    OneByte(Editing(bytes), erase, maxBytes);
  }

  // ---------- UTF-16 units ----------

  predicate PlainUnit(u: unit) { u >= 0x20 && u != 127 }

  predicate IgnoredUnit(u: unit) { u < 0x20 && u !in {3, 8, 13} }

  /** What the editor has made of a stream of plain units so far. */
  ghost predicate Understood(e: Editor<Draft>, input: seq<unit>, maxBytes: nat) {
    match e
    case Editing(d) => Units(d) == input && Utf8Length(d.line) <= maxBytes
    case TooLarge => exists j, line :: 0 <= j <= |input| && TooLong(line, input[..j], maxBytes)
    case Invalid => forall rest :: DecodeUtf16(input + rest).None?
    case _ => false
  }

  ghost predicate TooLong(line: seq<Scalar>, units: seq<unit>, maxBytes: nat) {
    EncodeUtf16(line) == units && Utf8Length(line) > maxBytes
  }

  lemma UnderstoodKey(d: Draft, u: unit, maxBytes: nat)
    requires PlainUnit(u) && Utf8Length(d.line) <= maxBytes
    ensures Understood(UnitKey(d, u, maxBytes), Units(d) + [u], maxBytes)
  {
    hide EncodeUtf16, DecodeUtf16, Utf8Length, Paired, Utf16;
    var units := Units(d) + [u];
    TypedUnits(d, u, maxBytes);
    EmptyPending(d.line);
    match UnitKey(d, u, maxBytes)
    case Editing(after) =>
      assert Units(after) == units;
    case TooLarge =>
      var line := d.line + [if d.pending.Some? then Paired(d.pending.value, u) else u];
      EmptyPending(line);
      assert units[..|units|] == units && TooLong(line, units, maxBytes);
    case Invalid =>
      forall rest ensures DecodeUtf16(units + rest).None? {
        var lone := PendingUnits(d.pending) + [u] + rest;
        LoneSurrogate(d.pending, u, rest);
        DecodesOn(d.line, lone);
        assert units + rest == EncodeUtf16(d.line) + lone;
      }
    case _ =>
  }

  lemma EmptyPending(line: seq<Scalar>)
    ensures Units(Draft(line, None)) == EncodeUtf16(line)
  {
  }

  /** A high surrogate without its low one, and a low one on its own, decode to nothing. */
  lemma LoneSurrogate(pending: Option<high>, u: unit, rest: seq<unit>)
    requires if pending.Some? then !LowSurrogate(u) else LowSurrogate(u)
    ensures DecodeUtf16(PendingUnits(pending) + [u] + rest).None?
  {
    var s := PendingUnits(pending) + [u] + rest;
    assert pending.Some? ==> s[0] == pending.value && s[1] == u;
    assert pending.None? ==> s[0] == u;
  }

  lemma {:induction false} UnderstoodRun(input: seq<unit>, maxBytes: nat)
    requires forall k :: 0 <= k < |input| ==> PlainUnit(input[k])
    ensures Understood(UnitRun(Editing(EMPTY), input, maxBytes), input, maxBytes)
  {
    hide UnitKey, EncodeUtf16, DecodeUtf16, Utf8Length, PlainUnit, Units;
    if input == [] {
      EmptyDraft();
    } else {
      var front, u := input[..|input| - 1], input[|input| - 1];
      UnderstoodRun(front, maxBytes);
      assert input == front + [u];
      match UnitRun(Editing(EMPTY), front, maxBytes)
      case Editing(d) =>
        UnderstoodKey(d, u, maxBytes);
      case TooLarge =>
        var j, line :| 0 <= j <= |front| && TooLong(line, front[..j], maxBytes);
        assert input[..j] == front[..j];
      case Invalid =>
        forall rest ensures DecodeUtf16(input + rest).None? { assert input + rest == front + ([u] + rest); }
      case _ =>
    }
  }

  /** Plain units and Enter: a text is submitted exactly when the units encode it and
      it fits. Otherwise they are invalid, and then encode no text, or too large, and
      then some front of them encodes a text that does not fit. */
  lemma PlainUnits(input: seq<unit>, maxBytes: nat)
    requires forall k :: 0 <= k < |input| ==> PlainUnit(input[k])
    ensures var r := UnitRun(Editing(EMPTY), input + [13], maxBytes);
            && (r.Submitted? || r == Invalid || r == TooLarge)
            && (forall line :: r == Submitted(line) <==> EncodeUtf16(line) == input && Utf8Length(line) <= maxBytes)
            && (r == Invalid ==> forall line :: EncodeUtf16(line) != input)
            && (r == TooLarge ==> exists j, line :: 0 <= j <= |input| && TooLong(line, input[..j], maxBytes))
  {
    hide EncodeUtf16, DecodeUtf16, Utf8Length, PlainUnit, TooLong, Units;
    UnderstoodRun(input, maxBytes);
    assert (input + [13])[..|input|] == input && input + [] == input;
    forall line ensures DecodeUtf16(input) == Some(line) <==> EncodeUtf16(line) == input { Utf16Exact(input, line); }
    match UnitRun(Editing(EMPTY), input, maxBytes)
    case Editing(d) =>
      SubmittedDraft(d);
    case TooLarge =>
      var j, line :| 0 <= j <= |input| && TooLong(line, input[..j], maxBytes);
      forall text | EncodeUtf16(text) == input ensures Utf8Length(text) > maxBytes {
        LongFront(line, input, j, text, maxBytes);
      }
    case _ =>
  }

  lemma LongFront(line: seq<Scalar>, input: seq<unit>, j: nat, text: seq<Scalar>, maxBytes: nat)
    requires j <= |input| && TooLong(line, input[..j], maxBytes) && EncodeUtf16(text) == input
    ensures Utf8Length(text) > maxBytes
  {
    hide EncodeUtf16, DecodeUtf16, Utf8Length;
    DecodesOn(line, input[j..]);
    assert input[..j] + input[j..] == input;
    Utf16Decodes(text);
    var more := DecodeUtf16(input[j..]).value;
    LengthOfFront(line, more);
  }

  lemma {:induction false} LengthOfFront(line: seq<Scalar>, more: seq<Scalar>)
    ensures Utf8Length(line + more) >= Utf8Length(line)
  {
    if line != [] {
      LengthOfFront(line[1..], more);
      assert (line + more)[1..] == line[1..] + more;
    }
  }

  /** Unit 0, a line feed and the control codes without a meaning change nothing, not
      even between the halves of a pair. */
  lemma {:induction false} IgnoredUnits(d: Draft, input: seq<unit>, maxBytes: nat)
    requires forall k :: 0 <= k < |input| ==> IgnoredUnit(input[k])
    ensures UnitRun(Editing(d), input, maxBytes) == Editing(d)
  {
    if input != [] { IgnoredUnits(d, input[..|input| - 1], maxBytes); }
  }

  /** A high surrogate waits through ignored units. Erasing it restores the line as it
      was, and Enter behind it is invalid. */
  lemma WaitingSurrogate(line: seq<Scalar>, h: unit, ignored: seq<unit>, last: unit, maxBytes: nat)
    requires HighSurrogate(h) && forall k :: 0 <= k < |ignored| ==> IgnoredUnit(ignored[k])
    ensures var r := UnitRun(Editing(Draft(line, None)), [h] + ignored + [last], maxBytes);
            && (last in {8, 127} ==> r == Editing(Draft(line, None)))
            && (last == 13 ==> r == Invalid)
            && (last == 3 ==> r == Cancelled)
  {
    var start: Editor<Draft> := Editing(Draft(line, None));
    var waiting := Draft(line, Some(h as int));
    OneUnit(start, h, maxBytes);
    IgnoredUnits(waiting, ignored, maxBytes);
    UnitRunAppend(start, [h], ignored, maxBytes);
    UnitRunAppend(start, [h] + ignored, [last], maxBytes);
    OneUnit(Editing(waiting), last, maxBytes);
  }
}
