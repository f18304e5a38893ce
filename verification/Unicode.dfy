/** UTF-8 (section 3 of RFC 3629) and UTF-16 (section 2 of RFC 2781), as
    `String::from_utf8` and `String::from_utf16` decode them. */
module Unicode {
  import opened Outcomes
  import opened Bytes

  predicate IsScalar(c: int) { 0 <= c < 0xD800 || 0xE000 <= c < 0x11_0000 }

  type Scalar = c: int | 0 <= c < 0xD800 || 0xE000 <= c < 0x11_0000

  type unit = u: int | 0 <= u < 0x1_0000

  // ---------- UTF-8 ----------

  /** `char::len_utf8`. */
  function Utf8Size(c: Scalar): nat { if c < 0x80 then 1 else if c < 0x800 then 2 else if c < 0x1_0000 then 3 else 4 }

  function Utf8(c: Scalar): (s: seq<byte>)
    ensures |s| == Utf8Size(c)
  {
    if c < 0x80 then
      var only: byte := c;
      [only]
    else if c < 0x800 then
      var lead: byte := 0xC0 + c / 64;
      [lead, TailOf(c)]
    else if c < 0x1_0000 then
      var lead: byte := 0xE0 + c / 4096;
      [lead, TailOf(c / 64), TailOf(c)]
    else
      var lead: byte := 0xF0 + c / 262144;
      [lead, TailOf(c / 4096), TailOf(c / 64), TailOf(c)]
  }

  /** A continuation byte carries six bits. */
  function TailOf(n: nat): byte { 0x80 + n % 64 }

  predicate Tail(b: byte) { 0x80 <= b < 0xC0 }

  /** The editor tests the two top bits. */
  predicate HasTailBits(b: byte): (r: bool)
    ensures r <==> Tail(b)
  {
    TailBits(b as bv8);
    assert (b as bv8) as int == b;
    (b as bv8) & 0xC0 == 0x80
  }

  lemma TailBits(v: bv8)
    ensures v & 0xC0 == 0x80 <==> 0x80 <= v as int < 0xC0
  {
    assert v & 0xC0 == 0x80 <==> 0x80 <= v < 0xC0;
  }

  predicate Utf8Two(s: seq<byte>) { |s| >= 2 && 0xC2 <= s[0] <= 0xDF && Tail(s[1]) }

  predicate Utf8Three(s: seq<byte>) {
    && |s| >= 3 && Tail(s[2])
    && (|| (s[0] == 0xE0 && 0xA0 <= s[1] <= 0xBF)
        || (0xE1 <= s[0] <= 0xEC && Tail(s[1]))
        || (s[0] == 0xED && 0x80 <= s[1] <= 0x9F)
        || (0xEE <= s[0] <= 0xEF && Tail(s[1])))
  }

  predicate Utf8Four(s: seq<byte>) {
    && |s| >= 4 && Tail(s[2]) && Tail(s[3])
    && (|| (s[0] == 0xF0 && 0x90 <= s[1] <= 0xBF)
        || (0xF1 <= s[0] <= 0xF3 && Tail(s[1]))
        || (s[0] == 0xF4 && 0x80 <= s[1] <= 0x8F))
  }

  /** The scalar at the front, by the byte ranges of the grammar in section 4 of RFC 3629. */
  function FirstUtf8(s: seq<byte>): Option<Scalar> {
    if s == [] then None
    else if s[0] < 0x80 then Some(s[0] as int)
    else if Utf8Two(s) then Some(Bits(s[0] - 0xC0, s[1]))
    else if Utf8Three(s) then Some(Bits(Bits(s[0] - 0xE0, s[1]), s[2]))
    else if Utf8Four(s) then Some(Bits(Bits(Bits(s[0] - 0xF0, s[1]), s[2]), s[3]))
    else None
  }

  function Bits(n: int, tail: byte): int { n * 64 + (tail - 0x80) }

  lemma BitsTail(n: nat, tail: byte)
    requires Tail(tail)
    ensures Bits(n, tail) / 64 == n && TailOf(Bits(n, tail)) == tail
  {
  }

  lemma TailBack(n: nat)
    ensures Tail(TailOf(n)) && Bits(n / 64, TailOf(n)) == n
  {
  }

  lemma FirstOfTwo(c: Scalar, rest: seq<byte>)
    requires 0x80 <= c < 0x800
    ensures FirstUtf8(Utf8(c) + rest) == Some(c)
  {
    TailBack(c);
    hide TailOf, Bits;
  }

  lemma FirstOfThree(c: Scalar, rest: seq<byte>)
    requires 0x800 <= c < 0x1_0000
    ensures FirstUtf8(Utf8(c) + rest) == Some(c)
  {
    TailBack(c);
    TailBack(c / 64);
    DivChain(c);
    hide Bits;
  }

  lemma FirstOfFour(c: Scalar, rest: seq<byte>)
    requires 0x1_0000 <= c
    ensures FirstUtf8(Utf8(c) + rest) == Some(c)
  {
    TailBack(c);
    TailBack(c / 64);
    TailBack(c / 64 / 64);
    DivChain(c);
    hide Bits;
  }

  lemma FirstOfUtf8(c: Scalar, rest: seq<byte>)
    ensures FirstUtf8(Utf8(c) + rest) == Some(c)
  {
    if 0x80 <= c {
      hide FirstUtf8, Utf8;
      if c < 0x800 { FirstOfTwo(c, rest); }
      else if c < 0x1_0000 { FirstOfThree(c, rest); }
      else { FirstOfFour(c, rest); }
    }
  }

  lemma DivChain(c: nat)
    ensures c / 64 / 64 == c / 4096 && c / 64 / 64 / 64 == c / 262144
  {
  }

  lemma Utf8OfTwo(s: seq<byte>)
    requires |s| > 0 && Utf8Two(s)
    ensures var c := Bits(s[0] - 0xC0, s[1]); IsScalar(c) && Utf8(c) == s[..2]
  {
    BitsTail(s[0] - 0xC0, s[1]);
    hide TailOf;
  }

  lemma Utf8OfThree(s: seq<byte>)
    requires |s| > 0 && Utf8Three(s)
    ensures var c := Bits(Bits(s[0] - 0xE0, s[1]), s[2]); IsScalar(c) && Utf8(c) == s[..3]
  {
    BitsTail(s[0] - 0xE0, s[1]);
    BitsTail(Bits(s[0] - 0xE0, s[1]), s[2]);
    DivChain(Bits(Bits(s[0] - 0xE0, s[1]), s[2]));
    hide TailOf;
  }

  lemma Utf8OfFour(s: seq<byte>)
    requires |s| > 0 && Utf8Four(s)
    ensures var c := Bits(Bits(Bits(s[0] - 0xF0, s[1]), s[2]), s[3]); IsScalar(c) && Utf8(c) == s[..4]
  {
    BitsTail(s[0] - 0xF0, s[1]);
    BitsTail(Bits(s[0] - 0xF0, s[1]), s[2]);
    BitsTail(Bits(Bits(s[0] - 0xF0, s[1]), s[2]), s[3]);
    DivChain(Bits(Bits(Bits(s[0] - 0xF0, s[1]), s[2]), s[3]));
    hide TailOf;
  }

  lemma Utf8OfFirst(s: seq<byte>)
    requires FirstUtf8(s).Some?
    ensures Utf8(FirstUtf8(s).value) <= s
  {
    if s[0] >= 0x80 {
      hide Bits, TailOf, Utf8;
      if Utf8Two(s) { Utf8OfTwo(s); }
      else if Utf8Three(s) { Utf8OfThree(s); }
      else { Utf8OfFour(s); }
    }
  }

  function EncodeUtf8(line: seq<Scalar>): seq<byte> { if line == [] then [] else Utf8(line[0]) + EncodeUtf8(line[1..]) }

  function DecodeUtf8(s: seq<byte>): Option<seq<Scalar>>
    decreases |s|
  {
    if s == [] then Some([])
    else match FirstUtf8(s)
      case None => None
      case Some(c) =>
        if |s| < Utf8Size(c) then None
        else match DecodeUtf8(s[Utf8Size(c)..])
          case None => None
          case Some(line) => Some([c] + line)
  }

  lemma {:induction false} Utf8Decodes(line: seq<Scalar>)
    ensures DecodeUtf8(EncodeUtf8(line)) == Some(line)
  {
    hide Utf8, FirstUtf8;
    if line != [] {
      FirstOfUtf8(line[0], EncodeUtf8(line[1..]));
      assert EncodeUtf8(line)[Utf8Size(line[0])..] == EncodeUtf8(line[1..]);
      Utf8Decodes(line[1..]);
      assert line == [line[0]] + line[1..];
    }
  }

  lemma {:induction false} Utf8Encodes(s: seq<byte>)
    requires DecodeUtf8(s).Some?
    ensures EncodeUtf8(DecodeUtf8(s).value) == s
    decreases |s|
  {
    hide Utf8, FirstUtf8;
    if s != [] {
      var c := FirstUtf8(s).value;
      Utf8OfFirst(s);
      var rest := DecodeUtf8(s[Utf8Size(c)..]).value;
      Utf8Encodes(s[Utf8Size(c)..]);
      assert ([c] + rest)[1..] == rest;
      assert s == Utf8(c) + s[Utf8Size(c)..];
    }
  }

  /** Decoding accepts exactly the encodings, one for each text. */
  lemma Utf8Exact(s: seq<byte>, line: seq<Scalar>)
    ensures DecodeUtf8(s) == Some(line) <==> EncodeUtf8(line) == s
  {
    Utf8Decodes(line);
    if DecodeUtf8(s).Some? { Utf8Encodes(s); }
  }

  function Utf8Length(line: seq<Scalar>): nat { if line == [] then 0 else Utf8Size(line[0]) + Utf8Length(line[1..]) }

  lemma {:induction false} EncodedLength(line: seq<Scalar>)
    ensures |EncodeUtf8(line)| == Utf8Length(line)
  {
    hide Utf8;
    if line != [] { EncodedLength(line[1..]); }
  }

  lemma {:induction false} Utf8Snoc(line: seq<Scalar>, c: Scalar)
    ensures EncodeUtf8(line + [c]) == EncodeUtf8(line) + Utf8(c)
    ensures Utf8Length(line + [c]) == Utf8Length(line) + Utf8Size(c)
  {
    hide Utf8, Utf8Size;
    if line == [] {
      assert EncodeUtf8([c]) == Utf8(c) + EncodeUtf8([]);
    } else {
      Utf8Snoc(line[1..], c);
      assert (line + [c])[1..] == line[1..] + [c];
      assert EncodeUtf8(line) + Utf8(c) == Utf8(line[0]) + (EncodeUtf8(line[1..]) + Utf8(c));
    }
  }

  // ---------- UTF-16 ----------

  predicate HighSurrogate(u: unit) { 0xD800 <= u <= 0xDBFF }
  predicate LowSurrogate(u: unit) { 0xDC00 <= u <= 0xDFFF }

  function Utf16(c: Scalar): (s: seq<unit>)
    ensures 1 <= |s| <= 2
  {
    if c < 0x1_0000 then
      var only: unit := c;
      [only]
    else
      var high: unit, low: unit := 0xD800 + (c - 0x1_0000) / 1024, 0xDC00 + (c - 0x1_0000) % 1024;
      [high, low]
  }

  function Paired(high: unit, low: unit): Scalar
    requires HighSurrogate(high) && LowSurrogate(low)
  {
    0x1_0000 + (high - 0xD800) * 1024 + (low - 0xDC00)
  }

  lemma PairedEncodes(high: unit, low: unit)
    requires HighSurrogate(high) && LowSurrogate(low)
    ensures Utf16(Paired(high, low)) == [high, low] && Utf8Size(Paired(high, low)) == 4
  {
  }

  lemma EncodesPaired(c: Scalar)
    requires c >= 0x1_0000
    ensures HighSurrogate(Utf16(c)[0]) && LowSurrogate(Utf16(c)[1]) && Paired(Utf16(c)[0], Utf16(c)[1]) == c
  {
  }

  function EncodeUtf16(line: seq<Scalar>): seq<unit> {
    if line == [] then [] else Utf16(line[0]) + EncodeUtf16(line[1..])
  }

  function DecodeUtf16(s: seq<unit>): Option<seq<Scalar>> {
    if s == [] then Some([])
    else if !HighSurrogate(s[0]) && !LowSurrogate(s[0]) then
      match DecodeUtf16(s[1..]) case None => None case Some(line) => Some([s[0] as int] + line)
    else if HighSurrogate(s[0]) && |s| >= 2 && LowSurrogate(s[1]) then
      match DecodeUtf16(s[2..]) case None => None case Some(line) => Some([Paired(s[0], s[1])] + line)
    else None
  }

  lemma {:induction false} Utf16Decodes(line: seq<Scalar>)
    ensures DecodeUtf16(EncodeUtf16(line)) == Some(line)
  {
    if line != [] {
      var rest := EncodeUtf16(line[1..]);
      Utf16Decodes(line[1..]);
      assert line == [line[0]] + line[1..];
      if line[0] < 0x1_0000 {
        assert ([line[0]] + rest)[1..] == rest;
      } else {
        hide Utf16, Paired;
        EncodesPaired(line[0]);
        assert (Utf16(line[0]) + rest)[2..] == rest by { TwoUnits(line[0]); }
      }
    }
  }

  lemma TwoUnits(c: Scalar)
    requires c >= 0x1_0000
    ensures |Utf16(c)| == 2
  {
  }

  lemma {:induction false} Utf16Encodes(s: seq<unit>)
    requires DecodeUtf16(s).Some?
    ensures EncodeUtf16(DecodeUtf16(s).value) == s
  {
    if s == [] {
    } else if !HighSurrogate(s[0]) && !LowSurrogate(s[0]) {
      Utf16Encodes(s[1..]);
      var rest := DecodeUtf16(s[1..]).value;
      assert ([s[0] as int] + rest)[1..] == rest;
      assert s == Utf16(s[0]) + s[1..];
    } else {
      Utf16Encodes(s[2..]);
      var rest := DecodeUtf16(s[2..]).value;
      assert ([Paired(s[0], s[1])] + rest)[1..] == rest;
      PairedEncodes(s[0], s[1]);
      assert s == Utf16(Paired(s[0], s[1])) + s[2..];
    }
  }

  lemma Utf16Exact(s: seq<unit>, line: seq<Scalar>)
    ensures DecodeUtf16(s) == Some(line) <==> EncodeUtf16(line) == s
  {
    Utf16Decodes(line);
    if DecodeUtf16(s).Some? { Utf16Encodes(s); }
  }

  lemma {:induction false} Utf16Snoc(line: seq<Scalar>, c: Scalar)
    ensures EncodeUtf16(line + [c]) == EncodeUtf16(line) + Utf16(c)
  {
    hide Utf16;
    if line == [] {
      assert EncodeUtf16([c]) == Utf16(c) + EncodeUtf16([]);
    } else {
      Utf16Snoc(line[1..], c);
      assert (line + [c])[1..] == line[1..] + [c];
      assert EncodeUtf16(line) + Utf16(c) == Utf16(line[0]) + (EncodeUtf16(line[1..]) + Utf16(c));
    }
  }

  /** A text with a lone high surrogate behind it is no UTF-16. */
  lemma {:induction false} DanglingHigh(line: seq<Scalar>, high: unit)
    requires HighSurrogate(high)
    ensures DecodeUtf16(EncodeUtf16(line) + [high]).None?
  {
    if DecodeUtf16(EncodeUtf16(line) + [high]).Some? {
      var other := DecodeUtf16(EncodeUtf16(line) + [high]).value;
      Utf16Encodes(EncodeUtf16(line) + [high]);
      LastUnit(other);
    }
  }

  lemma {:induction false} LastUnit(line: seq<Scalar>)
    ensures EncodeUtf16(line) == [] || !HighSurrogate(EncodeUtf16(line)[|EncodeUtf16(line)| - 1])
  {
    if line != [] { LastUnit(line[1..]); }
  }

  /** Behind an encoded text, decoding goes on with what follows. */
  lemma {:induction false} DecodesOn(line: seq<Scalar>, rest: seq<unit>)
    ensures DecodeUtf16(rest).None? ==> DecodeUtf16(EncodeUtf16(line) + rest).None?
    ensures DecodeUtf16(rest).Some? ==>
              DecodeUtf16(EncodeUtf16(line) + rest) == Some(line + DecodeUtf16(rest).value)
  {
    hide DecodeUtf16;
    if line == [] {
      assert EncodeUtf16(line) + rest == rest;
      assert DecodeUtf16(rest).Some? ==> line + DecodeUtf16(rest).value == DecodeUtf16(rest).value;
    } else {
      hide Utf16;
      var first, behind := Utf16(line[0]), EncodeUtf16(line[1..]);
      assert EncodeUtf16(line) == first + behind;
      hide EncodeUtf16;
      DecodesOn(line[1..], rest);
      assert first + behind + rest == first + (behind + rest);
      DecodesFirst(line[0], behind + rest);
      assert DecodeUtf16(rest).Some? ==>
               [line[0]] + (line[1..] + DecodeUtf16(rest).value) == line + DecodeUtf16(rest).value;
    }
  }

  lemma DecodesFirst(c: Scalar, tail: seq<unit>)
    ensures DecodeUtf16(tail).None? ==> DecodeUtf16(Utf16(c) + tail).None?
    ensures DecodeUtf16(tail).Some? ==> DecodeUtf16(Utf16(c) + tail) == Some([c] + DecodeUtf16(tail).value)
  {
    var s := Utf16(c) + tail;
    if c < 0x1_0000 {
      assert s[1..] == tail;
    } else {
      EncodesPaired(c);
      assert s[2..] == tail;
    }
  }

  // ---------- The encodings of the standards ----------

  /** The number a form carries in section 3 of RFC 3629: the payload of its first
      octet, and six bits from each one behind it. */
  function Carried(first: int, rest: seq<byte>): int {
    if rest == [] then first else Carried(first, rest[..|rest| - 1]) * 0x40 + (rest[|rest| - 1] as int - 0x80)
  }

  predicate Carries(s: seq<byte>, mark: int, size: nat, c: Scalar) {
    && |s| == size > 0 && 0 <= s[0] as int - mark && Carried(s[0] as int - mark, s[1..]) == c
    && forall i :: 1 <= i < |s| ==> 0x80 <= s[i] < 0xC0
  }

  /** The size of a form tells its range, its first octet the size. */
  lemma Utf8Carries(c: Scalar)
    ensures if c < 0x80 then Carries(Utf8(c), 0, 1, c)
            else if c < 0x800 then Carries(Utf8(c), 0xC0, 2, c)
            else if c < 0x1_0000 then Carries(Utf8(c), 0xE0, 3, c)
            else Carries(Utf8(c), 0xF0, 4, c)
  {
    DivChain(c);
    var s := Utf8(c);
    if 0x80 <= c {
      var payload := s[0] as int - (if c < 0x800 then 0xC0 else if c < 0x1_0000 then 0xE0 else 0xF0);
      CarriedOne(payload, s[1]);
      assert s[1..][..1] == [s[1]];
      if 0x800 <= c {
        assert s[1..][..2] == [s[1], s[2]] && [s[1], s[2]][..1] == [s[1]];
        if 0x1_0000 <= c { assert s[1..] == [s[1], s[2], s[3]] && [s[1], s[2], s[3]][..2] == [s[1], s[2]]; }
      }
    }
  }

  lemma CarriedOne(first: int, b: byte)
    ensures Carried(first, [b]) == first * 0x40 + (b as int - 0x80)
  {
    assert [b][..0] == [];
  }

  /** The examples in section 7 of RFC 3629 and section 5 of RFC 2781. */
  lemma StandardExamples()
    ensures Utf8(0x41) == [0x41] && Utf8(0x2262) == [0xE2, 0x89, 0xA2] && Utf8(0x391) == [0xCE, 0x91]
    ensures Utf8(0x233B4) == [0xF0, 0xA3, 0x8E, 0xB4]
    ensures Utf16(0x12345) == [0xD808, 0xDF45]
  {
  }
}
