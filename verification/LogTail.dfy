/** The bounded suffix reader (src/cli/tail.rs:46-93) on an unchanged source. */
module LogTail {
  import opened Outcomes
  import opened Bytes

  const MAX_TAIL_BYTES := 64 * 1024 * 1024
  const NEWLINE: byte := 10

  datatype TailReadError = InvalidLimits | LineTooLarge | TruncatedLine

  // ---------- Lines ----------

  /** The position of the first newline, or the length when there is none. */
  function LineEnd(s: seq<byte>): (n: nat)
    ensures n <= |s| && NEWLINE !in s[..n]
    ensures n < |s| ==> s[n] == NEWLINE
  {
    if s == [] || s[0] == NEWLINE then 0 else 1 + LineEnd(s[1..])
  }

  /** `split_inclusive` on newlines. */
  function Lines(s: seq<byte>): seq<seq<byte>>
    decreases |s|
  {
    if s == [] then []
    else if LineEnd(s) < |s| then [s[..LineEnd(s) + 1]] + Lines(s[LineEnd(s) + 1..])
    else [s]
  }

  function Concat(lines: seq<seq<byte>>): seq<byte> { if lines == [] then [] else lines[0] + Concat(lines[1..]) }

  predicate IsLine(line: seq<byte>) { line != [] && NEWLINE !in line[..|line| - 1] }

  predicate EndsLine(line: seq<byte>) { line != [] && line[|line| - 1] == NEWLINE }

  ghost predicate Split(lines: seq<seq<byte>>, s: seq<byte>) {
    && Concat(lines) == s
    && (forall i :: 0 <= i < |lines| ==> IsLine(lines[i]))
    && (forall i :: 0 <= i < |lines| - 1 ==> EndsLine(lines[i]))
  }

  lemma SplitCons(first: seq<byte>, lines: seq<seq<byte>>, s: seq<byte>)
    requires Split(lines, s) && IsLine(first) && EndsLine(first)
    ensures Split([first] + lines, first + s)
  {
    hide IsLine, EndsLine;
    assert ([first] + lines)[1..] == lines;
  }

  /** Splitting loses nothing, and every line but the last ends in its only newline. */
  lemma {:induction false} LinesSplit(s: seq<byte>)
    ensures Split(Lines(s), s)
    decreases |s|
  {
    if s == [] {
    } else if LineEnd(s) < |s| {
      var first, rest := s[..LineEnd(s) + 1], s[LineEnd(s) + 1..];
      hide Split, Lines, LineEnd, IsLine, EndsLine;
      LinesStep(s);
      LinesSplit(rest);
      SplitCons(first, Lines(rest), rest);
    } else {
      hide Split;
      LastLine(s);
    }
  }

  lemma LinesStep(s: seq<byte>)
    requires LineEnd(s) < |s|
    ensures var first, rest := s[..LineEnd(s) + 1], s[LineEnd(s) + 1..];
            Lines(s) == [first] + Lines(rest) && s == first + rest && IsLine(first) && EndsLine(first)
  {
    var first := s[..LineEnd(s) + 1];
    assert first[..|first| - 1] == s[..LineEnd(s)];
  }

  lemma LastLine(s: seq<byte>)
    requires s != [] && NEWLINE !in s
    ensures Split([s], s)
  {
    assert Concat([s]) == s + Concat([]);
  }

  lemma {:induction false} LinesAppend(a: seq<byte>, b: seq<byte>)
    requires a == [] || EndsLine(a)
    ensures Lines(a + b) == Lines(a) + Lines(b)
    decreases |a|
  {
    hide Lines, EndsLine;
    if a == [] {
      assert a + b == b;
      NoLines();
    } else {
      var first, rest := FirstOfAppend(a, b);
      LinesAppend(rest, b);
      assert [first] + Lines(rest) + Lines(b) == [first] + (Lines(rest) + Lines(b));
    }
  }

  lemma NoLines()
    ensures Lines([]) == []
  {
  }

  lemma FirstOfAppend(a: seq<byte>, b: seq<byte>) returns (first: seq<byte>, rest: seq<byte>)
    requires EndsLine(a)
    ensures |rest| < |a| && (rest == [] || EndsLine(rest))
    ensures Lines(a) == [first] + Lines(rest) && Lines(a + b) == [first] + Lines(rest + b)
  {
    hide Lines, LineEnd, IsLine;
    var n := LineEnd(a);
    EndAppend(a, b);
    LinesStep(a);
    LinesStep(a + b);
    first, rest := a[..n + 1], a[n + 1..];
    SlicesOfAppend(a, b, n + 1);
  }

  lemma SlicesOfAppend(a: seq<byte>, b: seq<byte>, n: nat)
    requires n <= |a|
    ensures (a + b)[..n] == a[..n] && (a + b)[n..] == a[n..] + b
  {
  }

  lemma {:induction false} EndAppend(a: seq<byte>, b: seq<byte>)
    requires EndsLine(a)
    ensures LineEnd(a) < |a| && LineEnd(a + b) == LineEnd(a)
    ensures a[LineEnd(a) + 1..] == [] || EndsLine(a[LineEnd(a) + 1..])
    decreases |a|
  {
    if a[0] != NEWLINE {
      assert (a + b)[1..] == a[1..] + b;
      EndAppend(a[1..], b);
      assert a[LineEnd(a) + 1..] == a[1..][LineEnd(a[1..]) + 1..];
    }
  }

  /** A text made of lines splits into just these lines. */
  lemma {:induction false} LinesOfLines(lines: seq<seq<byte>>)
    requires forall i :: 0 <= i < |lines| ==> IsLine(lines[i]) && EndsLine(lines[i])
    ensures Lines(Concat(lines)) == lines
    ensures lines != [] ==> EndsLine(Concat(lines))
  {
    if lines != [] {
      var first, rest := lines[0], lines[1..];
      LinesOfLines(rest);
      hide Lines, IsLine;
      OneLine(first);
      LinesAppend(first, Concat(rest));
      assert lines == [first] + rest;
    }
  }

  lemma OneLine(line: seq<byte>)
    requires IsLine(line) && EndsLine(line)
    ensures Lines(line) == [line]
  {
    var n := LineEnd(line);
    forall i | 0 <= i < |line| - 1 ensures line[i] != NEWLINE { assert line[i] == line[..|line| - 1][i]; }
    EndAppend(line, []);
    assert line[..n + 1] == line && line[n + 1..] == [];
  }

  lemma {:induction false} ConcatSnoc(lines: seq<seq<byte>>, line: seq<byte>)
    ensures Concat(lines + [line]) == Concat(lines) + line
  {
    if lines == [] {
      assert Concat([line]) == line + Concat([]);
    } else {
      ConcatSnoc(lines[1..], line);
      assert (lines + [line])[1..] == lines[1..] + [line];
      assert Concat(lines) + line == lines[0] + (Concat(lines[1..]) + line);
    }
  }

  lemma LastOfSplit(lines: seq<seq<byte>>, s: seq<byte>)
    requires Split(lines, s) && s != []
    ensures lines != [] && (EndsLine(s) <==> EndsLine(lines[|lines| - 1]))
  {
    assert lines != [];
    var last := lines[|lines| - 1];
    ConcatSnoc(lines[..|lines| - 1], last);
    assert lines == lines[..|lines| - 1] + [last];
    assert IsLine(last);
  }

  /** Lines appended to a text stay lines of the result exactly when the text is empty
      or ends in a newline. */
  lemma AppendedLines(a: seq<byte>, lines: seq<seq<byte>>)
    requires forall i :: 0 <= i < |lines| ==> IsLine(lines[i]) && EndsLine(lines[i])
    ensures Lines(a + Concat(lines)) == Lines(a) + lines <==> a == [] || EndsLine(a) || lines == []
  {
    hide Lines, IsLine, EndsLine;
    var whole := a + Concat(lines);
    if a == [] || EndsLine(a) {
      LinesAppend(a, Concat(lines));
      LinesOfLines(lines);
    } else if lines == [] {
      assert whole == a;
    } else {
      LinesSplit(a);
      LinesSplit(whole);
      LastOfSplit(Lines(a), a);
      var glued := |Lines(a)| - 1;
      assert (Lines(a) + lines)[glued] == Lines(a)[glued];
      assert glued < |Lines(whole)| - 1 ==> EndsLine(Lines(whole)[glued]);
    }
  }

  /** A text that ends inside a line takes the front of whatever follows into that line. */
  lemma GluedLine(a: seq<byte>, fragment: seq<byte>, line: seq<byte>)
    requires a == [] || EndsLine(a)
    requires NEWLINE !in fragment && IsLine(line) && EndsLine(line)
    ensures Lines(a + fragment + line) == Lines(a) + [fragment + line]
  {
    hide Lines;
    var glued := fragment + line;
    assert glued[..|glued| - 1] == fragment + line[..|line| - 1];
    OneLine(glued);
    LinesAppend(a, glued);
    assert a + fragment + line == a + glued;
  }

  predicate LinesFit(s: seq<byte>, maxLine: nat) { forall i :: 0 <= i < |Lines(s)| ==> |Lines(s)[i]| <= maxLine }

  // ---------- The suffix ----------

  /** A line starts at p. */
  predicate Boundary(source: seq<byte>, p: nat)
    requires p <= |source|
  {
    p == 0 || source[p - 1] == NEWLINE
  }

  function SuffixStart(source: seq<byte>, maxBytes: nat): nat {
    if |source| <= maxBytes then 0 else |source| - maxBytes
  }

  /** p starts the longest suffix of at most maxBytes that begins with a line. */
  ghost predicate LongestSuffix(source: seq<byte>, p: nat, maxBytes: nat) {
    && p <= |source| && |source| - p <= maxBytes && Boundary(source, p)
    && forall q :: 0 <= q < p && |source| - q <= maxBytes ==> !Boundary(source, q)
  }

  predicate ValidLimits(maxBytes: nat, maxLine: nat) { 1 <= maxLine <= maxBytes <= MAX_TAIL_BYTES }

  /** The first newline at or behind `from`, as the search of `position` finds it. */
  lemma NextBoundary(source: seq<byte>, from: nat)
    requires 0 < from <= |source| && !Boundary(source, from)
    ensures var n := LineEnd(source[from..]);
            && (forall q :: from <= q <= from + n ==> !Boundary(source, q))
            && (from + n < |source| ==> Boundary(source, from + n + 1))
  {
    var tail := source[from..];
    var n := LineEnd(tail);
    forall q | from <= q <= from + n ensures !Boundary(source, q) {
      if q > from { assert source[q - 1] == tail[..n][q - 1 - from]; }
    }
  }

  method Position(bytes: seq<byte>) returns (r: Option<nat>)
    ensures r == if LineEnd(bytes) < |bytes| then Some(LineEnd(bytes)) else None
  {
    var i := 0;
    assert bytes[0..] == bytes;
    while i < |bytes|
      invariant 0 <= i <= |bytes| && LineEnd(bytes) == i + LineEnd(bytes[i..])
    {
      if bytes[i] == NEWLINE { return Some(i); }
      assert bytes[i..][1..] == bytes[i + 1..];
      i := i + 1;
    }
    return None;
  }

  method AnyTooLong(bytes: seq<byte>, maxLine: nat) returns (r: bool)
    ensures r <==> !LinesFit(bytes, maxLine)
  {
    var lines := Lines(bytes);
    var i := 0;
    while i < |lines|
      invariant 0 <= i <= |lines| && forall k :: 0 <= k < i ==> |lines[k]| <= maxLine
    {
      if |lines[i]| > maxLine { return true; }
      i := i + 1;
    }
    return false;
  }

  /** Succeeds with the longest suffix in whole lines, exactly when there is one and
      neither the fragment cut off in front of it nor any line of it is too long. */
  method ReadTailLines(source: seq<byte>, maxBytes: nat, maxLine: nat) returns (r: Result<seq<byte>, TailReadError>)
    ensures !ValidLimits(maxBytes, maxLine) <==> r == Err(InvalidLimits)
    ensures ValidLimits(maxBytes, maxLine) ==>
              (r == Err(TruncatedLine) <==> forall p: nat :: p <= |source| ==> !LongestSuffix(source, p, maxBytes))
    ensures forall p: nat :: ValidLimits(maxBytes, maxLine) && LongestSuffix(source, p, maxBytes) ==>
              r == if p - SuffixStart(source, maxBytes) <= maxLine && LinesFit(source[p..], maxLine)
                   then Ok(source[p..]) else Err(LineTooLarge)
  {
    hide Lines, LineEnd, LongestSuffix, LinesFit;
    if maxBytes == 0 || maxBytes > MAX_TAIL_BYTES || maxLine == 0 || maxLine > maxBytes { return Err(InvalidLimits); }
    var length := |source|;
    var start := if length <= maxBytes then 0 else length - maxBytes;
    var readStart := if start == 0 then 0 else start - 1;
    var bytes := source[readStart..];
    ghost var p := start;
    if start > 0 {
      var atBoundary := bytes[0] == NEWLINE;
      bytes := bytes[1..];
      assert bytes == source[start..];
      if !atBoundary {
        NextBoundary(source, start);
        var newline := Position(bytes);
        if newline.None? {
          NoSuffix(source, maxBytes);
          return Err(TruncatedLine);
        }
        p := start + newline.value + 1;
        OnlySuffix(source, p, maxBytes);
        assert LongestSuffix(source, p, maxBytes);
        if newline.value + 1 > maxLine { return Err(LineTooLarge); }
        bytes := bytes[newline.value + 1..];
        assert bytes == source[p..];
      }
    }
    OnlySuffix(source, p, maxBytes);
    assert LongestSuffix(source, p, maxBytes);
    var long := AnyTooLong(bytes, maxLine);
    if long { return Err(LineTooLarge); }
    return Ok(bytes);
  }

  lemma NoSuffix(source: seq<byte>, maxBytes: nat)
    requires forall q :: SuffixStart(source, maxBytes) <= q <= |source| ==> !Boundary(source, q)
    ensures forall q: nat :: !LongestSuffix(source, q, maxBytes)
  {
  }

  lemma OnlySuffix(source: seq<byte>, p: nat, maxBytes: nat)
    requires SuffixStart(source, maxBytes) <= p <= |source| && Boundary(source, p)
    requires forall q :: SuffixStart(source, maxBytes) <= q < p ==> !Boundary(source, q)
    ensures forall q: nat :: LongestSuffix(source, q, maxBytes) <==> q == p
  {
    assert LongestSuffix(source, p, maxBytes);
  }
}
