/** Quoting of Windows command-line arguments (src/cli/elevation.rs) and the
    backslash/quote rules by which CommandLineToArgvW splits the arguments that
    follow the program name. */
module ArgumentQuoting {

  /** Unicode White_Space, the test made by `char::is_whitespace`. */
  predicate IsWhitespace(c: char) {
    || '\U{9}' <= c <= '\U{d}' || c == ' ' || c == '\U{85}' || c == '\U{a0}' || c == '\U{1680}'
    || '\U{2000}' <= c <= '\U{200a}' || c == '\U{2028}' || c == '\U{2029}' || c == '\U{202f}'
    || c == '\U{205f}' || c == '\U{3000}'
  }

  predicate NeedsQuotes(argument: string) {
    argument == "" || exists i :: 0 <= i < |argument| && (IsWhitespace(argument[i]) || argument[i] == '"')
  }

  function Repeat(c: char, n: nat): (s: string)
    ensures |s| == n
    ensures forall i :: 0 <= i < n ==> s[i] == c
  {
    seq(n, _ => c)
  }

  /** What follows the opening quote, up to the closing one, when `pending`
      backslashes have been read and not yet written. */
  function QuotedBody(rest: string, pending: nat): string {
    if rest == "" then Repeat('\\', 2 * pending)
    else if rest[0] == '\\' then QuotedBody(rest[1..], pending + 1)
    else if rest[0] == '"' then Repeat('\\', 2 * pending + 1) + "\"" + QuotedBody(rest[1..], 0)
    else Repeat('\\', pending) + [rest[0]] + QuotedBody(rest[1..], 0)
  }

  function Quoted(argument: string): string {
    if NeedsQuotes(argument) then "\"" + QuotedBody(argument, 0) + "\"" else argument
  }

  method QuoteArgument(argument: string) returns (quoted: string)
    ensures quoted == Quoted(argument)
  {
    if !NeedsQuotes(argument) {
      return argument;
    }
    quoted := "\"";
    var backslashes := 0;
    for i := 0 to |argument|
      invariant quoted + QuotedBody(argument[i..], backslashes) == "\"" + QuotedBody(argument, 0)
    {
      var character := argument[i];
      ghost var before := quoted;
      assert argument[i..] == [character] + argument[i + 1..];
      if character == '\\' {
        backslashes := backslashes + 1;
      } else {
        ghost var pending := backslashes;
        quoted := quoted + Repeat('\\', backslashes);
        if character == '"' {
          quoted := quoted + Repeat('\\', backslashes + 1);
          assert Repeat('\\', pending) + Repeat('\\', pending + 1) == Repeat('\\', 2 * pending + 1);
        }
        backslashes := 0;
        quoted := quoted + [character];
        ghost var emitted :=
          (if character == '"' then Repeat('\\', 2 * pending + 1) else Repeat('\\', pending)) + [character];
        assert quoted == before + emitted;
        assert QuotedBody(argument[i..], pending) == emitted + QuotedBody(argument[i + 1..], 0);
        assert before + (emitted + QuotedBody(argument[i + 1..], 0)) == quoted + QuotedBody(argument[i + 1..], 0);
      }
    }
    assert argument[|argument|..] == "";
    quoted := quoted + Repeat('\\', backslashes * 2);
    quoted := quoted + "\"";
  }

  // ---------- The parser ----------

  /** What a quote directly after a closing quote means. The documented rules
      only toggle; the two literal readings are those of existing runtimes. */
  datatype PairRule = Toggles | LiteralStaysQuoted | LiteralLeavesQuotes

  predicate IsSeparator(c: char) { c == ' ' || c == '\t' }

  function LeadingBackslashes(s: string): (n: nat)
    ensures n <= |s|
    ensures s != "" && s[0] == '\\' ==> n > 0
  {
    if s != "" && s[0] == '\\' then 1 + LeadingBackslashes(s[1..]) else 0
  }

  datatype Scanned = Scanned(text: string, rest: string)

  /** One argument from the front of `s`, and what is left after it. */
  function ScanArgument(s: string, quoted: bool, rule: PairRule): (r: Scanned)
    ensures |r.rest| <= |s|
    ensures s != "" && (quoted || !IsSeparator(s[0])) ==> |r.rest| < |s|
    decreases |s|
  {
    if s == "" || (!quoted && IsSeparator(s[0])) then Scanned("", s)
    else if s[0] == '\\' then
      var n := LeadingBackslashes(s);
      if n < |s| && s[n] == '"' then
        if n % 2 == 0 then
          var r := ScanArgument(s[n..], quoted, rule);
          r.(text := Repeat('\\', n / 2) + r.text)
        else
          var r := ScanArgument(s[n + 1..], quoted, rule);
          r.(text := Repeat('\\', n / 2) + "\"" + r.text)
      else
        var r := ScanArgument(s[n..], quoted, rule);
        r.(text := Repeat('\\', n) + r.text)
    else if s[0] == '"' then
      if quoted && rule != Toggles && |s| > 1 && s[1] == '"' then
        var r := ScanArgument(s[2..], rule == LiteralStaysQuoted, rule);
        r.(text := "\"" + r.text)
      else
        ScanArgument(s[1..], !quoted, rule)
    else
      var r := ScanArgument(s[1..], quoted, rule);
      r.(text := [s[0]] + r.text)
  }

  function ParseArguments(line: string, rule: PairRule): seq<string>
    decreases |line|
  {
    if line == "" then []
    else if IsSeparator(line[0]) then ParseArguments(line[1..], rule)
    else
      var r := ScanArgument(line, false, rule);
      [r.text] + ParseArguments(r.rest, rule)
  }

  /** The parameters string: every argument quoted, joined by single spaces. */
  function JoinQuoted(arguments: seq<string>): string {
    if arguments == [] then ""
    else if |arguments| == 1 then Quoted(arguments[0])
    else Quoted(arguments[0]) + " " + JoinQuoted(arguments[1..])
  }

  // ---------- Round trip ----------

  lemma {:induction false} LeadingRun(n: nat, s: string)
    requires s == "" || s[0] != '\\'
    ensures LeadingBackslashes(Repeat('\\', n) + s) == n
  {
    if n == 0 {
      assert Repeat('\\', n) + s == s;
    } else {
      LeadingRun(n - 1, s);
      assert (Repeat('\\', n) + s)[1..] == Repeat('\\', n - 1) + s;
    }
  }

  /** A run of backslashes in front of anything but a quote stands for itself. */
  lemma ScanPlainRun(n: nat, s: string, quoted: bool, rule: PairRule)
    requires s == "" || (s[0] != '\\' && s[0] != '"')
    ensures ScanArgument(Repeat('\\', n) + s, quoted, rule)
         == Scanned(Repeat('\\', n) + ScanArgument(s, quoted, rule).text, ScanArgument(s, quoted, rule).rest)
  {
    var whole := Repeat('\\', n) + s;
    if n == 0 {
      assert whole == s;
      assert Repeat('\\', n) + ScanArgument(s, quoted, rule).text == ScanArgument(s, quoted, rule).text;
    } else {
      LeadingRun(n, s);
      assert whole[n..] == s;
    }
  }

  /** An odd run of backslashes in front of a quote is halved and the quote kept. */
  lemma ScanOddRun(half: nat, s: string, quoted: bool, rule: PairRule)
    ensures ScanArgument(Repeat('\\', 2 * half + 1) + ("\"" + s), quoted, rule)
         == Scanned(Repeat('\\', half) + "\"" + ScanArgument(s, quoted, rule).text, ScanArgument(s, quoted, rule).rest)
  {
    var n := 2 * half + 1;
    var whole := Repeat('\\', n) + ("\"" + s);
    LeadingRun(n, "\"" + s);
    assert whole[0] == '\\' && whole[n] == '"';
    assert whole[n + 1..] == s;
    var r := ScanArgument(s, quoted, rule);
    assert n / 2 == half && n % 2 == 1;
    assert ScanArgument(whole, quoted, rule) == r.(text := Repeat('\\', half) + "\"" + r.text);
  }

  /** An even run is halved and the quote ends the quoted part. */
  lemma ScanClosingRun(half: nat, tail: string, rule: PairRule)
    requires EndsArgument(tail)
    ensures ScanArgument(Repeat('\\', 2 * half) + ("\"" + tail), true, rule) == Scanned(Repeat('\\', half), tail)
  {
    var n := 2 * half;
    var closing := "\"" + tail;
    var whole := Repeat('\\', n) + closing;
    assert closing[1..] == tail;
    assert ScanArgument(tail, false, rule) == Scanned("", tail);
    assert ScanArgument(closing, true, rule) == Scanned("", tail);
    LeadingRun(n, closing);
    if half == 0 {
      assert whole == closing;
    } else {
      assert whole[n] == '"' && whole[n..] == closing;
      assert Repeat('\\', half) + "" == Repeat('\\', half);
    }
  }

  predicate EndsArgument(tail: string) { tail == "" || tail[0] == ' ' }

  lemma {:induction false} ScanQuotedBody(rest: string, pending: nat, tail: string, rule: PairRule)
    requires EndsArgument(tail)
    ensures ScanArgument(QuotedBody(rest, pending) + ("\"" + tail), true, rule)
         == Scanned(Repeat('\\', pending) + rest, tail)
    decreases |rest|
  {
    hide ScanArgument;
    if rest == "" {
      ScanClosingRun(pending, tail, rule);
      assert Repeat('\\', pending) + rest == Repeat('\\', pending);
    } else if rest[0] == '\\' {
      ScanQuotedBody(rest[1..], pending + 1, tail, rule);
      assert Repeat('\\', pending + 1) + rest[1..] == Repeat('\\', pending) + rest;
    } else {
      var after := QuotedBody(rest[1..], 0) + ("\"" + tail);
      assert ScanArgument(after, true, rule) == Scanned(rest[1..], tail) by {
        ScanQuotedBody(rest[1..], 0, tail, rule);
        assert Repeat('\\', 0) + rest[1..] == rest[1..];
      }
      ScanOneQuoted(rest[0], rest[1..], pending, after, tail, rule);
      BodyStep(rest, pending, "\"" + tail);
      assert rest == [rest[0]] + rest[1..];
    }
  }

  lemma BodyStep(rest: string, pending: nat, closing: string)
    requires rest != "" && rest[0] != '\\'
    ensures QuotedBody(rest, pending) + closing
         == Repeat('\\', if rest[0] == '"' then 2 * pending + 1 else pending)
            + ([rest[0]] + (QuotedBody(rest[1..], 0) + closing))
  {
  }

  /** The pending backslashes and one character that is not a backslash. */
  lemma ScanOneQuoted(c: char, text: string, pending: nat, after: string, tail: string, rule: PairRule)
    requires c != '\\'
    requires ScanArgument(after, true, rule) == Scanned(text, tail)
    ensures ScanArgument(Repeat('\\', if c == '"' then 2 * pending + 1 else pending) + ([c] + after), true, rule)
         == Scanned(Repeat('\\', pending) + ([c] + text), tail)
  {
    if c == '"' {
      ScanOddRun(pending, after, true, rule);
      assert Repeat('\\', pending) + "\"" + text == Repeat('\\', pending) + ([c] + text);
    } else {
      var plain := [c] + after;
      assert plain[1..] == after;
      ScanPlainRun(pending, plain, true, rule);
    }
  }

  lemma {:induction false} ScanBare(argument: string, tail: string, rule: PairRule)
    requires forall i :: 0 <= i < |argument| ==> !IsWhitespace(argument[i]) && argument[i] != '"'
    requires EndsArgument(tail)
    ensures ScanArgument(argument + tail, false, rule) == Scanned(argument, tail)
    decreases |argument|
  {
    hide ScanArgument, IsWhitespace, LeadingBackslashes;
    var whole := argument + tail;
    if argument == "" {
      assert whole == tail;
      ScanNothing(tail, rule);
    } else if argument[0] == '\\' {
      var n := LeadingBackslashes(argument);
      LeadingSplit(argument);
      var rest := argument[n..];
      assert whole == Repeat('\\', n) + (rest + tail);
      ScanPlainRun(n, rest + tail, false, rule);
      ScanBare(rest, tail, rule);
    } else {
      assert whole == [argument[0]] + (argument[1..] + tail);
      ScanBare(argument[1..], tail, rule);
      ScanPlainChar(argument[0], argument[1..] + tail, rule);
    }
  }

  lemma ScanNothing(tail: string, rule: PairRule)
    requires EndsArgument(tail)
    ensures ScanArgument(tail, false, rule) == Scanned("", tail)
  {
  }

  lemma ScanPlainChar(c: char, s: string, rule: PairRule)
    requires !IsWhitespace(c) && c != '"' && c != '\\'
    ensures var r := ScanArgument(s, false, rule);
            ScanArgument([c] + s, false, rule) == r.(text := [c] + r.text)
  {
    assert ([c] + s)[1..] == s;
  }

  lemma {:induction false} LeadingSplit(s: string)
    ensures var n := LeadingBackslashes(s);
            s == Repeat('\\', n) + s[n..] && (n < |s| ==> s[n] != '\\')
  {
    if s != "" && s[0] == '\\' {
      LeadingSplit(s[1..]);
      var n := LeadingBackslashes(s[1..]);
      var tail := s[1..][n..];
      assert LeadingBackslashes(s) == n + 1;
      assert s[n + 1..] == tail;
      assert n + 1 < |s| ==> s[n + 1] == s[1..][n];
      assert Repeat('\\', n + 1) == ['\\'] + Repeat('\\', n);
      assert s == ['\\'] + s[1..];
    }
  }

  lemma OpenQuote(inner: string, text: string, tail: string, rule: PairRule)
    requires ScanArgument(inner, true, rule) == Scanned(text, tail)
    ensures ScanArgument("\"" + inner, false, rule) == Scanned(text, tail)
  {
    assert ("\"" + inner)[1..] == inner;
  }

  lemma ScanQuoted(argument: string, tail: string, rule: PairRule)
    requires EndsArgument(tail)
    ensures ScanArgument(Quoted(argument) + tail, false, rule) == Scanned(argument, tail)
    ensures Quoted(argument) != "" && !IsSeparator(Quoted(argument)[0])
  {
    hide ScanArgument, QuotedBody;
    if NeedsQuotes(argument) {
      var inner := QuotedBody(argument, 0) + ("\"" + tail);
      assert ScanArgument(inner, true, rule) == Scanned(argument, tail) by {
        ScanQuotedBody(argument, 0, tail, rule);
        assert Repeat('\\', 0) + argument == argument;
      }
      OpenQuote(inner, argument, tail, rule);
      assert Quoted(argument) + tail == "\"" + inner;
    } else {
      ScanBare(argument, tail, rule);
    }
  }

  /** Splitting the joined string gives back exactly the list, for empty
      arguments, trailing backslashes and backslash runs before quotes alike,
      whichever way doubled quotes are read. */
  lemma {:induction false} RoundTrip(arguments: seq<string>, rule: PairRule)
    ensures ParseArguments(JoinQuoted(arguments), rule) == arguments
  {
    hide ScanArgument, Quoted;
    if arguments != [] {
      var first := arguments[0];
      if |arguments| == 1 {
        ScanQuoted(first, "", rule);
        assert Quoted(first) + "" == Quoted(first);
        assert ParseArguments("", rule) == [];
      } else {
        var tail := " " + JoinQuoted(arguments[1..]);
        ScanQuoted(first, tail, rule);
        assert JoinQuoted(arguments) == Quoted(first) + tail;
        assert tail[1..] == JoinQuoted(arguments[1..]);
        RoundTrip(arguments[1..], rule);
        assert ParseArguments(tail, rule) == arguments[1..];
      }
    }
  }

  /** Hence two different argument lists never produce the same string. */
  lemma JoinInjective(left: seq<string>, right: seq<string>)
    requires JoinQuoted(left) == JoinQuoted(right)
    ensures left == right
  {
    RoundTrip(left, Toggles);
    RoundTrip(right, Toggles);
  }

  // ---------- No quoting without need ----------

  lemma {:induction false} BodyLength(rest: string, pending: nat)
    ensures |QuotedBody(rest, pending)| >= |rest| + pending
  {
    if rest != "" { BodyLength(rest[1..], if rest[0] == '\\' then pending + 1 else 0); }
  }

  /** An argument is passed as it is exactly when it is not empty and has neither
      whitespace nor a quote; any other one stands between two quotes. */
  lemma BareExactly(argument: string)
    ensures Quoted(argument) == argument <==>
              argument != "" && forall i :: 0 <= i < |argument| ==> !IsWhitespace(argument[i]) && argument[i] != '"'
    ensures Quoted(argument) != argument ==>
              && |Quoted(argument)| >= |argument| + 2 && Quoted(argument)[0] == '"'
              && Quoted(argument)[|Quoted(argument)| - 1] == '"'
  {
    hide IsWhitespace, QuotedBody;
    BodyLength(argument, 0);
    if NeedsQuotes(argument) { assert |Quoted(argument)| == |QuotedBody(argument, 0)| + 2; }
  }
}
