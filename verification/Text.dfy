/** The text primitives under the line protocol: white-space tokens, lines, decimal numbers and `key=value` tokens. */
module Text {
  import opened Bytes

  // ---------- Characters ----------

  /** `std::isspace` in the default locale. */
  predicate IsSpace(c: char) {
    c == ' ' || c == '\t' || c == '\n' || c == '\r' || c == 11 as char || c == 12 as char
  }

  predicate NoSpace(s: string) {
    forall i :: 0 <= i < |s| ==> !IsSpace(s[i])
  }

  predicate IsToken(s: string) {
    s != [] && NoSpace(s)
  }

  predicate Lacks(s: string, c: char) {
    forall i :: 0 <= i < |s| ==> s[i] != c
  }

  lemma NoSpaceConcat(a: string, b: string)
    ensures NoSpace(a + b) <==> NoSpace(a) && NoSpace(b)
  {
    if NoSpace(a + b) {
      forall i | 0 <= i < |a| ensures !IsSpace(a[i]) { assert (a + b)[i] == a[i]; }
      forall i | 0 <= i < |b| ensures !IsSpace(b[i]) { assert (a + b)[|a| + i] == b[i]; }
    }
  }

  // ---------- Tokens ----------

  /** How many characters to take before the first one that satisfies `stop`. */
  function Span(s: string, stop: char -> bool): (n: nat)
    ensures n <= |s|
    ensures forall i :: 0 <= i < n ==> !stop(s[i])
    ensures n < |s| ==> stop(s[n])
  {
    if s == [] || stop(s[0]) then 0
    else
      var n := 1 + Span(s[1..], stop);
      assert forall i :: 0 < i < n ==> s[i] == s[1..][i - 1];
      n
  }

  lemma SpanIs(s: string, stop: char -> bool, n: nat)
    requires n <= |s|
    requires forall i :: 0 <= i < n ==> !stop(s[i])
    requires n < |s| ==> stop(s[n])
    ensures Span(s, stop) == n
  {
  }

  /** What repeated `stream >> token` reads. */
  function Tokens(s: string): (ts: seq<string>)
    ensures forall t :: t in ts ==> IsToken(t)
    decreases |s|
  {
    if s == [] then []
    else if IsSpace(s[0]) then Tokens(s[1..])
    else
      var n := Span(s, IsSpace);
      assert n > 0;
      [s[..n]] + Tokens(s[n..])
  }

  method SplitTokens(line: string) returns (tokens: seq<string>)
    ensures tokens == Tokens(line)
  {
    tokens := [];
    var pos := 0;
    while pos < |line|
      invariant 0 <= pos <= |line|
      invariant tokens + Tokens(line[pos..]) == Tokens(line)
      decreases |line| - pos
    {
      var rest := line[pos..];
      if IsSpace(rest[0]) {
        assert line[pos + 1..] == rest[1..];
        pos := pos + 1;
      } else {
        var n := Span(rest, IsSpace);
        assert line[pos + n..] == rest[n..];
        tokens := tokens + [rest[..n]];
        pos := pos + n;
      }
    }
  }

  /** The tokens one after the other, each behind a blank. */
  function Blanked(ts: seq<string>): string {
    if ts == [] then "" else " " + ts[0] + Blanked(ts[1..])
  }

  lemma {:induction false} BlankedConcat(x: seq<string>, y: seq<string>)
    ensures Blanked(x + y) == Blanked(x) + Blanked(y)
  {
    if x == [] {
      assert x + y == y;
    } else {
      assert (x + y)[1..] == x[1..] + y;
      BlankedConcat(x[1..], y);
    }
  }

  lemma {:induction false} TokenThen(t: string, rest: string)
    requires IsToken(t)
    requires rest == [] || IsSpace(rest[0])
    ensures Tokens(t + rest) == [t] + Tokens(rest)
  {
    var s := t + rest;
    assert forall i :: 0 <= i < |t| ==> s[i] == t[i];
    SpanIs(s, IsSpace, |t|);
    assert s[..|t|] == t && s[|t|..] == rest;
  }

  lemma {:induction false} TokensSkip(s: string)
    ensures Tokens(" " + s) == Tokens(s)
  {
    assert (" " + s)[1..] == s;
  }

  lemma BlankedFirst(ts: seq<string>, end: string)
    requires ts != []
    ensures Blanked(ts) + end == " " + (ts[0] + (Blanked(ts[1..]) + end))
    ensures end == "" || end == "\n" ==> Blanked(ts[1..]) + end == "" || IsSpace((Blanked(ts[1..]) + end)[0])
  {
  }

  lemma TokensOfNothing(end: string)
    requires end == "" || end == "\n"
    ensures Tokens("" + end) == []
  {
    if end == "\n" {
      assert ("" + end)[1..] == [];
    }
  }

  /** Blank-separated tokens, with or without a final line feed, read back as written. */
  lemma {:induction false} TokensOfBlanked(ts: seq<string>, end: string)
    requires forall t :: t in ts ==> IsToken(t)
    requires end == "" || end == "\n"
    ensures Tokens(Blanked(ts) + end) == ts
  {
    if ts == [] {
      TokensOfNothing(end);
    } else {
      var tail := Blanked(ts[1..]) + end;
      TokensOfBlanked(ts[1..], end);
      BlankedFirst(ts, end);
      TokenThen(ts[0], tail);
      TokensSkip(ts[0] + tail);
    }
  }

  lemma TokensOfLine(first: string, ts: seq<string>, end: string)
    requires IsToken(first)
    requires forall t :: t in ts ==> IsToken(t)
    requires end == "" || end == "\n"
    ensures Tokens(first + Blanked(ts) + end) == [first] + ts
  {
    assert first + Blanked(ts) + end == first + (Blanked(ts) + end);
    TokensOfBlanked(ts, end);
    TokenThen(first, Blanked(ts) + end);
  }

  // ---------- Lines ----------

  predicate IsNewline(c: char) { c == '\n' }

  /** What repeated `std::getline` reads. */
  function Lines(s: string): (ls: seq<string>)
    ensures forall l :: l in ls ==> Lacks(l, '\n')
    decreases |s|
  {
    if s == [] then []
    else
      var n := Span(s, IsNewline);
      [s[..n]] + if n < |s| then Lines(s[n + 1..]) else []
  }

  /** The lines one after the other, each with its line feed. */
  function Unlines(ls: seq<string>): string {
    if ls == [] then "" else ls[0] + "\n" + Unlines(ls[1..])
  }

  lemma {:induction false} UnlinesConcat(x: seq<string>, y: seq<string>)
    ensures Unlines(x + y) == Unlines(x) + Unlines(y)
  {
    if x == [] {
      assert x + y == y;
    } else {
      assert (x + y)[1..] == x[1..] + y;
      UnlinesConcat(x[1..], y);
    }
  }

  lemma {:induction false} LinesOfUnlines(ls: seq<string>)
    requires forall l :: l in ls ==> Lacks(l, '\n')
    ensures Lines(Unlines(ls)) == ls
  {
    if ls != [] {
      var s, l := Unlines(ls), ls[0];
      assert s == l + ("\n" + Unlines(ls[1..]));
      assert l in ls;
      assert forall i :: 0 <= i < |l| ==> s[i] == l[i] && !IsNewline(l[i]);
      SpanIs(s, IsNewline, |l|);
      assert s[..|l|] == l && s[|l| + 1..] == Unlines(ls[1..]);
      LinesOfUnlines(ls[1..]);
    }
  }

  // ---------- Decimal numbers ----------

  const U64_MAX: u64 := 0xFFFF_FFFF_FFFF_FFFF

  predicate IsDigit(c: char) { '0' <= c <= '9' }

  predicate NotDigit(c: char) { !IsDigit(c) }

  predicate AllDigits(s: string) {
    forall i :: 0 <= i < |s| ==> IsDigit(s[i])
  }

  function DigitChar(d: nat): (c: char)
    requires d < 10
    ensures IsDigit(c)
  {
    '0' + d as char
  }

  function DigitValue(c: char): (d: nat)
    requires IsDigit(c)
    ensures d < 10
  {
    (c - '0') as int
  }

  /** `std::to_string` of an unsigned number. */
  function Decimal(n: nat): (s: string)
    ensures s != [] && AllDigits(s)
  {
    if n < 10 then [DigitChar(n)] else Decimal(n / 10) + [DigitChar(n % 10)]
  }

  function Number(s: string): nat
    requires AllDigits(s)
  {
    if s == [] then 0 else 10 * Number(s[..|s| - 1]) + DigitValue(s[|s| - 1])
  }

  lemma {:induction false} NumberOfDecimal(n: nat)
    ensures Number(Decimal(n)) == n
  {
    var s := Decimal(n);
    if n < 10 {
      assert s[..0] == [];
    } else {
      assert s[..|s| - 1] == Decimal(n / 10);
      NumberOfDecimal(n / 10);
    }
  }

  lemma DecimalInjective(m: nat, n: nat)
    requires Decimal(m) == Decimal(n)
    ensures m == n
  {
    NumberOfDecimal(m);
    NumberOfDecimal(n);
  }

  lemma DecimalIsToken(n: nat)
    ensures IsToken(Decimal(n))
  {
  }

  datatype Parsed = Parsed(ok: bool, value: u64)

  /**
   `std::from_chars` on an unsigned 64-bit number that held `before`, with the
   caller's test that every character was used.  A number followed by other
   characters is stored although the test fails; a missing or too large number
   leaves the old value.
   */
  function ParseRevision(s: string, before: u64): (r: Parsed)
    ensures r.ok <==> s != [] && AllDigits(s) && Number(s) <= U64_MAX
    ensures r.ok ==> r.value == Number(s)
  {
    var n := Span(s, NotDigit);
    assert AllDigits(s[..n]);
    if n == 0 || Number(s[..n]) > U64_MAX then
      assert n == |s| ==> s[..n] == s;
      Parsed(false, before)
    else
      assert n == |s| ==> s[..n] == s;
      Parsed(n == |s|, Number(s[..n]))
  }

  /** Every 64-bit number survives printing and parsing. */
  lemma RevisionRoundTrip(n: u64, before: u64)
    ensures ParseRevision(Decimal(n), before) == Parsed(true, n)
  {
    NumberOfDecimal(n);
  }

  // ---------- key=value ----------

  predicate IsEquals(c: char) { c == '=' }

  /** Position of the first '=', or the length if there is none. */
  function EqualsAt(token: string): nat {
    Span(token, IsEquals)
  }

  /** What follows the first '=', or nothing. */
  function ValueOf(token: string): (v: string)
    ensures NoSpace(token) ==> NoSpace(v)
  {
    var n := EqualsAt(token);
    if n == |token| then "" else token[n + 1..]
  }

  lemma EqualsAfterKey(key: string, value: string)
    requires Lacks(key, '=')
    ensures EqualsAt(key + "=" + value) == |key|
    ensures ValueOf(key + "=" + value) == value
  {
    var t := key + "=" + value;
    assert forall i :: 0 <= i < |key| ==> t[i] == key[i];
    SpanIs(t, IsEquals, |key|);
  }

  lemma KeyValueInjective(k: string, v: string, k': string, v': string)
    requires Lacks(k, '=') && Lacks(k', '=')
    requires k + "=" + v == k' + "=" + v'
    ensures k == k' && v == v'
  {
    EqualsAfterKey(k, v);
    EqualsAfterKey(k', v');
    var t := k + "=" + v;
    assert t[..|k|] == k && (k' + "=" + v')[..|k'|] == k';
  }
}
