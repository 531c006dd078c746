/** What the command parser refuses, and with which words. */
module ParseErrors {
  import opened Bytes
  import opened Text
  import opened ControlProtocol

  // ---------- Numbers ----------

  /** A number that is cut short by another character is stored, and refused. */
  lemma PartNumber(digits: string, rest: string, before: u64)
    requires digits != "" && AllDigits(digits) && Number(digits) <= 18_446_744_073_709_551_615
    requires rest != "" && !('0' <= rest[0] <= '9')
    ensures ParseRevision(digits + rest, before) == Parsed(false, Number(digits))
  {
    var s := digits + rest;
    SpanIs(s, NotDigit, |digits|);
    assert s[..|digits|] == digits;
  }

  /** No number at all, or one above 2^64 - 1, leaves the old value and is refused. */
  lemma NoNumber(s: string, before: u64)
    requires s == "" || !('0' <= s[0] <= '9') || (AllDigits(s) && Number(s) > 18_446_744_073_709_551_615)
    ensures ParseRevision(s, before) == Parsed(false, before)
  {
    if s != "" && AllDigits(s) {
      SpanIs(s, NotDigit, |s|);
      assert s[..|s|] == s;
    }
  }

  // ---------- Commands ----------

  lemma EmptyLine(now: int, expiresAt: int)
    ensures Parse("", now, expiresAt).error == "empty command"
  {
  }

  lemma UnknownWord(line: string, now: int, expiresAt: int)
    requires Tokens(line) != []
    requires Tokens(line)[0] !in {"REGISTER", "MERGE", "HEARTBEAT", "LIST", "STATS", "SYNC_PULL"}
    ensures Parse(line, now, expiresAt).error == "unknown command"
  {
  }

  lemma StaysRefused(c: Command, xs: seq<string>)
    requires c.error != ""
    ensures TakeTokens(c, xs) == c
  {
  }

  lemma {:induction false} TakeTokensConcat(c: Command, xs: seq<string>, ys: seq<string>)
    ensures TakeTokens(c, xs + ys) == TakeTokens(TakeTokens(c, xs), ys)
    decreases xs
  {
    if c.error != "" {
      StaysRefused(c, xs + ys);
      StaysRefused(c, xs);
      StaysRefused(c, ys);
    } else if xs == [] {
      assert xs + ys == ys;
    } else {
      assert (xs + ys)[0] == xs[0] && (xs + ys)[1..] == xs[1..] + ys;
      TakeTokensConcat(TakeToken(c, xs[0]), xs[1..], ys);
    }
  }

  lemma TakeOne(c: Command, t: string)
    requires c.error == ""
    ensures TakeTokens(c, [t]) == TakeToken(c, t)
  {
    var next := TakeToken(c, t);
    assert [t][1..] == [];
    assert TakeTokens(next, []) == next;
  }

  /** Once a command is refused, the options that follow change nothing. */
  lemma RefusedStays(c: Command, xs: seq<string>, ys: seq<string>)
    requires TakeTokens(c, xs).error != ""
    ensures TakeTokens(c, xs + ys) == TakeTokens(c, xs)
  {
    TakeTokensConcat(c, xs, ys);
    StaysRefused(TakeTokens(c, xs), ys);
  }

  /** The blank command of a word, before its options. */
  function Start(word: string, now: int, expiresAt: int): Command {
    BlankCommand(ActionOf(word), if ActionOf(word) in {Register, Merge} then expiresAt else now)
  }

  lemma BadOption(line: string, word: string, xs: seq<string>, t: string, ys: seq<string>, now: int, expiresAt: int)
    requires Tokens(line) == [word] + (xs + [t] + ys) && ActionOf(word) != Unknown
    requires TakeTokens(Start(word, now, expiresAt), xs + [t]).error != ""
    ensures Parse(line, now, expiresAt).error == TakeTokens(Start(word, now, expiresAt), xs + [t]).error
  {
    ParseAs(line, now, expiresAt, word, xs + [t] + ys);
    RefusedStays(Start(word, now, expiresAt), xs + [t], ys);
  }

  /** A revision that is no 64-bit number refuses the command, wherever it stands. */
  lemma BadRevision(line: string, word: string, xs: seq<string>, v: string, ys: seq<string>, now: int, expiresAt: int)
    requires Tokens(line) == [word] + (xs + ["revision=" + v] + ys) && ActionOf(word) != Unknown
    requires TakeTokens(Start(word, now, expiresAt), xs).error == "" && !ParseRevision(v, 0).ok
    ensures Parse(line, now, expiresAt).error == "invalid revision"
  {
    RevisionToken(v);
    TakeTokensConcat(Start(word, now, expiresAt), xs, ["revision=" + v]);
    TakeOne(TakeTokens(Start(word, now, expiresAt), xs), "revision=" + v);
    BadOption(line, word, xs, "revision=" + v, ys, now, expiresAt);
  }

  /** So does a bad cursor, */
  lemma BadAfterRevision(line: string, word: string, xs: seq<string>, v: string, ys: seq<string>, now: int, expiresAt: int)
    requires Tokens(line) == [word] + (xs + ["after_revision=" + v] + ys) && ActionOf(word) != Unknown
    requires TakeTokens(Start(word, now, expiresAt), xs).error == "" && !ParseRevision(v, 0).ok
    ensures Parse(line, now, expiresAt).error == "invalid after_revision"
  {
    AfterToken(v);
    TakeTokensConcat(Start(word, now, expiresAt), xs, ["after_revision=" + v]);
    TakeOne(TakeTokens(Start(word, now, expiresAt), xs), "after_revision=" + v);
    BadOption(line, word, xs, "after_revision=" + v, ys, now, expiresAt);
  }

  /** and a bad limit. */
  lemma BadLimit(line: string, word: string, xs: seq<string>, v: string, ys: seq<string>, now: int, expiresAt: int)
    requires Tokens(line) == [word] + (xs + ["limit=" + v] + ys) && ActionOf(word) != Unknown
    requires TakeTokens(Start(word, now, expiresAt), xs).error == "" && !ParseRevision(v, 0).ok
    ensures Parse(line, now, expiresAt).error == "invalid limit"
  {
    LimitToken(v);
    TakeTokensConcat(Start(word, now, expiresAt), xs, ["limit=" + v]);
    TakeOne(TakeTokens(Start(word, now, expiresAt), xs), "limit=" + v);
    BadOption(line, word, xs, "limit=" + v, ys, now, expiresAt);
  }

  /** Without a bad number, what is missing decides: the agent first, then node and endpoint. */
  lemma MissingFields(line: string, word: string, rest: seq<string>, now: int, expiresAt: int)
    requires Tokens(line) == [word] + rest && ActionOf(word) != Unknown
    requires TakeTokens(Start(word, now, expiresAt), rest).error == ""
    ensures var c, taken := Parse(line, now, expiresAt), TakeTokens(Start(word, now, expiresAt), rest);
      var r := taken.registration;
      c.error ==
        if word in {"REGISTER", "MERGE", "HEARTBEAT"} && r.agentId == "" then "agent_id is required"
        else if word in {"REGISTER", "MERGE"} && (r.nodeId == "" || r.endpoint == "") then "node_id and endpoint are required"
        else ""
  {
    ParseAs(line, now, expiresAt, word, rest);
    TakenAgent(Start(word, now, expiresAt), rest);
  }

  lemma {:induction false} TakenAgent(c: Command, tokens: seq<string>)
    requires c.agentId == c.registration.agentId
    ensures var d := TakeTokens(c, tokens); d.agentId == d.registration.agentId && d.action == c.action
    decreases tokens
  {
    if c.error == "" && tokens != [] {
      TakenAgent(TakeToken(c, tokens[0]), tokens[1..]);
    }
  }
}
