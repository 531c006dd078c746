/** The texts of the protocol written out, and the characters they are made of. */
module Layouts {
  import opened Bytes
  import opened Text
  import opened Records
  import opened Crypto
  import opened ControlProtocol
  import opened LineHandler

  // ---------- Characters ----------

  /** The ten digits have their values. */
  lemma DigitValues()
    ensures Decimal(0) == "0" && Decimal(1) == "1" && Decimal(2) == "2" && Decimal(3) == "3" && Decimal(4) == "4"
    ensures Decimal(5) == "5" && Decimal(6) == "6" && Decimal(7) == "7" && Decimal(8) == "8" && Decimal(9) == "9"
  {
  }

  /** More digits are written high ones first. */
  lemma DigitOrder(n: nat, d: nat)
    requires n > 0 && d < 10
    ensures Decimal(10 * n + d) == Decimal(n) + Decimal(d)
  {
    assert (10 * n + d) / 10 == n && (10 * n + d) % 10 == d;
  }

  const SPACES: set<char> := {' ', '\t', '\n', '\r', 11 as char, 12 as char}

  /** Text without any of the six white-space characters is one token. */
  lemma OneToken(s: string)
    requires s != "" && forall c :: c in s ==> c !in SPACES
    ensures Tokens(s) == [s]
  {
    assert IsToken(s);
    TokenThen(s, "");
    assert s + "" == s;
  }

  /** Each of the six separates two tokens. */
  lemma TwoTokens(s: string, c: char, t: string)
    requires s != "" && t != "" && c in SPACES && forall d :: d in s || d in t ==> d !in SPACES
    ensures Tokens(s + ([c] + t)) == [s, t]
  {
    var rest := [c] + t;
    assert IsToken(s) && rest[0] == c && IsSpace(c);
    TokenThen(s, rest);
    assert rest[1..] == t;
    OneToken(t);
  }

  ghost predicate FirstDifference(a: string, b: string, i: nat) {
    i < |a| && i < |b| && a[..i] == b[..i] && a[i] < b[i]
  }

  lemma LaterDifference(a: string, b: string, i: nat)
    requires a != [] && b != [] && a[0] == b[0]
    ensures FirstDifference(a[1..], b[1..], i) <==> FirstDifference(a, b, i + 1)
  {
    if i + 1 < |a| && i + 1 < |b| {
      assert a[..i + 1] == [a[0]] + a[1..][..i] && b[..i + 1] == [b[0]] + b[1..][..i];
      if a[..i + 1] == b[..i + 1] {
        assert a[1..][..i] == a[..i + 1][1..] && b[1..][..i] == b[..i + 1][1..];
      }
    }
  }

  /** Keys are in dictionary order: a proper prefix first, and else by the first difference. */
  lemma {:induction false} KeyOrder(a: string, b: string)
    ensures Less(a, b) <==> (a <= b && a != b) || exists i: nat :: FirstDifference(a, b, i)
  {
    if a != [] && b != [] {
      if a[0] == b[0] {
        KeyOrder(a[1..], b[1..]);
        SamePrefix(a, b);
        if i: nat :| FirstDifference(a[1..], b[1..], i) {
          LaterDifference(a, b, i);
        }
        if i: nat :| FirstDifference(a, b, i) {
          assert i > 0;
          LaterDifference(a, b, i - 1);
        }
      } else {
        assert a[0] < b[0] ==> FirstDifference(a, b, 0);
        if i: nat :| FirstDifference(a, b, i) {
          assert i > 0 ==> a[..i][0] == b[..i][0];
        }
      }
    }
  }

  lemma SamePrefix(a: string, b: string)
    requires a != [] && b != [] && a[0] == b[0]
    ensures (a <= b && a != b) <==> (a[1..] <= b[1..] && a[1..] != b[1..])
  {
    assert a == [a[0]] + a[1..] && b == [b[0]] + b[1..];
  }

  // ---------- Lines ----------

  lemma BlankedTwo(s: string, t: string)
    ensures Blanked([s, t]) == " " + s + " " + t
  {
    assert [s, t][1..] == [t];
    BlankedOne(t);
  }

  lemma BlankedFour(a: string, b: string, c: string, d: string)
    ensures Blanked([a, b, c, d]) == " " + a + " " + b + " " + c + " " + d
  {
    assert [a, b, c, d] == [a, b] + [c, d];
    BlankedConcat([a, b], [c, d]);
    BlankedTwo(a, b);
    BlankedTwo(c, d);
  }

  function KeyPart(r: AgentRecord): string {
    (if r.publicKeyHex != "" then " " + "public_key=" + r.publicKeyHex else "") +
    (if r.signatureHex != "" then " " + "signature=" + r.signatureHex else "")
  }

  function MetadataPart(m: Metadata): string {
    if m == [] then "" else " " + "metadata." + m[0].0 + "=" + m[0].1 + MetadataPart(m[1..])
  }

  lemma KeyPartIs(r: AgentRecord)
    ensures Blanked(KeyTokens(r)) == KeyPart(r)
  {
    var key, signature := "public_key=" + r.publicKeyHex, "signature=" + r.signatureHex;
    BlankedOne(key);
    BlankedOne(signature);
    BlankedTwo(key, signature);
    if r.publicKeyHex != "" && r.signatureHex != "" {
      assert KeyTokens(r) == [key, signature];
    } else if r.publicKeyHex != "" {
      assert KeyTokens(r) == [key];
    } else if r.signatureHex != "" {
      assert KeyTokens(r) == [signature];
    }
  }

  lemma {:induction false} MetadataPartIs(m: Metadata)
    ensures Blanked(MetadataTokens(m)) == MetadataPart(m)
  {
    if m != [] {
      MetadataPartIs(m[1..]);
      assert MetadataTokens(m)[1..] == MetadataTokens(m[1..]);
    }
  }

  lemma MainPartIs(r: AgentRecord)
    ensures Blanked(MainTokens(r)) ==
            " " + ("agent_id=" + r.agentId) + " " + ("node_id=" + r.nodeId) + " " + ("endpoint=" + r.endpoint)
            + " " + ("revision=" + Decimal(r.revision))
  {
    BlankedFour("agent_id=" + r.agentId, "node_id=" + r.nodeId, "endpoint=" + r.endpoint, "revision=" + Decimal(r.revision));
  }

  /** What stands behind the word of an agent line, a registration and a merge. */
  lemma RecordLineLayout(r: AgentRecord)
    ensures Blanked(RecordTokens(r)) ==
            " " + ("agent_id=" + r.agentId) + " " + ("node_id=" + r.nodeId) + " " + ("endpoint=" + r.endpoint)
            + " " + ("revision=" + Decimal(r.revision)) + KeyPart(r) + MetadataPart(r.metadata)
  {
    BlankedConcat(MainTokens(r) + KeyTokens(r), MetadataTokens(r.metadata));
    BlankedConcat(MainTokens(r), KeyTokens(r));
    MainPartIs(r);
    KeyPartIs(r);
    MetadataPartIs(r.metadata);
  }

  /** The three lines that carry a record start with their words. */
  lemma RecordWords(r: AgentRecord)
    ensures var rest := Blanked(RecordTokens(r));
      AgentText(r) == "AGENT" + rest && MergeText(r) == "MERGE" + rest && RegisterText(r) == "REGISTER" + rest
  {
  }

  lemma PullLayout(after: u64, limit: u64)
    ensures SyncPullText(after, limit) ==
            "SYNC_PULL" + (" " + ("after_revision=" + Decimal(after)) + " " + ("limit=" + Decimal(limit)))
  {
    BlankedTwo("after_revision=" + Decimal(after), "limit=" + Decimal(limit));
  }

  lemma StatsLayout(active: nat, highest: u64)
    ensures StatsText(active, highest) ==
            "OK" + (" " + ("active_agents=" + Decimal(active)) + " " + ("highest_revision=" + Decimal(highest))) + "\n"
  {
    BlankedTwo("active_agents=" + Decimal(active), "highest_revision=" + Decimal(highest));
  }

  /** An answer that lists agents: its header, a line for each, and END. */
  lemma ListLayout(rs: seq<AgentRecord>)
    ensures ListText("OK message=list", rs) == "OK message=list" + "\n" + Unlines(AgentLines(rs)) + ("END" + "\n")
    ensures LIST_HEADER == "OK message=list" && PULL_HEADER == "OK message=sync_pull"
  {
    var header := ["OK message=list"];
    UnlinesConcat(header + AgentLines(rs), ["END"]);
    UnlinesConcat(header, AgentLines(rs));
    assert header[1..] == [] && ["END"][1..] == [];
  }

  /** The signed payload: one line for each field, and one for each metadata entry. */
  lemma PayloadLayout(r: AgentRecord)
    ensures Payload(r) ==
            "agent_id=" + r.agentId + "\n" + "node_id=" + r.nodeId + "\n" + "endpoint=" + r.endpoint + "\n"
            + "revision=" + Decimal(r.revision) + "\n" + Unlines(MetadataLines(r.metadata))
  {
    MetadataTextIsLines(r.metadata);
  }
}
