/** The line protocol: parsing commands, encoding agent lines, and the round trip between them. */
module ControlProtocol {
  import opened Bytes
  import opened Text
  import opened Records

  // ---------- Fields of a token ----------

  datatype Field =
    AgentIdField | NodeIdField | EndpointField | RevisionField | AfterField | LimitField
    | PublicKeyField | SignatureField | MetadataField | NoField

  /** Which field a token sets, by its prefix, in the order the parser tries them. */
  function FieldOf(token: string): Field {
    if "agent_id=" <= token then AgentIdField
    else if "node_id=" <= token then NodeIdField
    else if "endpoint=" <= token then EndpointField
    else if "revision=" <= token then RevisionField
    else if "after_revision=" <= token then AfterField
    else if "limit=" <= token then LimitField
    else if "public_key=" <= token then PublicKeyField
    else if "signature=" <= token then SignatureField
    else if "metadata." <= token then MetadataField
    else NoField
  }

  /** Set a field other than the revision. */
  function SetField(r: AgentRecord, token: string): AgentRecord {
    match FieldOf(token)
    case AgentIdField => r.(agentId := ValueOf(token))
    case NodeIdField => r.(nodeId := ValueOf(token))
    case EndpointField => r.(endpoint := ValueOf(token))
    case PublicKeyField => r.(publicKeyHex := ValueOf(token))
    case SignatureField => r.(signatureHex := ValueOf(token))
    case MetadataField =>
      var n := EqualsAt(token);
      if n == |token| || n < 9 then r else r.(metadata := Put(r.metadata, token[9..n], token[n + 1..]))
    case _ => r
  }

  // ---------- Commands ----------

  datatype Action = Register | Heartbeat | List | Stats | Merge | SyncPull | Unknown

  datatype Command = Command(
    action: Action,
    registration: AgentRecord,
    agentId: string,
    error: string,
    afterRevision: u64,
    limit: u64)

  const DEFAULT_LIMIT: u64 := 256

  function ActionOf(token: string): Action {
    if token == "REGISTER" then Register
    else if token == "MERGE" then Merge
    else if token == "HEARTBEAT" then Heartbeat
    else if token == "LIST" then List
    else if token == "STATS" then Stats
    else if token == "SYNC_PULL" then SyncPull
    else Unknown
  }

  function BlankCommand(action: Action, expiresAt: int): Command {
    Command(action, EmptyRecord(expiresAt), "", "", 0, DEFAULT_LIMIT)
  }

  /** One round of the parser's token loop; a bad number ends the loop with an error. */
  function TakeToken(c: Command, token: string): Command {
    match FieldOf(token)
    case RevisionField =>
      var parsed := ParseRevision(ValueOf(token), 0);
      if parsed.ok then c.(registration := c.registration.(revision := parsed.value)) else c.(error := "invalid revision")
    case AfterField =>
      var parsed := ParseRevision(ValueOf(token), 0);
      if parsed.ok then c.(afterRevision := parsed.value) else c.(error := "invalid after_revision")
    case LimitField =>
      var parsed := ParseRevision(ValueOf(token), 0);
      if parsed.ok then c.(limit := parsed.value) else c.(error := "invalid limit")
    case AgentIdField => c.(agentId := ValueOf(token), registration := SetField(c.registration, token))
    case _ => c.(registration := SetField(c.registration, token))
  }

  function TakeTokens(c: Command, tokens: seq<string>): Command
    decreases tokens
  {
    if c.error != "" || tokens == [] then c else TakeTokens(TakeToken(c, tokens[0]), tokens[1..])
  }

  function Required(c: Command): Command {
    if c.error != "" then c
    else if c.action in {Register, Merge, Heartbeat} && c.agentId == "" then c.(error := "agent_id is required")
    else if c.action in {Register, Merge} && (c.registration.nodeId == "" || c.registration.endpoint == "")
      then c.(error := "node_id and endpoint are required")
    else c
  }

  /** `expiresAt` is the expiry a registration gets when it is parsed: now plus the heartbeat time. */
  function Parse(line: string, now: int, expiresAt: int): Command {
    var tokens := Tokens(line);
    if tokens == [] then BlankCommand(Unknown, now).(error := "empty command")
    else
      var action := ActionOf(tokens[0]);
      if action == Unknown then BlankCommand(Unknown, now).(error := "unknown command")
      else
        var start := BlankCommand(action, if action in {Register, Merge} then expiresAt else now);
        Required(TakeTokens(start, tokens[1..]))
  }

  method ParseCommand(line: string, now: int, expiresAt: int) returns (command: Command)
    ensures command == Parse(line, now, expiresAt)
  {
    var tokens := SplitTokens(line);
    if tokens == [] {
      return BlankCommand(Unknown, now).(error := "empty command");
    }
    var action := ActionOf(tokens[0]);
    if action == Unknown {
      return BlankCommand(Unknown, now).(error := "unknown command");
    }
    command := BlankCommand(action, if action in {Register, Merge} then expiresAt else now);
    ghost var start := command;
    for index := 1 to |tokens|
      invariant command.error == ""
      invariant TakeTokens(command, tokens[index..]) == TakeTokens(start, tokens[1..])
    {
      assert tokens[index..][0] == tokens[index] && tokens[index..][1..] == tokens[index + 1..];
      command := TakeToken(command, tokens[index]);
      if command.error != "" {
        return;
      }
    }
    command := Required(command);
  }

  // ---------- Encoding ----------

  function MetadataTokens(m: Metadata): seq<string> {
    if m == [] then [] else ["metadata." + m[0].0 + "=" + m[0].1] + MetadataTokens(m[1..])
  }

  function KeyTokens(r: AgentRecord): seq<string> {
    (if r.publicKeyHex != "" then ["public_key=" + r.publicKeyHex] else []) +
    (if r.signatureHex != "" then ["signature=" + r.signatureHex] else [])
  }

  function MainTokens(r: AgentRecord): seq<string> {
    ["agent_id=" + r.agentId, "node_id=" + r.nodeId, "endpoint=" + r.endpoint, "revision=" + Decimal(r.revision)]
  }

  function RecordTokens(r: AgentRecord): seq<string> {
    MainTokens(r) + KeyTokens(r) + MetadataTokens(r.metadata)
  }

  /** An agent line without its line feed. */
  function AgentText(r: AgentRecord): string {
    "AGENT" + Blanked(RecordTokens(r))
  }

  function MergeText(r: AgentRecord): string {
    "MERGE" + Blanked(RecordTokens(r))
  }

  lemma BlankedOne(t: string)
    ensures Blanked([t]) == " " + t
  {
    assert [t][1..] == [];
  }

  lemma BlankedSnoc(front: string, ts: seq<string>, t: string)
    ensures front + Blanked(ts + [t]) == front + Blanked(ts) + (" " + t)
  {
    BlankedConcat(ts, [t]);
    BlankedOne(t);
  }

  method EncodeAgentLine(r: AgentRecord) returns (line: string)
    ensures line == AgentText(r) + "\n"
  {
    ghost var tokens: seq<string>;
    line, tokens := EncodeMain(r);
    if r.publicKeyHex != "" {
      BlankedSnoc("AGENT", tokens, "public_key=" + r.publicKeyHex);
      line := line + (" " + ("public_key=" + r.publicKeyHex));
      tokens := tokens + ["public_key=" + r.publicKeyHex];
    }
    if r.signatureHex != "" {
      BlankedSnoc("AGENT", tokens, "signature=" + r.signatureHex);
      line := line + (" " + ("signature=" + r.signatureHex));
      tokens := tokens + ["signature=" + r.signatureHex];
    }
    assert tokens == MainTokens(r) + KeyTokens(r);
    line := AppendMetadata(line, r.metadata, tokens);
    line := line + "\n";
  }

  method EncodeMain(r: AgentRecord) returns (line: string, ghost tokens: seq<string>)
    ensures tokens == MainTokens(r) && line == "AGENT" + Blanked(tokens)
  {
    var a, b := "agent_id=" + r.agentId, "node_id=" + r.nodeId;
    var c, d := "endpoint=" + r.endpoint, "revision=" + Decimal(r.revision);
    line := "AGENT" + (" " + a) + (" " + b) + (" " + c) + (" " + d);
    BlankedSnoc("AGENT", [], a);
    BlankedSnoc("AGENT", [] + [a], b);
    BlankedSnoc("AGENT", [] + [a] + [b], c);
    BlankedSnoc("AGENT", [] + [a] + [b] + [c], d);
    tokens := [] + [a] + [b] + [c] + [d];
    assert "AGENT" + Blanked([]) == "AGENT";
  }

  method AppendMetadata(start: string, m: Metadata, ghost tokens: seq<string>) returns (line: string)
    requires start == "AGENT" + Blanked(tokens)
    ensures line == "AGENT" + Blanked(tokens + MetadataTokens(m))
  {
    line := start;
    ghost var done := tokens;
    for i := 0 to |m|
      invariant line == "AGENT" + Blanked(done)
      invariant done + MetadataTokens(m[i..]) == tokens + MetadataTokens(m)
    {
      var (key, value) := m[i];
      var token := "metadata." + key + "=" + value;
      BlankedSnoc("AGENT", done, token);
      assert m[i..][0] == m[i] && m[i..][1..] == m[i + 1..];
      line := line + (" " + token);
      done := done + [token];
    }
    assert m[|m|..] == [];
    assert done == tokens + MetadataTokens(m);
  }

  /** Reuse the agent line: put another word in front and drop the line feed. */
  method EncodeMergeCommand(r: AgentRecord) returns (command: string)
    ensures command == MergeText(r)
  {
    var line := EncodeAgentLine(r);
    command := "MERGE" + line[5..];
    assert command == "MERGE" + Blanked(RecordTokens(r)) + "\n";
    command := command[..|command| - 1];
  }

  function SyncPullText(after: u64, limit: u64): string {
    "SYNC_PULL" + Blanked(["after_revision=" + Decimal(after), "limit=" + Decimal(limit)])
  }

  // ---------- Wire-safe records ----------

  ghost predicate SafeMetadata(m: Metadata) {
    && SortedMetadata(m)
    && forall i :: 0 <= i < |m| ==> NoSpace(m[i].0) && Lacks(m[i].0, '=') && NoSpace(m[i].1)
  }

  /** No field holds white space, and no metadata key an '='. */
  ghost predicate SafeFields(r: AgentRecord) {
    && NoSpace(r.agentId) && NoSpace(r.nodeId) && NoSpace(r.endpoint)
    && NoSpace(r.publicKeyHex) && NoSpace(r.signatureHex) && SafeMetadata(r.metadata)
  }

  ghost predicate WireSafe(r: AgentRecord) {
    SafeFields(r) && r.agentId != "" && r.nodeId != "" && r.endpoint != ""
  }

  lemma SafePut(m: Metadata, k: string, v: string)
    requires SafeMetadata(m) && NoSpace(k) && Lacks(k, '=') && NoSpace(v)
    ensures SafeMetadata(Put(m, k, v))
  {
    PutSorted(m, k, v);
    var n := Put(m, k, v);
    forall i | 0 <= i < |n| ensures NoSpace(n[i].0) && Lacks(n[i].0, '=') && NoSpace(n[i].1) {
      assert n[i] in n;
      PutKeys(m, k, v, n[i]);
    }
  }

  lemma SetFieldSafe(r: AgentRecord, token: string)
    requires SafeFields(r) && NoSpace(token)
    ensures SafeFields(SetField(r, token))
  {
    var n := EqualsAt(token);
    if FieldOf(token) == MetadataField && 9 <= n < |token| {
      SafePut(r.metadata, token[9..n], token[n + 1..]);
    }
  }

  lemma {:induction false} TakeTokensSafe(c: Command, tokens: seq<string>)
    requires SafeFields(c.registration) && c.agentId == c.registration.agentId
    requires forall t :: t in tokens ==> NoSpace(t)
    ensures var d := TakeTokens(c, tokens); SafeFields(d.registration) && d.agentId == d.registration.agentId && d.action == c.action
    decreases tokens
  {
    if c.error == "" && tokens != [] {
      assert tokens[0] in tokens;
      SetFieldSafe(c.registration, tokens[0]);
      TakeTokensSafe(TakeToken(c, tokens[0]), tokens[1..]);
    }
  }

  /** Whatever line arrives, a registration or merge that parses without error is wire-safe. */
  lemma ParsedIsWireSafe(line: string, now: int, expiresAt: int)
    ensures var c := Parse(line, now, expiresAt);
      c.error == "" && c.action in {Register, Merge} ==> WireSafe(c.registration) && c.agentId == c.registration.agentId
  {
    var tokens := Tokens(line);
    if tokens != [] && ActionOf(tokens[0]) != Unknown {
      var action := ActionOf(tokens[0]);
      assert forall t :: t in tokens[1..] ==> IsToken(t);
      TakeTokensSafe(BlankCommand(action, if action in {Register, Merge} then expiresAt else now), tokens[1..]);
    }
  }

  // ---------- The round trip ----------

  lemma PrefixHolds(p: string, v: string)
    ensures p <= p + v
  {
  }

  lemma PrefixFails(p: string, t: string, i: nat)
    requires i < |p| && i < |t| && p[i] != t[i]
    ensures !(p <= t)
  {
  }

  lemma ValueAfter(key: string, v: string)
    requires Lacks(key, '=')
    ensures ValueOf(key + "=" + v) == v
  {
    EqualsAfterKey(key, v);
  }

  lemma AgentIdToken(v: string)
    ensures FieldOf("agent_id=" + v) == AgentIdField && ValueOf("agent_id=" + v) == v
  {
    var t := "agent_id=" + v;
    PrefixHolds("agent_id=", v);
    ValueAfter("agent_id", v);
    assert t == "agent_id" + "=" + v;
  }

  lemma NodeIdToken(v: string)
    ensures FieldOf("node_id=" + v) == NodeIdField && ValueOf("node_id=" + v) == v
  {
    var t := "node_id=" + v;
    PrefixFails("agent_id=", t, 0);
    PrefixHolds("node_id=", v);
    ValueAfter("node_id", v);
    assert t == "node_id" + "=" + v;
  }

  lemma EndpointToken(v: string)
    ensures FieldOf("endpoint=" + v) == EndpointField && ValueOf("endpoint=" + v) == v
  {
    var t := "endpoint=" + v;
    PrefixFails("agent_id=", t, 0);
    PrefixFails("node_id=", t, 0);
    PrefixHolds("endpoint=", v);
    ValueAfter("endpoint", v);
    assert t == "endpoint" + "=" + v;
  }

  lemma RevisionToken(v: string)
    ensures FieldOf("revision=" + v) == RevisionField && ValueOf("revision=" + v) == v
  {
    var t := "revision=" + v;
    PrefixFails("agent_id=", t, 0);
    PrefixFails("node_id=", t, 0);
    PrefixFails("endpoint=", t, 0);
    PrefixHolds("revision=", v);
    ValueAfter("revision", v);
    assert t == "revision" + "=" + v;
  }

  lemma AfterToken(v: string)
    ensures FieldOf("after_revision=" + v) == AfterField && ValueOf("after_revision=" + v) == v
  {
    var t := "after_revision=" + v;
    PrefixFails("agent_id=", t, 1);
    PrefixFails("node_id=", t, 0);
    PrefixFails("endpoint=", t, 0);
    PrefixFails("revision=", t, 0);
    PrefixHolds("after_revision=", v);
    ValueAfter("after_revision", v);
    assert t == "after_revision" + "=" + v;
  }

  lemma LimitToken(v: string)
    ensures FieldOf("limit=" + v) == LimitField && ValueOf("limit=" + v) == v
  {
    var t := "limit=" + v;
    PrefixFails("agent_id=", t, 0);
    PrefixFails("node_id=", t, 0);
    PrefixFails("endpoint=", t, 0);
    PrefixFails("revision=", t, 0);
    PrefixFails("after_revision=", t, 0);
    PrefixHolds("limit=", v);
    ValueAfter("limit", v);
    assert t == "limit" + "=" + v;
  }

  lemma PublicKeyToken(v: string)
    ensures FieldOf("public_key=" + v) == PublicKeyField && ValueOf("public_key=" + v) == v
  {
    var t := "public_key=" + v;
    PrefixFails("agent_id=", t, 0);
    PrefixFails("node_id=", t, 0);
    PrefixFails("endpoint=", t, 0);
    PrefixFails("revision=", t, 0);
    PrefixFails("after_revision=", t, 0);
    PrefixFails("limit=", t, 0);
    PrefixHolds("public_key=", v);
    ValueAfter("public_key", v);
    assert t == "public_key" + "=" + v;
  }

  lemma SignatureToken(v: string)
    ensures FieldOf("signature=" + v) == SignatureField && ValueOf("signature=" + v) == v
  {
    var t := "signature=" + v;
    PrefixFails("agent_id=", t, 0);
    PrefixFails("node_id=", t, 0);
    PrefixFails("endpoint=", t, 0);
    PrefixFails("revision=", t, 0);
    PrefixFails("after_revision=", t, 0);
    PrefixFails("limit=", t, 0);
    PrefixFails("public_key=", t, 0);
    PrefixHolds("signature=", v);
    ValueAfter("signature", v);
    assert t == "signature" + "=" + v;
  }

  lemma MetadataPrefix(v: string)
    ensures FieldOf("metadata." + v) == MetadataField
  {
    var t := "metadata." + v;
    PrefixFails("agent_id=", t, 0);
    PrefixFails("node_id=", t, 0);
    PrefixFails("endpoint=", t, 0);
    PrefixFails("revision=", t, 0);
    PrefixFails("after_revision=", t, 0);
    PrefixFails("limit=", t, 0);
    PrefixFails("public_key=", t, 0);
    PrefixFails("signature=", t, 0);
    PrefixHolds("metadata.", v);
  }

  lemma MetadataFieldOf(k: string, v: string)
    requires Lacks(k, '=')
    ensures var t := "metadata." + k + "=" + v;
      FieldOf(t) == MetadataField && EqualsAt(t) == 9 + |k| && t[9..9 + |k|] == k && t[9 + |k| + 1..] == v
  {
    var t := "metadata." + k + "=" + v;
    MetadataPrefix(k + "=" + v);
    assert t == "metadata." + (k + "=" + v);
    assert Lacks("metadata." + k, '=');
    EqualsAfterKey("metadata." + k, v);
  }

  /** What the parser does to the registration when nothing is wrong with the numbers. */
  function TakeField(r: AgentRecord, token: string): AgentRecord {
    if FieldOf(token) == RevisionField then r.(revision := ParseRevision(ValueOf(token), r.revision).value)
    else SetField(r, token)
  }

  function TakeFields(r: AgentRecord, tokens: seq<string>): AgentRecord
    decreases tokens
  {
    if tokens == [] then r else TakeFields(TakeField(r, tokens[0]), tokens[1..])
  }

  lemma {:induction false} TakeFieldsConcat(r: AgentRecord, x: seq<string>, y: seq<string>)
    ensures TakeFields(r, x + y) == TakeFields(TakeFields(r, x), y)
    decreases x
  {
    if x == [] {
      assert x + y == y;
    } else {
      assert (x + y)[1..] == x[1..] + y;
      TakeFieldsConcat(TakeField(r, x[0]), x[1..], y);
    }
  }

  lemma TakeFieldsOne(r: AgentRecord, t: string)
    ensures TakeFields(r, [t]) == TakeField(r, t)
  {
    assert [t][1..] == [];
  }

  lemma TakeFieldsTwo(r: AgentRecord, s: string, t: string)
    ensures TakeFields(r, [s, t]) == TakeField(TakeField(r, s), t)
  {
    assert [s, t] == [s] + [t];
    TakeFieldsConcat(r, [s], [t]);
    TakeFieldsOne(r, s);
    TakeFieldsOne(TakeField(r, s), t);
  }

  lemma TakeMain(blank: AgentRecord, r: AgentRecord)
    ensures TakeFields(blank, MainTokens(r)) ==
            blank.(agentId := r.agentId, nodeId := r.nodeId, endpoint := r.endpoint, revision := r.revision)
  {
    var a, b := "agent_id=" + r.agentId, "node_id=" + r.nodeId;
    var c, d := "endpoint=" + r.endpoint, "revision=" + Decimal(r.revision);
    var two := TakeFields(blank, [a, b]);
    assert MainTokens(r) == [a, b] + [c, d];
    TakeFieldsConcat(blank, [a, b], [c, d]);
    TakeFieldsTwo(blank, a, b);
    TakeFieldsTwo(two, c, d);
    AgentIdToken(r.agentId);
    NodeIdToken(r.nodeId);
    EndpointToken(r.endpoint);
    RevisionToken(Decimal(r.revision));
    RevisionRoundTrip(r.revision, blank.revision);
  }

  lemma TakeKeys(blank: AgentRecord, r: AgentRecord)
    requires blank.publicKeyHex == "" && blank.signatureHex == ""
    ensures TakeFields(blank, KeyTokens(r)) == blank.(publicKeyHex := r.publicKeyHex, signatureHex := r.signatureHex)
  {
    var keys := if r.publicKeyHex != "" then ["public_key=" + r.publicKeyHex] else [];
    var signatures := if r.signatureHex != "" then ["signature=" + r.signatureHex] else [];
    PublicKeyToken(r.publicKeyHex);
    SignatureToken(r.signatureHex);
    TakeFieldsConcat(blank, keys, signatures);
    if r.publicKeyHex != "" {
      TakeFieldsOne(blank, keys[0]);
    }
    if r.signatureHex != "" {
      TakeFieldsOne(TakeFields(blank, keys), signatures[0]);
    }
  }

  lemma {:induction false} TakeMetadata(blank: AgentRecord, m: Metadata)
    requires forall i :: 0 <= i < |m| ==> Lacks(m[i].0, '=')
    ensures TakeFields(blank, MetadataTokens(m)) == blank.(metadata := PutAll(blank.metadata, m))
    decreases m
  {
    if m != [] {
      var t := "metadata." + m[0].0 + "=" + m[0].1;
      MetadataFieldOf(m[0].0, m[0].1);
      assert MetadataTokens(m)[1..] == MetadataTokens(m[1..]);
      TakeMetadata(blank.(metadata := Put(blank.metadata, m[0].0, m[0].1)), m[1..]);
    }
  }

  /** The tokens of a wire-safe record set exactly its fields. */
  lemma TakeRecord(r: AgentRecord, expiresAt: int)
    requires WireSafe(r)
    ensures TakeFields(EmptyRecord(expiresAt), RecordTokens(r)) == r.(expiresAt := expiresAt)
  {
    var blank := EmptyRecord(expiresAt);
    TakeFieldsConcat(blank, MainTokens(r) + KeyTokens(r), MetadataTokens(r.metadata));
    TakeFieldsConcat(blank, MainTokens(r), KeyTokens(r));
    TakeMain(blank, r);
    TakeKeys(TakeFields(blank, MainTokens(r)), r);
    TakeMetadata(TakeFields(blank, MainTokens(r) + KeyTokens(r)), r.metadata);
    assert [] + r.metadata == r.metadata;
    PutAllRebuilds([], r.metadata);
  }

  /** A token of a record: no command option, and a number where a number belongs. */
  predicate RecordToken(t: string) {
    && IsToken(t)
    && FieldOf(t) != AfterField && FieldOf(t) != LimitField
    && (FieldOf(t) == RevisionField ==> ParseRevision(ValueOf(t), 0).ok)
  }

  lemma {:induction false} CommandTakesFields(c: Command, tokens: seq<string>)
    requires c.error == "" && c.agentId == c.registration.agentId
    requires AllTokens(tokens)
    ensures var r := TakeFields(c.registration, tokens);
      TakeTokens(c, tokens) == c.(registration := r, agentId := r.agentId)
    decreases tokens
  {
    if tokens != [] {
      assert RecordToken(tokens[0]);
      CommandTakesFields(TakeToken(c, tokens[0]), tokens[1..]);
    }
  }

  lemma {:induction false} MetadataTokensAre(m: Metadata)
    requires SafeMetadata(m)
    ensures AllTokens(MetadataTokens(m))
  {
    if m != [] {
      var t := "metadata." + m[0].0 + "=" + m[0].1;
      MetadataFieldOf(m[0].0, m[0].1);
      PrefixedToken("metadata.", m[0].0);
      PrefixedToken("metadata." + m[0].0, "=");
      PrefixedToken("metadata." + m[0].0 + "=", m[0].1);
      MetadataTokensAre(m[1..]);
    }
  }

  lemma PrefixedToken(prefix: string, v: string)
    requires IsToken(prefix) && NoSpace(v)
    ensures IsToken(prefix + v)
  {
    NoSpaceConcat(prefix, v);
  }

  lemma AgentIdIsToken(v: string)
    requires NoSpace(v)
    ensures RecordToken("agent_id=" + v)
  {
    AgentIdToken(v);
    PrefixedToken("agent_id=", v);
  }

  lemma NodeIdIsToken(v: string)
    requires NoSpace(v)
    ensures RecordToken("node_id=" + v)
  {
    NodeIdToken(v);
    PrefixedToken("node_id=", v);
  }

  lemma EndpointIsToken(v: string)
    requires NoSpace(v)
    ensures RecordToken("endpoint=" + v)
  {
    EndpointToken(v);
    PrefixedToken("endpoint=", v);
  }

  lemma RevisionIsToken(n: u64)
    ensures RecordToken("revision=" + Decimal(n))
  {
    DecimalIsToken(n);
    RevisionToken(Decimal(n));
    PrefixedToken("revision=", Decimal(n));
    NumberIsToken("revision=" + Decimal(n), n);
  }

  lemma NumberIsToken(t: string, n: u64)
    requires IsToken(t) && FieldOf(t) == RevisionField && ValueOf(t) == Decimal(n)
    ensures RecordToken(t)
  {
    RevisionRoundTrip(n, 0);
  }

  lemma PublicKeyIsToken(v: string)
    requires NoSpace(v)
    ensures RecordToken("public_key=" + v)
  {
    PublicKeyToken(v);
    PrefixedToken("public_key=", v);
  }

  lemma SignatureIsToken(v: string)
    requires NoSpace(v)
    ensures RecordToken("signature=" + v)
  {
    SignatureToken(v);
    PrefixedToken("signature=", v);
  }

  ghost predicate AllTokens(ts: seq<string>) {
    forall i :: 0 <= i < |ts| ==> RecordToken(ts[i])
  }

  lemma FourTokens(a: string, b: string, c: string, d: string)
    requires RecordToken(a) && RecordToken(b) && RecordToken(c) && RecordToken(d)
    ensures AllTokens([a, b, c, d])
  {
  }

  lemma MainTokensAre(r: AgentRecord)
    requires WireSafe(r)
    ensures AllTokens(MainTokens(r))
  {
    AgentIdIsToken(r.agentId);
    NodeIdIsToken(r.nodeId);
    EndpointIsToken(r.endpoint);
    RevisionIsToken(r.revision);
    FourTokens("agent_id=" + r.agentId, "node_id=" + r.nodeId, "endpoint=" + r.endpoint, "revision=" + Decimal(r.revision));
  }

  lemma KeyTokensAre(r: AgentRecord)
    requires WireSafe(r)
    ensures AllTokens(KeyTokens(r))
  {
    PublicKeyIsToken(r.publicKeyHex);
    SignatureIsToken(r.signatureHex);
  }

  lemma RecordTokensAre(r: AgentRecord)
    requires WireSafe(r)
    ensures AllTokens(RecordTokens(r))
  {
    MainTokensAre(r);
    KeyTokensAre(r);
    MetadataTokensAre(r.metadata);
  }

  lemma TokensOfRecordLine(word: string, r: AgentRecord)
    requires IsToken(word) && WireSafe(r)
    ensures Tokens(word + Blanked(RecordTokens(r))) == [word] + RecordTokens(r)
  {
    var line := word + Blanked(RecordTokens(r));
    RecordTokensAre(r);
    assert forall t :: t in RecordTokens(r) ==> IsToken(t);
    TokensOfLine(word, RecordTokens(r), "");
    assert line == line + "";
  }

  lemma ParseAs(line: string, now: int, expiresAt: int, first: string, rest: seq<string>)
    requires Tokens(line) == [first] + rest && ActionOf(first) != Unknown
    ensures var action := ActionOf(first);
      Parse(line, now, expiresAt) ==
      Required(TakeTokens(BlankCommand(action, if action in {Register, Merge} then expiresAt else now), rest))
  {
    assert Tokens(line)[0] == first && Tokens(line)[1..] == rest;
  }

  lemma Words()
    ensures ActionOf("MERGE") == Merge && ActionOf("STATS") == Stats && ActionOf("SYNC_PULL") == SyncPull
    ensures ActionOf("REGISTER") == Register && ActionOf("HEARTBEAT") == Heartbeat && ActionOf("LIST") == List
  {
  }

  function RegisterText(r: AgentRecord): string {
    "REGISTER" + Blanked(RecordTokens(r))
  }

  /** A line of a command word and a record carries a wire-safe record over unchanged, but for the expiry. */
  lemma RecordLineParses(word: string, action: Action, r: AgentRecord, now: int, expiresAt: int)
    requires IsToken(word) && ActionOf(word) == action && (action == Register || action == Merge) && WireSafe(r)
    ensures Parse(word + Blanked(RecordTokens(r)), now, expiresAt) ==
            Command(action, r.(expiresAt := expiresAt), r.agentId, "", 0, 256)
  {
    TokensOfRecordLine(word, r);
    RecordTokensAre(r);
    ParseAs(word + Blanked(RecordTokens(r)), now, expiresAt, word, RecordTokens(r));
    CommandTakesFields(BlankCommand(action, expiresAt), RecordTokens(r));
    TakeRecord(r, expiresAt);
  }

  /** A merge command carries a wire-safe record over. */
  lemma MergeRoundTrip(r: AgentRecord, now: int, expiresAt: int)
    requires WireSafe(r)
    ensures Parse(MergeText(r), now, expiresAt) ==
            Command(Merge, r.(expiresAt := expiresAt), r.agentId, "", 0, 256)
  {
    Words();
    RecordLineParses("MERGE", Merge, r, now, expiresAt);
  }

  /** So does a registration. */
  lemma RegisterRoundTrip(r: AgentRecord, now: int, expiresAt: int)
    requires WireSafe(r)
    ensures Parse(RegisterText(r), now, expiresAt) ==
            Command(Register, r.(expiresAt := expiresAt), r.agentId, "", 0, 256)
  {
    Words();
    RecordLineParses("REGISTER", Register, r, now, expiresAt);
  }

  function HeartbeatText(id: string, revision: u64): string {
    "HEARTBEAT" + Blanked(["agent_id=" + id, "revision=" + Decimal(revision)])
  }

  lemma HeartbeatTokens(id: string, revision: u64)
    requires NoSpace(id)
    ensures Tokens(HeartbeatText(id, revision)) == ["HEARTBEAT"] + ["agent_id=" + id, "revision=" + Decimal(revision)]
  {
    var a, b := "agent_id=" + id, "revision=" + Decimal(revision);
    AgentIdIsToken(id);
    RevisionIsToken(revision);
    TokensOfLine("HEARTBEAT", [a, b], "");
    assert HeartbeatText(id, revision) == "HEARTBEAT" + Blanked([a, b]) + "";
  }

  lemma TakeBeat(c: Command, s: string, t: string, id: string, revision: u64)
    requires c.error == "" && FieldOf(s) == AgentIdField && ValueOf(s) == id
    requires FieldOf(t) == RevisionField && ValueOf(t) == Decimal(revision)
    ensures TakeTokens(c, [s, t]) == c.(agentId := id, registration := c.registration.(agentId := id, revision := revision))
  {
    RevisionRoundTrip(revision, 0);
    TakeTokensTwo(c, s, t);
  }

  /** A heartbeat names its agent and revision. */
  lemma HeartbeatRoundTrip(id: string, revision: u64, now: int, expiresAt: int)
    requires NoSpace(id) && id != ""
    ensures Parse(HeartbeatText(id, revision), now, expiresAt) ==
            Command(Heartbeat, EmptyRecord(now).(agentId := id, revision := revision), id, "", 0, 256)
  {
    var a, b := "agent_id=" + id, "revision=" + Decimal(revision);
    HeartbeatTokens(id, revision);
    AgentIdToken(id);
    RevisionToken(Decimal(revision));
    Words();
    ParseAs(HeartbeatText(id, revision), now, expiresAt, "HEARTBEAT", [a, b]);
    TakeBeat(BlankCommand(Heartbeat, now), a, b, id, revision);
  }

  lemma {:induction false} TokensKeepExpiry(c: Command, tokens: seq<string>)
    ensures TakeTokens(c, tokens).registration.expiresAt == c.registration.expiresAt
    ensures TakeTokens(c, tokens).action == c.action
    decreases tokens
  {
    if c.error == "" && tokens != [] {
      TokensKeepExpiry(TakeToken(c, tokens[0]), tokens[1..]);
    }
  }

  /** Whatever the line says, a registration or merge gets the given expiry. */
  lemma ParsedExpiry(line: string, now: int, expiresAt: int)
    ensures var c := Parse(line, now, expiresAt);
      c.action == Register || c.action == Merge ==> c.registration.expiresAt == expiresAt
  {
    var tokens := Tokens(line);
    if tokens != [] && ActionOf(tokens[0]) != Unknown {
      var action := ActionOf(tokens[0]);
      TokensKeepExpiry(BlankCommand(action, if action in {Register, Merge} then expiresAt else now), tokens[1..]);
    }
  }

  lemma PullTokens(after: u64, limit: u64)
    ensures Tokens(SyncPullText(after, limit)) ==
            ["SYNC_PULL"] + ["after_revision=" + Decimal(after), "limit=" + Decimal(limit)]
  {
    var a, b := "after_revision=" + Decimal(after), "limit=" + Decimal(limit);
    DecimalIsToken(after);
    DecimalIsToken(limit);
    PrefixedToken("after_revision=", Decimal(after));
    PrefixedToken("limit=", Decimal(limit));
    TokensOfLine("SYNC_PULL", [a, b], "");
    assert SyncPullText(after, limit) == "SYNC_PULL" + Blanked([a, b]) + "";
  }

  lemma TakeTokensTwo(c: Command, s: string, t: string)
    requires c.error == "" && TakeToken(c, s).error == ""
    ensures TakeTokens(c, [s, t]) == TakeToken(TakeToken(c, s), t)
  {
    assert [s, t][1..] == [t] && [t][1..] == [];
    assert TakeTokens(TakeToken(c, s), [t]) == TakeTokens(TakeToken(TakeToken(c, s), t), []);
  }

  lemma TakePull(c: Command, after: u64, limit: u64)
    requires c.error == ""
    ensures TakeTokens(c, ["after_revision=" + Decimal(after), "limit=" + Decimal(limit)])
         == c.(afterRevision := after, limit := limit)
  {
    AfterToken(Decimal(after));
    LimitToken(Decimal(limit));
    TakeCursor(c, "after_revision=" + Decimal(after), "limit=" + Decimal(limit), after, limit);
  }

  lemma TakeCursor(c: Command, s: string, t: string, after: u64, limit: u64)
    requires c.error == ""
    requires FieldOf(s) == AfterField && ValueOf(s) == Decimal(after)
    requires FieldOf(t) == LimitField && ValueOf(t) == Decimal(limit)
    ensures TakeTokens(c, [s, t]) == c.(afterRevision := after, limit := limit)
  {
    RevisionRoundTrip(after, 0);
    RevisionRoundTrip(limit, 0);
    TakeTokensTwo(c, s, t);
  }

  /** A pull command carries its cursor and limit over. */
  lemma SyncPullRoundTrip(after: u64, limit: u64, now: int, expiresAt: int)
    ensures Parse(SyncPullText(after, limit), now, expiresAt) ==
            Command(SyncPull, EmptyRecord(now), "", "", after, limit)
  {
    PullTokens(after, limit);
    Words();
    ParseAs(SyncPullText(after, limit), now, expiresAt, "SYNC_PULL",
            ["after_revision=" + Decimal(after), "limit=" + Decimal(limit)]);
    TakePull(BlankCommand(SyncPull, now), after, limit);
  }
}
