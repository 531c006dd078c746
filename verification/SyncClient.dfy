/** The client side of push-pull sync, over the text protocol. */
module SyncClient {
  import opened Bytes
  import opened Text
  import opened Records
  import opened Crypto
  import opened Identity
  import opened Registry
  import opened ControlProtocol
  import opened LineHandler

  // ---------- Reading answers ----------

  /** The record of an agent line, if it is one and names an agent. */
  function AgentOf(line: string, expiresAt: int): Option<AgentRecord> {
    var tokens := Tokens(line);
    if tokens == [] || tokens[0] != "AGENT" then None
    else
      var r := TakeFields(EmptyRecord(expiresAt), tokens[1..]);
      if r.agentId == "" then None else Some(r)
  }

  function Somes(found: seq<Option<AgentRecord>>): seq<AgentRecord> {
    if found == [] then []
    else Ones(found[0]) + Somes(found[1..])
  }

  function Ones(found: Option<AgentRecord>): seq<AgentRecord> {
    if found.Some? then [found.value] else []
  }

  function ReadLines(lines: seq<string>, expiresAt: int): (found: seq<Option<AgentRecord>>)
    ensures |found| == |lines|
    ensures forall i :: 0 <= i < |lines| ==> found[i] == AgentOf(lines[i], expiresAt)
  {
    EachLine(Reader(expiresAt), lines)
  }

  function Reader(expiresAt: int): string -> Option<AgentRecord> {
    line => AgentOf(line, expiresAt)
  }

  function EachLine<T>(read: string -> T, lines: seq<string>): (found: seq<T>)
    ensures |found| == |lines|
    ensures forall i :: 0 <= i < |lines| ==> found[i] == read(lines[i])
  {
    seq(|lines|, i requires 0 <= i < |lines| => read(lines[i]))
  }

  lemma EachLineConcat<T>(read: string -> T, x: seq<string>, y: seq<string>)
    ensures EachLine(read, x + y) == EachLine(read, x) + EachLine(read, y)
  {
  }

  function AgentsOf(lines: seq<string>, expiresAt: int): seq<AgentRecord> {
    Somes(ReadLines(lines, expiresAt))
  }

  method ReadAgentLine(line: string, expiresAt: int) returns (found: Option<AgentRecord>)
    ensures found == AgentOf(line, expiresAt)
  {
    var tokens := SplitTokens(line);
    if tokens == [] || tokens[0] != "AGENT" {
      return None;
    }
    var r := EmptyRecord(expiresAt);
    for i := 1 to |tokens|
      invariant TakeFields(r, tokens[i..]) == TakeFields(EmptyRecord(expiresAt), tokens[1..])
    {
      assert tokens[i..][0] == tokens[i] && tokens[i..][1..] == tokens[i + 1..];
      r := TakeField(r, tokens[i]);
    }
    found := if r.agentId == "" then None else Some(r);
  }

  lemma SomesPrefix(found: seq<Option<AgentRecord>>, i: nat)
    requires i < |found|
    ensures Somes(found[..i + 1]) == Somes(found[..i]) + Ones(found[i])
  {
    var one := [found[i]];
    assert found[..i + 1] == found[..i] + one;
    SomesConcat(found[..i], one);
    assert one[1..] == [] && Somes(one) == Ones(one[0]) + [];
  }

  lemma Regroup(x: seq<AgentRecord>, y: seq<AgentRecord>, z: seq<AgentRecord>)
    ensures x + (y + z) == (x + y) + z
  {
  }

  lemma {:induction false} SomesConcat(x: seq<Option<AgentRecord>>, y: seq<Option<AgentRecord>>)
    ensures Somes(x + y) == Somes(x) + Somes(y)
  {
    if x == [] {
      assert x + y == y;
    } else {
      assert (x + y)[0] == x[0] && (x + y)[1..] == x[1..] + y;
      SomesConcat(x[1..], y);
      Regroup(Ones(x[0]), Somes(x[1..]), Somes(y));
    }
  }

  method ParseAgentLines(response: string, expiresAt: int) returns (records: seq<AgentRecord>)
    ensures records == AgentsOf(Lines(response), expiresAt)
  {
    var lines := Lines(response);
    records := [];
    ghost var all := ReadLines(lines, expiresAt);
    for i := 0 to |lines|
      invariant records == Somes(all[..i])
    {
      var found := ReadAgentLine(lines[i], expiresAt);
      SomesPrefix(all, i);
      if found.Some? {
        records := records + [found.value];
      }
    }
    assert all[..|lines|] == all;
  }

  /** The number behind the first `highest_revision=` token, or 0. */
  function HighestIn(tokens: seq<string>): u64 {
    if tokens == [] then 0
    else if "highest_revision=" <= tokens[0] then ParseRevision(ValueOf(tokens[0]), 0).value
    else HighestIn(tokens[1..])
  }

  method ParseHighestRevision(response: string) returns (revision: u64)
    ensures revision == HighestIn(Tokens(response))
  {
    var tokens := SplitTokens(response);
    for i := 0 to |tokens|
      invariant HighestIn(tokens[i..]) == HighestIn(tokens)
    {
      assert tokens[i..][0] == tokens[i] && tokens[i..][1..] == tokens[i + 1..];
      if "highest_revision=" <= tokens[i] {
        return ParseRevision(ValueOf(tokens[i]), 0).value;
      }
    }
    assert tokens[|tokens|..] == [];
    revision := 0;
  }

  // ---------- What the wire delivers ----------

  function Restamp(rs: seq<AgentRecord>, expiresAt: int): (out: seq<AgentRecord>)
    ensures |out| == |rs|
    ensures forall i :: 0 <= i < |rs| ==> out[i] == rs[i].(expiresAt := expiresAt)
  {
    if rs == [] then [] else [rs[0].(expiresAt := expiresAt)] + Restamp(rs[1..], expiresAt)
  }

  ghost predicate AllWireSafe(rs: seq<AgentRecord>) {
    forall i :: 0 <= i < |rs| ==> WireSafe(rs[i])
  }

  lemma TokensOfAgent(r: AgentRecord)
    requires WireSafe(r)
    ensures Tokens(AgentText(r)) == ["AGENT"] + RecordTokens(r)
  {
    RecordTokensAre(r);
    assert forall t :: t in RecordTokens(r) ==> IsToken(t);
    TokensOfLine("AGENT", RecordTokens(r), "");
    assert AgentText(r) == "AGENT" + Blanked(RecordTokens(r)) + "";
  }

  /** An agent line reads back as the record it was written from. */
  lemma AgentLineRoundTrip(r: AgentRecord, expiresAt: int)
    requires WireSafe(r)
    ensures AgentOf(AgentText(r), expiresAt) == Some(r.(expiresAt := expiresAt))
  {
    TokensOfAgent(r);
    assert Tokens(AgentText(r))[1..] == RecordTokens(r);
    TakeRecord(r, expiresAt);
  }

  lemma {:induction false} SomesOfAll(found: seq<Option<AgentRecord>>, out: seq<AgentRecord>)
    requires |found| == |out|
    requires forall i :: 0 <= i < |found| ==> found[i] == Some(out[i])
    ensures Somes(found) == out
  {
    if found != [] {
      SomesOfAll(found[1..], out[1..]);
    }
  }

  lemma SomesOfNone()
    ensures Somes([None]) == []
  {
    var one: seq<Option<AgentRecord>> := [None];
    assert one[1..] == [];
  }

  lemma ReadAgentLines(rs: seq<AgentRecord>, expiresAt: int)
    requires AllWireSafe(rs)
    ensures Somes(ReadLines(AgentLines(rs), expiresAt)) == Restamp(rs, expiresAt)
  {
    var lines, out := AgentLines(rs), Restamp(rs, expiresAt);
    var found := ReadLines(lines, expiresAt);
    forall i | 0 <= i < |rs| ensures found[i] == Some(out[i]) {
      AgentLineRoundTrip(rs[i], expiresAt);
    }
    SomesOfAll(found, out);
  }

  lemma ReadOne(line: string, expiresAt: int)
    requires AgentOf(line, expiresAt) == None
    ensures ReadLines([line], expiresAt) == [None]
  {
  }

  lemma ReadConcat(x: seq<string>, y: seq<string>, expiresAt: int)
    ensures AgentsOf(x + y, expiresAt) == AgentsOf(x, expiresAt) + AgentsOf(y, expiresAt)
  {
    EachLineConcat(Reader(expiresAt), x, y);
    SomesConcat(ReadLines(x, expiresAt), ReadLines(y, expiresAt));
  }

  /** A line that is no agent line adds nothing. */
  lemma ReadOther(line: string, expiresAt: int)
    requires AgentOf(line, expiresAt) == None
    ensures AgentsOf([line], expiresAt) == []
  {
    ReadOne(line, expiresAt);
    SomesOfNone();
  }

  lemma {:induction false} BlankedIsLine(ts: seq<string>)
    requires forall i :: 0 <= i < |ts| ==> IsToken(ts[i])
    ensures Lacks(Blanked(ts), '\n')
  {
    if ts != [] {
      assert IsToken(ts[0]);
      BlankedIsLine(ts[1..]);
    }
  }

  lemma AgentTextIsLine(r: AgentRecord)
    requires WireSafe(r)
    ensures Lacks(AgentText(r), '\n') && Lacks(MergeText(r), '\n')
  {
    RecordTokensAre(r);
    BlankedIsLine(RecordTokens(r));
  }

  lemma AgentOfWord(word: string, expiresAt: int)
    requires IsToken(word) && word != "AGENT"
    ensures AgentOf(word, expiresAt) == None
  {
    TokenThen(word, "");
    assert word + "" == word;
  }

  lemma HeaderIsNoAgent(word: string, option: string, expiresAt: int)
    requires IsToken(word) && word != "AGENT" && IsToken(option)
    ensures AgentOf(word + " " + option, expiresAt) == None && Lacks(word + " " + option, '\n')
  {
    TokensOfLine(word, [option], "");
    assert [option][1..] == [];
    assert word + Blanked([option]) + "" == word + " " + option;
  }

  lemma ListLines(header: string, rs: seq<AgentRecord>)
    requires Lacks(header, '\n') && AllWireSafe(rs)
    ensures Lines(ListText(header, rs)) == [header] + AgentLines(rs) + ["END"]
  {
    var lines := [header] + AgentLines(rs) + ["END"];
    forall i | 0 <= i < |rs| ensures Lacks(AgentLines(rs)[i], '\n') { AgentTextIsLine(rs[i]); }
    LinesOfUnlines(lines);
  }

  lemma ReadThree(header: string, lines: seq<string>, last: string, expiresAt: int)
    requires AgentOf(header, expiresAt) == None && AgentOf(last, expiresAt) == None
    ensures AgentsOf([header] + lines + [last], expiresAt) == AgentsOf(lines, expiresAt)
  {
    ReadConcat([header] + lines, [last], expiresAt);
    ReadConcat([header], lines, expiresAt);
    ReadOther(header, expiresAt);
    ReadOther(last, expiresAt);
  }

  /** The answer to a list or pull reads back as the list, but for the expiry. */
  lemma ListRoundTrip(header: string, rs: seq<AgentRecord>, expiresAt: int)
    requires Lacks(header, '\n') && AgentOf(header, expiresAt) == None && AllWireSafe(rs)
    ensures AgentsOf(Lines(ListText(header, rs)), expiresAt) == Restamp(rs, expiresAt)
  {
    ListLines(header, rs);
    AgentOfWord("END", expiresAt);
    ReadThree(header, AgentLines(rs), "END", expiresAt);
    ReadAgentLines(rs, expiresAt);
  }

  lemma HeadersAre()
    ensures PULL_HEADER == "OK" + " " + "message=sync_pull" && LIST_HEADER == "OK" + " " + "message=list"
  {
  }

  lemma HeaderTokens()
    ensures IsToken("OK") && "OK" != "AGENT" && IsToken("message=sync_pull") && IsToken("message=list")
  {
  }

  /** Both answers that carry agent lines read back as what they carry. */
  lemma AnswerRoundTrip(rs: seq<AgentRecord>, expiresAt: int)
    requires AllWireSafe(rs)
    ensures AgentsOf(Lines(ListText(PULL_HEADER, rs)), expiresAt) == Restamp(rs, expiresAt)
    ensures AgentsOf(Lines(ListText(LIST_HEADER, rs)), expiresAt) == Restamp(rs, expiresAt)
  {
    HeadersAre();
    HeaderTokens();
    HeaderIsNoAgent("OK", "message=sync_pull", expiresAt);
    HeaderIsNoAgent("OK", "message=list", expiresAt);
    ListRoundTrip(PULL_HEADER, rs, expiresAt);
    ListRoundTrip(LIST_HEADER, rs, expiresAt);
  }

  /** The answer to LIST reads back as the whole registry, but for the expiry. */
  lemma ListAnswerReads(config: Config, records: seq<AgentRecord>, c: Command, answer: string, expiresAt: int)
    requires IsAnswer(config, records, c, answer) && c.error == "" && c.action == List && AllWireSafe(records)
    ensures AgentsOf(Lines(answer), expiresAt) == Restamp(records, expiresAt)
  {
    AnswerRoundTrip(records, expiresAt);
  }

  lemma HighestSkip(t: string, rest: seq<string>)
    requires |t| > 0 && t[0] != 'h'
    ensures HighestIn([t] + rest) == HighestIn(rest)
  {
    PrefixFails("highest_revision=", t, 0);
    assert ([t] + rest)[0] == t && ([t] + rest)[1..] == rest;
  }

  lemma HighestFound(number: string)
    ensures HighestIn(["highest_revision=" + number]) == ParseRevision(number, 0).value
  {
    PrefixHolds("highest_revision=", number);
    ValueAfter("highest_revision", number);
    assert "highest_revision=" + number == "highest_revision" + "=" + number;
  }

  lemma StatsRoundTrip(active: nat, highest: u64)
    ensures HighestIn(Tokens(StatsText(active, highest))) == highest
  {
    var a, b := "active_agents=" + Decimal(active), "highest_revision=" + Decimal(highest);
    DecimalIsToken(active);
    DecimalIsToken(highest);
    PrefixedToken("active_agents=", Decimal(active));
    PrefixedToken("highest_revision=", Decimal(highest));
    TokensOfLine("OK", [a, b], "\n");
    HighestSkip("OK", [a, b]);
    assert [a, b] == [a] + [b];
    HighestSkip(a, [b]);
    HighestFound(Decimal(highest));
    RevisionRoundTrip(highest, 0);
  }

  // ---------- The sync ----------

  /** What reaches the server: the command up to its first line feed. */
  function FirstLine(command: string): string {
    command[..Span(command, IsNewline)]
  }

  /** The peer's registry and trust store, and the number of commands it answered with OK. */
  datatype PushState = PushState(records: seq<AgentRecord>, store: TrustStore, ok: nat)

  /** What decides on a server how a command is handled: its settings, and its identity service if there is one. */
  datatype Server = Server(config: Config, identity: Option<Verifier>)

  /** The peer's trust store after a command; without an identity service there is none to change. */
  function StoreAfter(server: Server, s: PushState, c: Command): TrustStore {
    if server.identity.None? then s.store else HandledStore(server.config, server.identity.value, s.records, s.store, c)
  }

  function HandleOne(server: Server, s: PushState, c: Command, now: int): PushState {
    PushState(Handled(server.config, s.records, c, now), StoreAfter(server, s, c),
              s.ok + if Succeeds(server.config, s.records, c) then 1 else 0)
  }

  function HandleAll(server: Server, s: PushState, commands: seq<Command>, now: int): PushState
    decreases commands
  {
    if commands == [] then s else HandleAll(server, HandleOne(server, s, commands[0], now), commands[1..], now)
  }

  /** The command the server reads when it is sent a record. */
  function Received(r: AgentRecord, now: int, expiresAt: int): Command {
    Parse(FirstLine(MergeText(r)), now, expiresAt)
  }

  ghost predicate IsReceived(cs: seq<Command>, rs: seq<AgentRecord>, i: nat, now: int, expiresAt: int)
    requires i < |cs| && i < |rs|
  {
    cs[i] == Received(rs[i], now, expiresAt)
  }

  /** The commands are what the server reads when it is sent the first records one by one. */
  ghost predicate AllReceived(cs: seq<Command>, rs: seq<AgentRecord>, now: int, expiresAt: int) {
    |cs| <= |rs| && forall i :: 0 <= i < |cs| ==> IsReceived(cs, rs, i, now, expiresAt)
  }

  const SYNC_TTL := 60_000

  /** When a pulled record expires. */
  function PullExpiry(now: int): int {
    now + SYNC_TTL
  }

  /** The settings of a sync: the local identity service and page limit, the time, and the peer with its trust store. */
  datatype Sync = Sync(identity: Option<Verifier>, limit: u64, now: int, server: Server, peerStore: TrustStore)

  /** Pull what the peer has above a revision, and merge what the answer says. */
  ghost predicate PulledByText(
    y: Sync, store: TrustStore, local: seq<AgentRecord>, above: u64, peer: seq<AgentRecord>,
    pulled: seq<AgentRecord>, merged: MergeState)
  {
    && IsPull(peer, above, y.limit, pulled)
    && merged == MergeAll(y.identity, MergeState(local, store, 0),
                          AgentsOf(Lines(ListText(PULL_HEADER, pulled)), PullExpiry(y.now)))
  }

  /** Push what the local registry has above a revision, one command each. */
  ghost predicate PushedByText(
    y: Sync, peer: seq<AgentRecord>, above: u64, local: seq<AgentRecord>,
    pushed: seq<AgentRecord>, commands: seq<Command>, after: PushState)
  {
    && IsPull(local, above, y.limit, pushed)
    && |commands| == |pushed| && AllReceived(commands, pushed, y.now, Expiry(y.server.config, y.now))
    && after == HandleAll(y.server, PushState(peer, y.peerStore, 0), commands, y.now)
  }

  /** A sync between quiescent nodes, as the text protocol carries it out. */
  ghost predicate SyncedByText(
    y: Sync, store: TrustStore, local: seq<AgentRecord>, peer: seq<AgentRecord>,
    pulled: seq<AgentRecord>, merged: MergeState, pushed: seq<AgentRecord>, commands: seq<Command>, after: PushState)
  {
    && PulledByText(y, store, local, HighestRevision(local), peer, pulled, merged)
    && PushedByText(y, peer, HighestRevision(peer), merged.records, pushed, commands, after)
  }

  function ServerOf(handler: Handler): Server {
    Server(handler.config, VerifierOf(handler.identity))
  }

  function PeerState(handler: Handler, peer: AgentRegistry, ok: nat): PushState
    reads peer, handler.identity
  {
    PushState(peer.records, StoreOf(handler.identity), ok)
  }

  method SendCommand(handler: Handler, peer: AgentRegistry, command: string, now: int) returns (answer: string, ghost c: Command)
    requires peer.Valid()
    modifies peer`records, peer`notified, handler.identity
    ensures peer.Valid()
    ensures c == Parse(FirstLine(command), now, Expiry(handler.config, now))
    ensures peer.records == Handled(handler.config, old(peer.records), c, now)
    ensures StoreOf(handler.identity) == StoreAfter(ServerOf(handler), old(PeerState(handler, peer, 0)), c)
    ensures IsAnswer(handler.config, old(peer.records), c, answer)
  {
    answer, c := handler.HandleLine(peer, FirstLine(command), now);
  }

  lemma FirstLineOfLine(command: string)
    requires Lacks(command, '\n')
    ensures FirstLine(command) == command
  {
    SpanIs(command, IsNewline, |command|);
  }

  lemma WordTokens(word: string)
    requires IsToken(word)
    ensures Tokens(word) == [word] + []
  {
    TokenThen(word, "");
    assert word + "" == word;
  }

  /** A word alone is the command without options: a pull from the start, of at most 256. */
  lemma BareCommand(word: string, action: Action, now: int, expiresAt: int)
    requires IsToken(word) && Lacks(word, '\n') && ActionOf(word) == action && action in {List, Stats, SyncPull}
    ensures Parse(FirstLine(word), now, expiresAt) == Command(action, EmptyRecord(now), "", "", 0, 256)
  {
    FirstLineOfLine(word);
    WordTokens(word);
    ParseAs(word, now, expiresAt, word, []);
  }

  lemma StatsWord()
    ensures IsToken("STATS") && Lacks("STATS", '\n')
  {
  }

  lemma ReadingWords()
    ensures IsToken("LIST") && Lacks("LIST", '\n') && IsToken("SYNC_PULL") && Lacks("SYNC_PULL", '\n')
  {
  }

  /** The commands that only read, without options. */
  lemma ReadingCommands(now: int, expiresAt: int)
    ensures Parse(FirstLine("LIST"), now, expiresAt) == Command(List, EmptyRecord(now), "", "", 0, 256)
    ensures Parse(FirstLine("STATS"), now, expiresAt) == Command(Stats, EmptyRecord(now), "", "", 0, 256)
    ensures Parse(FirstLine("SYNC_PULL"), now, expiresAt) == Command(SyncPull, EmptyRecord(now), "", "", 0, 256)
  {
    StatsWord();
    ReadingWords();
    Words();
    BareCommand("LIST", List, now, expiresAt);
    BareCommand("STATS", Stats, now, expiresAt);
    BareCommand("SYNC_PULL", SyncPull, now, expiresAt);
  }

  lemma StatsCommand(now: int, expiresAt: int)
    ensures Parse(FirstLine("STATS"), now, expiresAt) == BlankCommand(Stats, now)
  {
    StatsWord();
    Words();
    BareCommand("STATS", Stats, now, expiresAt);
  }

  lemma PullCommand(after: u64, limit: u64, now: int, expiresAt: int)
    ensures Parse(FirstLine(SyncPullText(after, limit)), now, expiresAt) ==
            Command(SyncPull, EmptyRecord(now), "", "", after, limit)
  {
    var ts := ["after_revision=" + Decimal(after), "limit=" + Decimal(limit)];
    DecimalIsToken(after);
    DecimalIsToken(limit);
    PrefixedToken("after_revision=", Decimal(after));
    PrefixedToken("limit=", Decimal(limit));
    BlankedIsLine(ts);
    FirstLineOfLine(SyncPullText(after, limit));
    SyncPullRoundTrip(after, limit, now, expiresAt);
  }

  method PushEntries(handler: Handler, peer: AgentRegistry, entries: seq<AgentRecord>, now: int)
    returns (pushed: nat, ghost commands: seq<Command>)
    requires peer.Valid()
    modifies peer`records, peer`notified, handler.identity
    ensures peer.Valid()
    ensures |commands| == |entries| && AllReceived(commands, entries, now, Expiry(handler.config, now))
    ensures PeerState(handler, peer, pushed) == HandleAll(ServerOf(handler), old(PeerState(handler, peer, 0)), commands, now)
  {
    pushed, commands := 0, [];
    ghost var start := PeerState(handler, peer, 0);
    for i := 0 to |entries|
      invariant peer.Valid()
      invariant |commands| == i && AllReceived(commands, entries, now, Expiry(handler.config, now))
      invariant PeerState(handler, peer, pushed) == HandleAll(ServerOf(handler), start, commands, now)
    {
      ghost var c;
      pushed, c := PushOne(handler, peer, entries[i], now, pushed);
      ReceivedSnoc(commands, entries, c, now, Expiry(handler.config, now));
      HandleSnoc(ServerOf(handler), start, commands, c, now);
      commands := commands + [c];
    }
  }

  lemma ReceivedSame(cs: seq<Command>, more: seq<Command>, rs: seq<AgentRecord>, i: nat, now: int, expiresAt: int)
    requires i < |cs| <= |more| && i < |rs| && cs[i] == more[i] && IsReceived(cs, rs, i, now, expiresAt)
    ensures IsReceived(more, rs, i, now, expiresAt)
  {
  }

  lemma ReceivedLast(cs: seq<Command>, rs: seq<AgentRecord>, now: int, expiresAt: int)
    requires 0 < |cs| <= |rs| && cs[|cs| - 1] == Received(rs[|cs| - 1], now, expiresAt)
    ensures IsReceived(cs, rs, |cs| - 1, now, expiresAt)
  {
  }

  lemma ReceivedSnoc(cs: seq<Command>, rs: seq<AgentRecord>, c: Command, now: int, expiresAt: int)
    requires |cs| < |rs| && AllReceived(cs, rs, now, expiresAt) && c == Received(rs[|cs|], now, expiresAt)
    ensures AllReceived(cs + [c], rs, now, expiresAt)
  {
    var commands := cs + [c];
    forall i | 0 <= i < |commands| ensures IsReceived(commands, rs, i, now, expiresAt) {
      if i < |cs| {
        ReceivedSame(cs, commands, rs, i, now, expiresAt);
      } else {
        ReceivedLast(commands, rs, now, expiresAt);
      }
    }
  }

  lemma {:induction false} HandleSnoc(server: Server, s: PushState, cs: seq<Command>, c: Command, now: int)
    ensures HandleAll(server, s, cs + [c], now) == HandleOne(server, HandleAll(server, s, cs, now), c, now)
    decreases cs
  {
    if cs == [] {
      assert cs + [c] == [c] && [c][1..] == [];
    } else {
      assert (cs + [c])[1..] == cs[1..] + [c];
      HandleSnoc(server, HandleOne(server, s, cs[0], now), cs[1..], c, now);
    }
  }

  method PushOne(handler: Handler, peer: AgentRegistry, entry: AgentRecord, now: int, before: nat)
    returns (pushed: nat, ghost c: Command)
    requires peer.Valid()
    modifies peer`records, peer`notified, handler.identity
    ensures peer.Valid()
    ensures c == Received(entry, now, Expiry(handler.config, now))
    ensures PeerState(handler, peer, pushed) == HandleOne(ServerOf(handler), old(PeerState(handler, peer, before)), c, now)
  {
    var command := EncodeMergeCommand(entry);
    var answer;
    answer, c := SendCommand(handler, peer, command, now);
    AnswerTells(handler.config, old(peer.records), c, answer);
    pushed := if "OK" <= answer then before + 1 else before;
  }

  /** A command that only reads leaves the peer as it is. */
  method SendRead(handler: Handler, peer: AgentRegistry, command: string, ghost c: Command, now: int) returns (answer: string)
    requires peer.Valid() && c.error == "" && c.action in {List, Stats, SyncPull}
    requires c == Parse(FirstLine(command), now, Expiry(handler.config, now))
    modifies peer`records, peer`notified, handler.identity
    ensures peer.Valid() && peer.records == old(peer.records) && StoreOf(handler.identity) == old(StoreOf(handler.identity))
    ensures IsAnswer(handler.config, peer.records, c, answer)
  {
    ghost var parsed;
    answer, parsed := SendCommand(handler, peer, command, now);
  }

  lemma StatsAnswer(config: Config, records: seq<AgentRecord>, c: Command, answer: string)
    requires c.error == "" && c.action == Stats && IsAnswer(config, records, c, answer)
    ensures answer == StatsText(|records|, HighestRevision(records))
  {
  }

  lemma PullAnswer(config: Config, records: seq<AgentRecord>, c: Command, answer: string)
    requires c.error == "" && c.action == SyncPull && IsAnswer(config, records, c, answer)
    ensures exists out :: IsPull(records, c.afterRevision, c.limit, out) && answer == ListText(PULL_HEADER, out)
  {
  }

  method SendStats(handler: Handler, peer: AgentRegistry, now: int) returns (answer: string)
    requires peer.Valid()
    modifies peer`records, peer`notified, handler.identity
    ensures peer.Valid() && peer.records == old(peer.records) && StoreOf(handler.identity) == old(StoreOf(handler.identity))
    ensures answer == StatsText(|peer.records|, HighestRevision(peer.records))
  {
    StatsCommand(now, Expiry(handler.config, now));
    answer := SendRead(handler, peer, "STATS", BlankCommand(Stats, now), now);
    StatsAnswer(handler.config, peer.records, BlankCommand(Stats, now), answer);
  }

  /** Ask for the peer's highest revision. */
  method AskHighest(handler: Handler, peer: AgentRegistry, now: int) returns (highest: u64)
    requires peer.Valid()
    modifies peer`records, peer`notified, handler.identity
    ensures peer.Valid() && peer.records == old(peer.records) && StoreOf(handler.identity) == old(StoreOf(handler.identity))
    ensures highest == HighestRevision(peer.records)
  {
    var answer := SendStats(handler, peer, now);
    highest := ParseHighestRevision(answer);
    StatsRoundTrip(|peer.records|, HighestRevision(peer.records));
  }

  /** Ask for everything above a revision. */
  method AskPull(handler: Handler, peer: AgentRegistry, after: u64, limit: u64, now: int)
    returns (answer: string, ghost pulled: seq<AgentRecord>)
    requires peer.Valid()
    modifies peer`records, peer`notified, handler.identity
    ensures peer.Valid() && peer.records == old(peer.records) && StoreOf(handler.identity) == old(StoreOf(handler.identity))
    ensures IsPull(peer.records, after, limit, pulled) && answer == ListText(PULL_HEADER, pulled)
  {
    ghost var c := Command(SyncPull, EmptyRecord(now), "", "", after, limit);
    PullCommand(after, limit, now, Expiry(handler.config, now));
    answer := SendRead(handler, peer, SyncPullText(after, limit), c, now);
    PullAnswer(handler.config, peer.records, c, answer);
    pulled :| IsPull(peer.records, after, limit, pulled) && answer == ListText(PULL_HEADER, pulled);
  }

  method MergeResponse(local: AgentRegistry, answer: string, identity: IdentityService?, expiresAt: int)
    returns (accepted: nat)
    requires local.Valid()
    modifies local`records, local`notified, identity
    ensures local.Valid()
    ensures MergeAll(VerifierOf(identity), MergeState(old(local.records), old(StoreOf(identity)), 0),
                     AgentsOf(Lines(answer), expiresAt))
            == MergeState(local.records, StoreOf(identity), accepted)
  {
    var records := ParseAgentLines(answer, expiresAt);
    accepted := local.Merge(records, identity);
  }

  function SyncOf(identity: Option<Verifier>, limit: u64, now: int, handler: Handler): Sync
    reads handler.identity
  {
    Sync(identity, limit, now, ServerOf(handler), StoreOf(handler.identity))
  }

  method PullPhase(local: AgentRegistry, localRevision: u64, peer: AgentRegistry, handler: Handler, limit: u64,
                   identity: IdentityService?, now: int)
    returns (pulledCount: nat, ghost pulled: seq<AgentRecord>)
    requires local.Valid() && peer.Valid() && local != peer
    requires identity == null || identity != handler.identity
    modifies local`records, local`notified, peer`records, peer`notified, identity, handler.identity
    ensures local.Valid() && peer.Valid() && PeerState(handler, peer, 0) == old(PeerState(handler, peer, 0))
    ensures PulledByText(SyncOf(VerifierOf(identity), limit, now, handler), old(StoreOf(identity)),
                         old(local.records), localRevision, old(peer.records), pulled,
                         MergeState(local.records, StoreOf(identity), pulledCount))
  {
    var answer;
    answer, pulled := AskPull(handler, peer, localRevision, limit, now);
    pulledCount := MergeResponse(local, answer, identity, PullExpiry(now));
  }

  method PushPhase(local: AgentRegistry, peer: AgentRegistry, handler: Handler, remoteRevision: u64, limit: u64,
                   ghost identity: Option<Verifier>, now: int)
    returns (pushedCount: nat, ghost pushed: seq<AgentRecord>, ghost commands: seq<Command>)
    requires local.Valid() && peer.Valid() && local != peer
    modifies peer`records, peer`notified, handler.identity
    ensures peer.Valid()
    ensures PushedByText(old(SyncOf(identity, limit, now, handler)), old(peer.records), remoteRevision,
                         local.records, pushed, commands, PeerState(handler, peer, pushedCount))
  {
    var entries := local.EntriesAfterRevision(remoteRevision, limit);
    pushed := entries;
    pushedCount, commands := PushEntries(handler, peer, entries, now);
  }

  method SyncWithPeer(
    local: AgentRegistry, peer: AgentRegistry, handler: Handler, limit: u64, identity: IdentityService?, now: int)
    returns (pulledCount: nat, pushedCount: nat,
             ghost pulled: seq<AgentRecord>, ghost pushed: seq<AgentRecord>, ghost commands: seq<Command>)
    requires local.Valid() && peer.Valid() && local != peer
    requires identity == null || identity != handler.identity
    modifies local`records, local`notified, peer`records, peer`notified, identity, handler.identity
    ensures local.Valid() && peer.Valid()
    ensures SyncedByText(old(SyncOf(VerifierOf(identity), limit, now, handler)), old(StoreOf(identity)),
                         old(local.records), old(peer.records),
                         pulled, MergeState(local.records, StoreOf(identity), pulledCount),
                         pushed, commands, PeerState(handler, peer, pushedCount))
  {
    var _, localRevision := local.Stats();
    var remoteRevision := AskHighest(handler, peer, now);
    pulledCount, pulled := PullPhase(local, localRevision, peer, handler, limit, identity, now);
    pushedCount, pushed, commands := PushPhase(local, peer, handler, remoteRevision, limit, VerifierOf(identity), now);
  }
}
