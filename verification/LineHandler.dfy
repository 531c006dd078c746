/** The server side of the line protocol: one line in, the registry changed, one answer out. */
module LineHandler {
  import opened Bytes
  import opened Text
  import opened Records
  import opened Crypto
  import opened Identity
  import opened Registry
  import opened ControlProtocol

  datatype Config = Config(heartbeatTtl: int, requireSignatures: bool, verifier: Verifier)

  /** When a record that is written or refreshed now expires. */
  function Expiry(config: Config, now: int): int {
    now + config.heartbeatTtl
  }

  /** Strict nodes want a valid signature; others only refuse a bad one. */
  predicate Admits(config: Config, r: AgentRecord) {
    var status := SignatureStatusOf(config.verifier, r);
    if config.requireSignatures then status == Valid else status != Invalid
  }

  function Refusal(config: Config, r: AgentRecord): string {
    if config.requireSignatures then StatusMessage(SignatureStatusOf(config.verifier, r)) else "invalid_signature"
  }

  predicate Writes(c: Command) {
    c.error == "" && c.action in {Register, Merge}
  }

  /** The registry after a command. */
  function Handled(config: Config, records: seq<AgentRecord>, c: Command, now: int): seq<AgentRecord> {
    if Writes(c) && Admits(config, c.registration) then Upserted(records, c.registration)
    else if c.error == "" && c.action == Heartbeat
      then Refreshed(records, c.agentId, Expiry(config, now), c.registration.revision)
    else records
  }

  /** The trust store after a command: an accepted record with a key is offered to it. */
  function HandledStore(config: Config, identity: Verifier, records: seq<AgentRecord>, store: TrustStore, c: Command): TrustStore {
    if Writes(c) && Admits(config, c.registration) && Accepts(records, c.registration) && c.registration.publicKeyHex != ""
    then CheckRecord(identity, store, c.registration).store
    else store
  }

  const LIST_HEADER := "OK message=list"
  const PULL_HEADER := "OK message=sync_pull"

  function AgentLines(rs: seq<AgentRecord>): (ls: seq<string>)
    ensures |ls| == |rs|
    ensures forall i :: 0 <= i < |rs| ==> ls[i] == AgentText(rs[i])
  {
    if rs == [] then [] else [AgentText(rs[0])] + AgentLines(rs[1..])
  }

  /** A header line, the agent lines, and END. */
  function ListText(header: string, rs: seq<AgentRecord>): string {
    Unlines([header] + AgentLines(rs) + ["END"])
  }

  function StatsText(active: nat, highest: u64): string {
    "OK" + Blanked(["active_agents=" + Decimal(active), "highest_revision=" + Decimal(highest)]) + "\n"
  }

  /** The possible answers; only the order of equal revisions in a pull is open. */
  ghost predicate IsAnswer(config: Config, records: seq<AgentRecord>, c: Command, answer: string) {
    if c.error != "" then answer == "ERR message=" + c.error + "\n"
    else
      match c.action
      case Register => answer == WriteAnswer(config, records, c, "OK message=registered\n")
      case Merge => answer == WriteAnswer(config, records, c, "OK message=merged\n")
      case Heartbeat =>
        answer == if HeartbeatAccepted(records, c.agentId, c.registration.revision)
                  then "OK message=heartbeat\n" else "ERR message=unknown_or_stale_agent\n"
      case Stats => answer == StatsText(|records|, HighestRevision(records))
      case List => answer == ListText(LIST_HEADER, records)
      case SyncPull =>
        exists out :: IsPull(records, c.afterRevision, c.limit, out) && answer == ListText(PULL_HEADER, out)
      case Unknown => answer == "ERR message=unhandled_command\n"
  }

  function WriteAnswer(config: Config, records: seq<AgentRecord>, c: Command, accepted: string): string {
    if !Admits(config, c.registration) then "ERR message=" + Refusal(config, c.registration) + "\n"
    else if Accepts(records, c.registration) then accepted
    else "ERR message=stale_revision\n"
  }

  lemma UnlinesSnoc(ls: seq<string>, l: string)
    ensures Unlines(ls + [l]) == Unlines(ls) + (l + "\n")
  {
    UnlinesConcat(ls, [l]);
    assert [l][1..] == [];
  }

  method EncodeList(header: string, rs: seq<AgentRecord>) returns (response: string)
    ensures response == ListText(header, rs)
  {
    response := header + "\n";
    ghost var lines := [header];
    UnlinesSnoc([], header);
    assert [] + [header] == [header];
    for i := 0 to |rs|
      invariant response == Unlines(lines)
      invariant lines + AgentLines(rs[i..]) == [header] + AgentLines(rs)
    {
      var line := EncodeAgentLine(rs[i]);
      AgentLinesStep(lines, rs, i);
      UnlinesSnoc(lines, AgentText(rs[i]));
      response := response + line;
      lines := lines + [AgentText(rs[i])];
    }
    assert lines == [header] + AgentLines(rs);
    UnlinesSnoc(lines, "END");
    response := response + ("END" + "\n");
  }

  lemma AgentLinesStep(lines: seq<string>, rs: seq<AgentRecord>, i: nat)
    requires i < |rs|
    ensures lines + AgentLines(rs[i..]) == lines + [AgentText(rs[i])] + AgentLines(rs[i + 1..])
  {
    assert rs[i..][0] == rs[i] && rs[i..][1..] == rs[i + 1..];
  }

  /** The answer will start with OK. */
  predicate Succeeds(config: Config, records: seq<AgentRecord>, c: Command) {
    c.error == "" &&
    match c.action
    case Register | Merge => Admits(config, c.registration) && Accepts(records, c.registration)
    case Heartbeat => HeartbeatAccepted(records, c.agentId, c.registration.revision)
    case Unknown => false
    case _ => true
  }

  lemma StartsOk(rest: string)
    ensures "OK" <= "OK" + rest
  {
  }

  lemma ErrIsNotOk(rest: string)
    ensures !("OK" <= "ERR" + rest)
  {
    PrefixFails("OK", "ERR" + rest, 0);
  }

  lemma ErrAnswer(message: string)
    ensures !("OK" <= "ERR message=" + message + "\n")
  {
    assert "ERR message=" + message + "\n" == "ERR" + (" message=" + message + "\n");
    ErrIsNotOk(" message=" + message + "\n");
  }

  lemma ListStartsOk(option: string, rs: seq<AgentRecord>)
    ensures "OK" <= ListText("OK " + option, rs)
  {
    var lines := ["OK " + option] + AgentLines(rs) + ["END"];
    assert lines[0] == "OK " + option;
    assert ListText("OK " + option, rs) == lines[0] + "\n" + Unlines(lines[1..]);
  }

  lemma FixedAnswers()
    ensures "OK" <= "OK message=registered\n" && "OK" <= "OK message=merged\n" && "OK" <= "OK message=heartbeat\n"
    ensures !("OK" <= "ERR message=stale_revision\n") && !("OK" <= "ERR message=unknown_or_stale_agent\n")
    ensures !("OK" <= "ERR message=unhandled_command\n")
  {
    PrefixFails("OK", "ERR message=stale_revision\n", 0);
    PrefixFails("OK", "ERR message=unknown_or_stale_agent\n", 0);
    PrefixFails("OK", "ERR message=unhandled_command\n", 0);
  }

  lemma StatsStartsOk(active: nat, highest: u64)
    ensures "OK" <= StatsText(active, highest)
  {
    var options := Blanked(["active_agents=" + Decimal(active), "highest_revision=" + Decimal(highest)]);
    assert StatsText(active, highest) == "OK" + (options + "\n");
    StartsOk(options + "\n");
  }

  lemma ListAnswerStartsOk(rs: seq<AgentRecord>)
    ensures "OK" <= ListText(LIST_HEADER, rs)
  {
    assert LIST_HEADER == "OK " + "message=list";
    ListStartsOk("message=list", rs);
  }

  lemma PullStartsOk(rs: seq<AgentRecord>)
    ensures "OK" <= ListText(PULL_HEADER, rs)
  {
    assert PULL_HEADER == "OK " + "message=sync_pull";
    ListStartsOk("message=sync_pull", rs);
  }

  /** The client's test of an answer tells exactly whether the command took effect. */
  lemma AnswerTells(config: Config, records: seq<AgentRecord>, c: Command, answer: string)
    requires IsAnswer(config, records, c, answer)
    ensures "OK" <= answer <==> Succeeds(config, records, c)
  {
    if c.error != "" {
      ErrAnswer(c.error);
    } else if c.action == Stats {
      StatsStartsOk(|records|, HighestRevision(records));
    } else if c.action == List {
      ListAnswerStartsOk(records);
    } else if c.action == SyncPull {
      var out :| IsPull(records, c.afterRevision, c.limit, out) && answer == ListText(PULL_HEADER, out);
      PullStartsOk(out);
    } else {
      FixedAnswers();
      ErrAnswer(Refusal(config, c.registration));
    }
  }

  // ---------- What a command does, in the caller's terms ----------

  /**
   A registration or merge is answered with OK exactly when the signature is good
   enough for the configuration and the agent is new, or the revision does not fall
   and no other key is stored.
   */
  lemma WriteOkIff(config: Config, records: seq<AgentRecord>, c: Command, answer: string)
    requires IsAnswer(config, records, c, answer) && c.error == "" && (c.action == Register || c.action == Merge)
    ensures var r, view, status := c.registration, View(records), SignatureStatusOf(config.verifier, c.registration);
      "OK" <= answer <==>
        && (config.requireSignatures ==> status == Valid)
        && (!config.requireSignatures ==> status == Valid || status == Missing || status == Unsupported)
        && (r.agentId in view ==>
              && r.revision >= view[r.agentId].revision
              && (r.publicKeyHex == "" || view[r.agentId].publicKeyHex == "" || r.publicKeyHex == view[r.agentId].publicKeyHex))
  {
    AnswerTells(config, records, c, answer);
    ViewKeys(records, c.registration.agentId);
  }

  /** The words of a refusal: a bad signature where none is required, what is wrong with it where one is, or a stale record. */
  lemma RefusalWords(config: Config, records: seq<AgentRecord>, c: Command, answer: string)
    requires IsAnswer(config, records, c, answer) && c.error == "" && (c.action == Register || c.action == Merge)
    requires !("OK" <= answer)
    ensures var status := SignatureStatusOf(config.verifier, c.registration);
      && (config.requireSignatures && status == Missing ==> answer == "ERR message=" + "missing_signature" + "\n")
      && (config.requireSignatures && status == Unsupported ==>
            answer == "ERR message=" + "signature_verification_unsupported" + "\n")
      && (status == Invalid ==> answer == "ERR message=" + "invalid_signature" + "\n")
      && (status == Valid || (!config.requireSignatures && status != Invalid) ==> answer == "ERR message=stale_revision\n")
  {
    AnswerTells(config, records, c, answer);
  }

  /** The words of the other answers. */
  lemma AnswerWords(config: Config, records: seq<AgentRecord>, c: Command, answer: string)
    requires IsAnswer(config, records, c, answer)
    ensures c.error != "" ==> answer == "ERR message=" + c.error + "\n"
    ensures c.error == "" && c.action == Register && "OK" <= answer ==> answer == "OK message=registered\n"
    ensures c.error == "" && c.action == Merge && "OK" <= answer ==> answer == "OK message=merged\n"
    ensures c.error == "" && c.action == Heartbeat ==>
              answer == if "OK" <= answer then "OK message=heartbeat\n" else "ERR message=unknown_or_stale_agent\n"
    ensures c.error == "" && c.action == Stats ==> answer == StatsText(|records|, HighestRevision(records))
    ensures c.error == "" && c.action == List ==> answer == ListText("OK message=list", records)
  {
    AnswerTells(config, records, c, answer);
    FixedAnswers();
  }

  /** A heartbeat is answered with OK exactly when the agent is there and its revision does not fall. */
  lemma HeartbeatOkIff(config: Config, records: seq<AgentRecord>, c: Command, answer: string)
    requires IsAnswer(config, records, c, answer) && c.error == "" && c.action == Heartbeat
    ensures "OK" <= answer <==> c.agentId in View(records) && c.registration.revision >= View(records)[c.agentId].revision
  {
    AnswerTells(config, records, c, answer);
    ViewKeys(records, c.agentId);
  }

  /** The registry as a map, before and after a command, as far as the answer tells. */
  ghost predicate Effect(before: map<string, AgentRecord>, c: Command, now: int, ttl: int, ok: bool, after: map<string, AgentRecord>) {
    if !ok || c.error != "" then after == before
    else
      match c.action
      case Register => after == before[c.agentId := c.registration]
      case Merge => after == before[c.agentId := c.registration]
      case Heartbeat =>
        && c.agentId in before
        && after == before[c.agentId := before[c.agentId].(revision := c.registration.revision, expiresAt := now + ttl)]
      case _ => after == before
  }

  lemma WriteHasEffect(config: Config, records: seq<AgentRecord>, c: Command, now: int)
    requires UniqueIds(records) && c.error == "" && (c.action == Register || c.action == Merge)
    requires c.agentId == c.registration.agentId
    ensures Effect(View(records), c, now, config.heartbeatTtl, Succeeds(config, records, c), View(Handled(config, records, c, now)))
  {
    UpsertRefines(records, c.registration);
  }

  lemma BeatHasEffect(config: Config, records: seq<AgentRecord>, c: Command, now: int)
    requires UniqueIds(records) && c.error == "" && c.action == Heartbeat
    ensures Effect(View(records), c, now, config.heartbeatTtl, Succeeds(config, records, c), View(Handled(config, records, c, now)))
  {
    var view, revision := View(records), c.registration.revision;
    RefreshRefines(records, c.agentId, Expiry(config, now), revision);
    ViewKeys(records, c.agentId);
    assert Succeeds(config, records, c) <==> c.agentId in view && revision >= view[c.agentId].revision;
    MapBeat(view, c, now, config.heartbeatTtl, Expiry(config, now));
  }

  lemma MapBeat(m: map<string, AgentRecord>, c: Command, now: int, ttl: int, expiresAt: int)
    requires c.error == "" && c.action == Heartbeat && expiresAt == now + ttl
    ensures var revision := c.registration.revision;
      Effect(m, c, now, ttl, c.agentId in m && revision >= m[c.agentId].revision, MapRefresh(m, c.agentId, expiresAt, revision))
  {
  }

  lemma HandledHasEffect(config: Config, records: seq<AgentRecord>, c: Command, now: int)
    requires UniqueIds(records)
    requires c.error == "" && (c.action == Register || c.action == Merge) ==> c.agentId == c.registration.agentId
    ensures Effect(View(records), c, now, config.heartbeatTtl, Succeeds(config, records, c), View(Handled(config, records, c, now)))
  {
    if c.error == "" && (c.action == Register || c.action == Merge) {
      WriteHasEffect(config, records, c, now);
    } else if c.error == "" && c.action == Heartbeat {
      BeatHasEffect(config, records, c, now);
    }
  }

  /** The trust store after a command: a signed record that was taken pins the key of an agent that had none. */
  function Trusted(verifier: Verifier, store: TrustStore, c: Command, ok: bool): TrustStore {
    if Tells(c, ok) && SignatureStatusOf(verifier, c.registration) == Valid && c.registration.agentId !in store
    then store[c.registration.agentId := Unhex(c.registration.publicKeyHex)] else store
  }

  lemma OfferHasEffect(config: Config, verifier: Verifier, records: seq<AgentRecord>, store: TrustStore, c: Command)
    ensures HandledStore(config, verifier, records, store, c) == Trusted(verifier, store, c, Succeeds(config, records, c))
  {
  }

  /** What the callback is told about. */
  predicate Tells(c: Command, ok: bool) {
    ok && c.error == "" && (c.action == Register || c.action == Merge)
  }

  /** All that an answer tells. */
  lemma AnswerHasEffect(config: Config, identity: Option<Verifier>, records: seq<AgentRecord>, store: TrustStore, c: Command, now: int,
                        answer: string, after: seq<AgentRecord>, storeAfter: TrustStore)
    requires UniqueIds(records) && IsAnswer(config, records, c, answer) && after == Handled(config, records, c, now)
    requires c.error == "" && (c.action == Register || c.action == Merge) ==> c.agentId == c.registration.agentId
    requires identity.Some? ==> storeAfter == HandledStore(config, identity.value, records, store, c)
    ensures Effect(View(records), c, now, config.heartbeatTtl, "OK" <= answer, View(after))
    ensures identity.Some? ==> storeAfter == Trusted(identity.value, store, c, "OK" <= answer)
    ensures Tells(c, "OK" <= answer) <==> c.action in {Register, Merge} && Succeeds(config, records, c)
  {
    AnswerTells(config, records, c, answer);
    HandledHasEffect(config, records, c, now);
    if identity.Some? {
      OfferHasEffect(config, identity.value, records, store, c);
    }
  }

  /** From the line to the map: a registration without a bad signature, of an agent that is not there, is stored. */
  lemma RegisterLineStores(config: Config, records: seq<AgentRecord>, r: AgentRecord, now: int, answer: string)
    requires UniqueIds(records) && WireSafe(r) && r.agentId !in View(records) && !config.requireSignatures
    requires SignatureStatusOf(config.verifier, r) != Invalid && r.expiresAt == now + config.heartbeatTtl
    requires IsAnswer(config, records, Parse(RegisterText(r), now, r.expiresAt), answer)
    ensures "OK" <= answer
    ensures View(Handled(config, records, Parse(RegisterText(r), now, r.expiresAt), now)) == View(records)[r.agentId := r]
  {
    var c := Command(Register, r, r.agentId, "", 0, 256);
    RegisterRoundTrip(r, now, r.expiresAt);
    RegisterCommandStores(config, records, c, now, answer);
  }

  lemma RegisterCommandStores(config: Config, records: seq<AgentRecord>, c: Command, now: int, answer: string)
    requires UniqueIds(records) && c.error == "" && c.action == Register && c.agentId == c.registration.agentId
    requires IsAnswer(config, records, c, answer) && c.agentId !in View(records)
    requires !config.requireSignatures && SignatureStatusOf(config.verifier, c.registration) != Invalid
    ensures "OK" <= answer && View(Handled(config, records, c, now)) == View(records)[c.agentId := c.registration]
  {
    WriteOkIff(config, records, c, answer);
    AnswerTells(config, records, c, answer);
    WriteHasEffect(config, records, c, now);
  }

  class Handler {
    const config: Config
    const identity: IdentityService?

    constructor (config: Config, identity: IdentityService?)
      ensures this.config == config && this.identity == identity
    {
      this.config, this.identity := config, identity;
    }

    /** Register and merge share this: check the signature, upsert, offer the key to the trust store. */
    method Write(registry: AgentRegistry, c: Command, accepted: string) returns (answer: string)
      requires registry.Valid() && Writes(c)
      modifies registry`records, registry`notified, identity
      ensures registry.Valid()
      ensures registry.records == Handled(config, old(registry.records), c, 0)
      ensures identity != null ==>
                identity.trustStore
                == HandledStore(config, identity.verifier, old(registry.records), old(identity.trustStore), c)
      ensures answer == WriteAnswer(config, old(registry.records), c, accepted)
      ensures registry.notified == if registry.hasCallback && Admits(config, c.registration) && Accepts(old(registry.records), c.registration)
                then old(registry.notified) + [c.registration] else old(registry.notified)
    {
      var status := SignatureStatusOf(config.verifier, c.registration);
      if config.requireSignatures && status != SignatureStatus.Valid {
        return "ERR message=" + StatusMessage(status) + "\n";
      }
      if !config.requireSignatures && status == Invalid {
        return "ERR message=" + "invalid_signature" + "\n";
      }
      var taken := registry.Upsert(c.registration);
      if taken && identity != null && c.registration.publicKeyHex != "" {
        var _ := identity.VerifyAndRegister(c.registration);
      }
      answer := if taken then accepted else "ERR message=stale_revision\n";
    }

    /** Commands that only read. */
    method Read(registry: AgentRegistry, c: Command) returns (answer: string)
      requires c.error == "" && c.action in {List, Stats, SyncPull, Unknown}
      ensures IsAnswer(config, registry.records, c, answer)
    {
      match c.action {
        case Stats =>
          var active, highest := registry.Stats();
          answer := StatsText(active, highest);
        case List =>
          answer := EncodeList(LIST_HEADER, registry.records);
        case SyncPull =>
          var out := registry.EntriesAfterRevision(c.afterRevision, c.limit);
          answer := EncodeList(PULL_HEADER, out);
        case Unknown =>
          answer := "ERR message=unhandled_command\n";
      }
    }

    method Beat(registry: AgentRegistry, c: Command, now: int) returns (answer: string)
      requires registry.Valid() && c.error == "" && c.action == Heartbeat
      modifies registry`records
      ensures registry.Valid()
      ensures registry.records == Handled(config, old(registry.records), c, now)
      ensures IsAnswer(config, old(registry.records), c, answer)
    {
      var taken := registry.RefreshHeartbeat(c.agentId, Expiry(config, now), c.registration.revision);
      answer := if taken then "OK message=heartbeat\n" else "ERR message=unknown_or_stale_agent\n";
    }

    method Dispatch(registry: AgentRegistry, c: Command, now: int) returns (answer: string)
      requires registry.Valid()
      modifies registry`records, registry`notified, identity
      ensures registry.Valid()
      ensures registry.records == Handled(config, old(registry.records), c, now)
      ensures identity != null ==>
                identity.trustStore
                == HandledStore(config, identity.verifier, old(registry.records), old(identity.trustStore), c)
      ensures IsAnswer(config, old(registry.records), c, answer)
      ensures registry.notified == if registry.hasCallback && c.action in {Register, Merge} && Succeeds(config, old(registry.records), c)
                then old(registry.notified) + [c.registration] else old(registry.notified)
    {
      if c.error != "" {
        answer := "ERR message=" + c.error + "\n";
      } else if c.action == Register {
        answer := Write(registry, c, "OK message=registered\n");
      } else if c.action == Merge {
        answer := Write(registry, c, "OK message=merged\n");
      } else if c.action == Heartbeat {
        answer := Beat(registry, c, now);
      } else {
        answer := Read(registry, c);
      }
    }

    /** A command, in the caller's terms: what the answer says about the registry and the callback. */
    method Perform(registry: AgentRegistry, c: Command, now: int) returns (answer: string)
      requires registry.Valid()
      requires c.error == "" && (c.action == Register || c.action == Merge) ==> c.agentId == c.registration.agentId
      modifies registry`records, registry`notified, identity
      ensures registry.Valid()
      ensures registry.records == Handled(config, old(registry.records), c, now)
      ensures identity != null ==>
                identity.trustStore
                == HandledStore(config, identity.verifier, old(registry.records), old(identity.trustStore), c)
      ensures IsAnswer(config, old(registry.records), c, answer)
      ensures Effect(old(View(registry.records)), c, now, config.heartbeatTtl, "OK" <= answer, View(registry.records))
      ensures identity != null ==> identity.trustStore == Trusted(identity.verifier, old(identity.trustStore), c, "OK" <= answer)
      ensures registry.notified == if registry.hasCallback && Tells(c, "OK" <= answer)
                then old(registry.notified) + [c.registration] else old(registry.notified)
    {
      ghost var before, store := registry.records, StoreOf(identity);
      answer := Dispatch(registry, c, now);
      AnswerHasEffect(config, VerifierOf(identity), before, store, c, now, answer, registry.records, StoreOf(identity));
    }

    /** The ghost result is the command the line stands for. */
    method HandleLine(registry: AgentRegistry, line: string, now: int) returns (answer: string, ghost c: Command)
      requires registry.Valid()
      modifies registry`records, registry`notified, identity
      ensures registry.Valid()
      ensures c == Parse(line, now, Expiry(config, now))
      ensures registry.records == Handled(config, old(registry.records), c, now)
      ensures identity != null ==>
                identity.trustStore
                == HandledStore(config, identity.verifier, old(registry.records), old(identity.trustStore), c)
      ensures IsAnswer(config, old(registry.records), c, answer)
      ensures c.action == Register || c.action == Merge ==> c.registration.expiresAt == now + config.heartbeatTtl
      ensures Effect(old(View(registry.records)), c, now, config.heartbeatTtl, "OK" <= answer, View(registry.records))
      ensures identity != null ==>
                identity.trustStore
                == if "OK" <= answer && c.error == "" && (c.action == Register || c.action == Merge)
                      && SignatureStatusOf(identity.verifier, c.registration) == SignatureStatus.Valid
                      && c.agentId !in old(identity.trustStore)
                   then old(identity.trustStore)[c.agentId := Unhex(c.registration.publicKeyHex)]
                   else old(identity.trustStore)
      ensures registry.notified
              == if registry.hasCallback && "OK" <= answer && c.error == "" && (c.action == Register || c.action == Merge)
                 then old(registry.notified) + [c.registration] else old(registry.notified)
    {
      var command := ParseCommand(line, now, Expiry(config, now));
      c := command;
      ParsedExpiry(line, now, Expiry(config, now));
      ParsedIsWireSafe(line, now, Expiry(config, now));
      answer := Perform(registry, command, now);
    }
  }
}
