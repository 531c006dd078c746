/** What holds of the registry over whole runs: unique ids, rising revisions and trusted keys. */
module RegistryRuns {
  import opened Bytes
  import opened Records
  import opened Crypto
  import opened Identity
  import opened Registry

  // ---------- Runs of registry operations ----------

  datatype Op =
    | UpsertOp(r: AgentRecord)
    | HeartbeatOp(id: string, expiresAt: int, revision: u64)
    | PurgeOp(now: int)
    | LoadOp(r: AgentRecord, farFuture: int)

  function Apply(records: seq<AgentRecord>, op: Op): seq<AgentRecord> {
    match op
    case UpsertOp(r) => Upserted(records, r)
    case HeartbeatOp(id, expiresAt, revision) => Refreshed(records, id, expiresAt, revision)
    case PurgeOp(now) => Purged(records, now)
    case LoadOp(r, farFuture) => Loaded(records, r, farFuture)
  }

  function Run(records: seq<AgentRecord>, ops: seq<Op>): seq<AgentRecord>
    decreases ops
  {
    if ops == [] then records else Run(Apply(records, ops[0]), ops[1..])
  }

  lemma ApplyKeepsUnique(records: seq<AgentRecord>, op: Op)
    requires UniqueIds(records)
    ensures UniqueIds(Apply(records, op))
  {
    match op
    case UpsertOp(r) => UpsertKeepsUnique(records, r);
    case HeartbeatOp(id, expiresAt, revision) => RefreshKeepsUnique(records, id, expiresAt, revision);
    case PurgeOp(now) => PurgeKeepsUnique(records, now);
    case LoadOp(r, farFuture) => LoadKeepsUnique(records, r, farFuture);
  }

  /** Ids are unique in every reachable state. */
  lemma {:induction false} RunKeepsUnique(records: seq<AgentRecord>, ops: seq<Op>)
    requires UniqueIds(records)
    ensures UniqueIds(Run(records, ops))
    decreases ops
  {
    if ops != [] {
      ApplyKeepsUnique(records, ops[0]);
      RunKeepsUnique(Apply(records, ops[0]), ops[1..]);
    }
  }

  /** The agent is in the registry before and after every operation of the run. */
  predicate StaysPresent(records: seq<AgentRecord>, ops: seq<Op>, id: string)
    decreases ops
  {
    Has(records, id) && (ops != [] ==> StaysPresent(Apply(records, ops[0]), ops[1..], id))
  }

  lemma ReplacedLookup(records: seq<AgentRecord>, i: nat, r: AgentRecord, id: string)
    requires UniqueIds(records) && i < |records| && r.agentId == records[i].agentId
    requires Has(records, id)
    ensures Has(records[i := r], id)
    ensures Lookup(records[i := r], id) == if id == r.agentId then r else Lookup(records, id)
  {
    var p := Position(records, id);
    assert records[i := r][p].agentId == id;
    PositionIs(records[i := r], p);
    PositionIs(records, i);
  }

  lemma AppendedLookup(records: seq<AgentRecord>, r: AgentRecord, id: string)
    requires UniqueIds(records) && !Has(records, r.agentId) && Has(records, id)
    ensures Has(records + [r], id) && Lookup(records + [r], id) == Lookup(records, id)
  {
    var p := Position(records, id);
    assert (records + [r])[p] == records[p];
    PositionIs(records + [r], p);
  }

  lemma StepNeverLowers(records: seq<AgentRecord>, op: Op, id: string)
    requires UniqueIds(records)
    requires Has(records, id) && Has(Apply(records, op), id)
    ensures Lookup(Apply(records, op), id).revision >= Lookup(records, id).revision
  {
    match op
    case UpsertOp(r) => UpsertLookup(records, r, id);
    case HeartbeatOp(agent, expiresAt, revision) =>
      if HeartbeatAccepted(records, agent, revision) {
        var r := Lookup(records, agent).(expiresAt := expiresAt, revision := revision);
        ReplacedLookup(records, Position(records, agent), r, id);
      }
    case PurgeOp(now) =>
      PurgeKeepsUnique(records, now);
      assert Lookup(Purged(records, now), id) in records;
      InView(records, Lookup(Purged(records, now), id));
      ViewKeys(records, id);
    case LoadOp(r, farFuture) =>
      if !Has(records, r.agentId) {
        AppendedLookup(records, r.(expiresAt := farFuture), id);
      } else if r.revision > Lookup(records, r.agentId).revision {
        ReplacedLookup(records, Position(records, r.agentId), r, id);
      }
  }

  /** Over every run, the revision of an agent that stays present never falls. */
  lemma {:induction false} RevisionNeverFalls(records: seq<AgentRecord>, ops: seq<Op>, id: string)
    requires UniqueIds(records)
    requires StaysPresent(records, ops, id)
    ensures Has(Run(records, ops), id)
    ensures Lookup(Run(records, ops), id).revision >= Lookup(records, id).revision
    decreases ops
  {
    if ops != [] {
      ApplyKeepsUnique(records, ops[0]);
      StepNeverLowers(records, ops[0], id);
      RevisionNeverFalls(Apply(records, ops[0]), ops[1..], id);
    }
  }

  // ---------- Pinned keys over runs ----------

  function StoredKey(records: seq<AgentRecord>, id: string): string
    requires Has(records, id)
  {
    Lookup(records, id).publicKeyHex
  }

  /**
   The operation takes the agent's key away: an accepted upsert without a key, or a
   load, which does not look at keys, of a newer record with another one.
   */
  predicate Unpins(records: seq<AgentRecord>, op: Op, id: string)
    requires Has(records, id)
  {
    match op
    case UpsertOp(r) => r.agentId == id && Accepts(records, r) && r.publicKeyHex == ""
    case LoadOp(r, _) =>
      r.agentId == id && r.revision > Lookup(records, id).revision && r.publicKeyHex != StoredKey(records, id)
    case _ => false
  }

  predicate NeverUnpins(records: seq<AgentRecord>, ops: seq<Op>, id: string)
    requires StaysPresent(records, ops, id)
    decreases ops
  {
    ops != [] ==> !Unpins(records, ops[0], id) && NeverUnpins(Apply(records, ops[0]), ops[1..], id)
  }

  /** The agent has this key before and after every operation of the run. */
  predicate KeepsKey(records: seq<AgentRecord>, ops: seq<Op>, id: string, key: string)
    requires StaysPresent(records, ops, id)
    decreases ops
  {
    StoredKey(records, id) == key && (ops != [] ==> KeepsKey(Apply(records, ops[0]), ops[1..], id, key))
  }

  lemma StepKeepsKeyIff(records: seq<AgentRecord>, op: Op, id: string)
    requires UniqueIds(records) && Has(records, id) && Has(Apply(records, op), id) && StoredKey(records, id) != ""
    ensures StoredKey(Apply(records, op), id) == StoredKey(records, id) <==> !Unpins(records, op, id)
  {
    match op
    case UpsertOp(r) => UpsertLookup(records, r, id);
    case HeartbeatOp(agent, expiresAt, revision) =>
      if HeartbeatAccepted(records, agent, revision) {
        var r := Lookup(records, agent).(expiresAt := expiresAt, revision := revision);
        ReplacedLookup(records, Position(records, agent), r, id);
      }
    case PurgeOp(now) =>
      PurgeKeepsUnique(records, now);
      assert Lookup(Purged(records, now), id) in records;
      InView(records, Lookup(Purged(records, now), id));
      ViewKeys(records, id);
    case LoadOp(r, farFuture) =>
      if !Has(records, r.agentId) {
        AppendedLookup(records, r.(expiresAt := farFuture), id);
      } else if r.revision > Lookup(records, r.agentId).revision {
        ReplacedLookup(records, Position(records, r.agentId), r, id);
      }
  }

  /**
   Over every run in which the agent stays present, its key stays if and only if no
   accepted upsert came without a key and no load brought another.
   */
  lemma {:induction false} KeyKeptIff(records: seq<AgentRecord>, ops: seq<Op>, id: string)
    requires UniqueIds(records) && StaysPresent(records, ops, id) && StoredKey(records, id) != ""
    ensures KeepsKey(records, ops, id, StoredKey(records, id)) <==> NeverUnpins(records, ops, id)
    decreases ops
  {
    if ops != [] {
      var next := Apply(records, ops[0]);
      ApplyKeepsUnique(records, ops[0]);
      StepKeepsKeyIff(records, ops[0], id);
      if StoredKey(next, id) == StoredKey(records, id) {
        KeyKeptIff(next, ops[1..], id);
      }
    }
  }

  /** An unkeyed record in between lets a second key in, which is refused without it. */
  lemma UnkeyedLetsGo(a: AgentRecord, e: AgentRecord, b: AgentRecord)
    requires a.agentId == e.agentId == b.agentId && a.revision <= e.revision <= b.revision
    requires KeyConflict(a, b) && e.publicKeyHex == ""
    ensures Upserted(Upserted(Upserted([], a), e), b) == [b]
    ensures Upserted(Upserted([], a), b) == [a]
  {
    assert Upserted([], a) == [a];
    assert Upserted([a], e) == [e];
    assert Upserted([e], b) == [b];
  }

  // ---------- Trusted keys over runs of checked merges ----------

  datatype CheckedOp =
    | MergeOp(list: seq<AgentRecord>)
    | BeatOp(id: string, expiresAt: int, revision: u64)
    | ExpireOp(now: int)

  function ApplyChecked(verifier: Verifier, s: MergeState, op: CheckedOp): MergeState {
    match op
    case MergeOp(list) => MergeAll(Some(verifier), s, list)
    case BeatOp(id, expiresAt, revision) => s.(records := Refreshed(s.records, id, expiresAt, revision))
    case ExpireOp(now) => s.(records := Purged(s.records, now))
  }

  function RunChecked(verifier: Verifier, s: MergeState, ops: seq<CheckedOp>): MergeState
    decreases ops
  {
    if ops == [] then s else RunChecked(verifier, ApplyChecked(verifier, s, ops[0]), ops[1..])
  }

  /** Every stored record with both a key and a signature carries the trusted key of its agent. */
  ghost predicate KeysTrusted(s: MergeState) {
    forall r :: r in s.records && r.publicKeyHex != "" && r.signatureHex != "" ==>
      r.agentId in s.store && s.store[r.agentId] == Unhex(r.publicKeyHex)
  }

  lemma MergeOneTrusted(verifier: Verifier, s: MergeState, r: AgentRecord)
    requires KeysTrusted(s)
    ensures var t := MergeOne(Some(verifier), s, r); KeysTrusted(t) && KeysKept(s.store, t.store)
  {
    var t := MergeOne(Some(verifier), s, r);
    CheckPins(verifier, s.store, r);
    forall q | q in t.records && q.publicKeyHex != "" && q.signatureHex != ""
      ensures q.agentId in t.store && t.store[q.agentId] == Unhex(q.publicKeyHex)
    {
      if q in s.records {
        assert q.agentId in s.store;
      } else {
        assert q == r;
      }
    }
  }

  lemma {:induction false} MergeAllTrusted(verifier: Verifier, s: MergeState, list: seq<AgentRecord>)
    requires KeysTrusted(s)
    ensures var t := MergeAll(Some(verifier), s, list); KeysTrusted(t) && KeysKept(s.store, t.store)
    decreases list
  {
    if list != [] {
      MergeOneTrusted(verifier, s, list[0]);
      MergeAllTrusted(verifier, MergeOne(Some(verifier), s, list[0]), list[1..]);
    }
  }

  lemma BeatTrusted(s: MergeState, id: string, expiresAt: int, revision: u64)
    requires KeysTrusted(s)
    ensures KeysTrusted(s.(records := Refreshed(s.records, id, expiresAt, revision)))
  {
    if HeartbeatAccepted(s.records, id, revision) {
      var p, after := Position(s.records, id), Refreshed(s.records, id, expiresAt, revision);
      forall q | q in after && q.publicKeyHex != "" && q.signatureHex != ""
        ensures q.agentId in s.store && s.store[q.agentId] == Unhex(q.publicKeyHex)
      {
        var i :| 0 <= i < |after| && after[i] == q;
        assert s.records[i] in s.records;
      }
    }
  }

  /** Over every run of checked merges, heartbeats and purges, keys stay as first trusted and records agree with them. */
  lemma {:induction false} TrustOverRuns(verifier: Verifier, s: MergeState, ops: seq<CheckedOp>)
    requires KeysTrusted(s)
    ensures var t := RunChecked(verifier, s, ops); KeysTrusted(t) && KeysKept(s.store, t.store)
    decreases ops
  {
    if ops != [] {
      match ops[0] {
        case MergeOp(list) => MergeAllTrusted(verifier, s, list);
        case BeatOp(id, expiresAt, revision) => BeatTrusted(s, id, expiresAt, revision);
        case ExpireOp(now) =>
      }
      TrustOverRuns(verifier, ApplyChecked(verifier, s, ops[0]), ops[1..]);
    }
  }

  /**
   After a heartbeat the stored signature still refers to the payload of the stored
   record exactly when the revision stayed the same.
   */
  lemma HeartbeatChangesPayload(records: seq<AgentRecord>, id: string, expiresAt: int, revision: u64)
    requires UniqueIds(records) && HeartbeatAccepted(records, id, revision)
    ensures var after := Refreshed(records, id, expiresAt, revision);
      && Has(after, id) && Lookup(after, id).signatureHex == Lookup(records, id).signatureHex
      && (Payload(Lookup(after, id)) == Payload(Lookup(records, id)) <==> revision == Lookup(records, id).revision)
  {
    var r := Lookup(records, id);
    ReplacedLookup(records, Position(records, id), r.(expiresAt := expiresAt, revision := revision), id);
    PayloadFixesRevision(r, revision, expiresAt);
  }
}
