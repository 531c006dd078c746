/** How long what a sync brings over lives. */
module SyncExpiry {
  import opened Bytes
  import Text
  import opened Records
  import opened Crypto
  import opened Identity
  import opened Registry
  import opened ControlProtocol
  import opened LineHandler
  import opened SyncClient
  import opened SyncTheorems

  // ---------- On the side that pulls ----------

  lemma {:induction false} FieldsKeepExpiry(r: AgentRecord, tokens: seq<string>)
    ensures TakeFields(r, tokens).expiresAt == r.expiresAt
    decreases tokens
  {
    if tokens != [] {
      FieldsKeepExpiry(TakeField(r, tokens[0]), tokens[1..]);
    }
  }

  lemma LineExpiry(line: string, expiresAt: int)
    ensures var found := AgentOf(line, expiresAt);
      found.Some? ==> found.value.expiresAt == expiresAt && found.value.agentId != ""
  {
    var tokens := Text.Tokens(line);
    if tokens != [] {
      FieldsKeepExpiry(EmptyRecord(expiresAt), tokens[1..]);
    }
  }

  lemma {:induction false} SomesMember(found: seq<Option<AgentRecord>>, r: AgentRecord)
    requires r in Somes(found)
    ensures Some(r) in found
  {
    if found != [] && Some(r) != found[0] {
      SomesMember(found[1..], r);
    }
  }

  /** Whatever an answer says, what is read from it names an agent and gets the given expiry. */
  lemma ReadExpiry(lines: seq<string>, expiresAt: int, r: AgentRecord)
    requires r in AgentsOf(lines, expiresAt)
    ensures r.expiresAt == expiresAt && r.agentId != ""
  {
    var found := ReadLines(lines, expiresAt);
    SomesMember(found, r);
    var i :| 0 <= i < |found| && found[i] == Some(r);
    LineExpiry(lines[i], expiresAt);
  }

  lemma {:induction false} MergedMember(identity: Option<Verifier>, s: MergeState, list: seq<AgentRecord>, q: AgentRecord)
    requires q in MergeAll(identity, s, list).records
    ensures q in s.records || q in list
    decreases list
  {
    if list != [] {
      var next := MergeOne(identity, s, list[0]);
      MergedMember(identity, next, list[1..], q);
      if q in next.records && q !in s.records {
        UpsertedMember(s.records, list[0], q);
      }
    }
  }

  // ---------- On the side that is pushed to ----------

  lemma HandledMember(config: Config, records: seq<AgentRecord>, c: Command, now: int, q: AgentRecord)
    requires q in Handled(config, records, c, now)
    requires c.action == Register || c.action == Merge ==> c.registration.expiresAt == now + config.heartbeatTtl
    ensures q in records || q.expiresAt == now + config.heartbeatTtl
  {
    if q !in records {
      if c.error == "" && (c.action == Register || c.action == Merge) {
        UpsertedMember(records, c.registration, q);
      }
    }
  }

  lemma {:induction false} HandledAllMember(server: Server, s: PushState, cs: seq<Command>, now: int, q: AgentRecord)
    requires q in HandleAll(server, s, cs, now).records
    requires forall i :: 0 <= i < |cs| ==> TimedWrite(cs[i], now + server.config.heartbeatTtl)
    ensures q in s.records || q.expiresAt == now + server.config.heartbeatTtl
    decreases cs
  {
    if cs != [] {
      var next := HandleOne(server, s, cs[0], now);
      assert TimedWrite(cs[0], now + server.config.heartbeatTtl);
      HandledAllMember(server, next, cs[1..], now, q);
      if q in next.records {
        HandledMember(server.config, s.records, cs[0], now, q);
      }
    }
  }

  predicate TimedWrite(c: Command, expiresAt: int) {
    c.action == Register || c.action == Merge ==> c.registration.expiresAt == expiresAt
  }

  lemma ReceivedTimed(cs: seq<Command>, rs: seq<AgentRecord>, now: int, expiresAt: int, i: nat)
    requires AllReceived(cs, rs, now, expiresAt) && i < |cs|
    ensures TimedWrite(cs[i], expiresAt)
  {
    assert IsReceived(cs, rs, i, now, expiresAt);
    ParsedExpiry(FirstLine(MergeText(rs[i])), now, expiresAt);
  }

  // ---------- The sync ----------

  lemma PulledExpiry(
    y: Sync, store: TrustStore, local: seq<AgentRecord>, above: u64, peer: seq<AgentRecord>,
    pulled: seq<AgentRecord>, merged: MergeState, q: AgentRecord)
    requires PulledByText(y, store, local, above, peer, pulled, merged) && q in merged.records && q !in local
    ensures q.expiresAt == y.now + 60_000
  {
    var lines := Text.Lines(ListText(PULL_HEADER, pulled));
    MergedMember(y.identity, MergeState(local, store, 0), AgentsOf(lines, PullExpiry(y.now)), q);
    ReadExpiry(lines, PullExpiry(y.now), q);
  }

  lemma PushedExpiry(
    y: Sync, peer: seq<AgentRecord>, above: u64, local: seq<AgentRecord>,
    pushed: seq<AgentRecord>, commands: seq<Command>, after: PushState, q: AgentRecord)
    requires PushedByText(y, peer, above, local, pushed, commands, after) && q in after.records && q !in peer
    ensures q.expiresAt == y.now + y.server.config.heartbeatTtl
  {
    forall i | 0 <= i < |commands| ensures TimedWrite(commands[i], y.now + y.server.config.heartbeatTtl) {
      ReceivedTimed(commands, pushed, y.now, Expiry(y.server.config, y.now), i);
    }
    HandledAllMember(y.server, PushState(peer, y.peerStore, 0), commands, y.now, q);
  }

  /**
   Whatever two registries hold, a record that a sync brings over lives a minute on
   the side that pulled it and the heartbeat time on the side it was pushed to, and
   no purge before that takes it.
   */
  lemma SyncedLives(
    y: Sync, store: TrustStore, local: seq<AgentRecord>, peer: seq<AgentRecord>,
    pulled: seq<AgentRecord>, merged: MergeState, pushed: seq<AgentRecord>, commands: seq<Command>, after: PushState)
    requires SyncedByText(y, store, local, peer, pulled, merged, pushed, commands, after)
    ensures forall q :: q in merged.records && q !in local ==> q.expiresAt == y.now + 60_000
    ensures forall q :: q in after.records && q !in peer ==> q.expiresAt == y.now + y.server.config.heartbeatTtl
    ensures forall q, t :: q in merged.records && q !in local ==> (q in Purged(merged.records, t) <==> t < y.now + 60_000)
    ensures forall q, t :: q in after.records && q !in peer ==>
              (q in Purged(after.records, t) <==> t < y.now + y.server.config.heartbeatTtl)
  {
    forall q | q in merged.records && q !in local ensures q.expiresAt == y.now + 60_000 {
      PulledExpiry(y, store, local, HighestRevision(local), peer, pulled, merged, q);
    }
    forall q | q in after.records && q !in peer ensures q.expiresAt == y.now + y.server.config.heartbeatTtl {
      PushedExpiry(y, peer, HighestRevision(peer), merged.records, pushed, commands, after, q);
    }
  }
}
