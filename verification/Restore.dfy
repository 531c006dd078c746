/** The mapping between registry records and log entries, and the restart of a node from its log. */
module Restore {
  import opened Bytes
  import opened Records
  import opened Crypto
  import opened Registry
  import opened Loading
  import opened Persistence
  import opened Recovery

  /** What the upsert callback writes: metadata and expiry are not persisted. */
  function EntryOf(r: AgentRecord): Entry {
    Entry(r.agentId, r.nodeId, r.endpoint, r.revision, Unhex(r.publicKeyHex), Unhex(r.signatureHex))
  }

  /** What a restart makes of an entry; the expiry is the time of construction. */
  function RecordOf(e: Entry, now: int): AgentRecord {
    AgentRecord(e.agentId, e.capability, e.endpoint, [], e.timestamp, now, Hex(e.publicKey), Hex(e.signature))
  }

  lemma EntryRoundTrip(e: Entry, now: int, expiresAt: int)
    ensures EntryOf(RecordOf(e, now).(expiresAt := expiresAt)) == e
  {
    HexRoundTrip(e.publicKey);
    HexRoundTrip(e.signature);
  }

  function RecordsOf(es: seq<Entry>, clock: nat -> int): (rs: seq<AgentRecord>)
    ensures |rs| == |es|
    ensures forall i :: 0 <= i < |es| ==> rs[i] == RecordOf(es[i], clock(i))
  {
    seq(|es|, i requires 0 <= i < |es| => RecordOf(es[i], clock(i)))
  }

  /** The callback: fill an entry field by field and append it to the log. */
  method OnUpsert(r: AgentRecord, persistence: PersistenceService)
    requires persistence.Valid()
    modifies persistence`disk
    ensures var e := Entry(r.agentId, r.nodeId, r.endpoint, r.revision, Unhex(r.publicKeyHex), Unhex(r.signatureHex));
      persistence.disk == if persistence.walOpen
        then old(persistence.disk).(wal := old(persistence.disk.wal) + RecordBytes(persistence.codec, e))
        else old(persistence.disk)
  {
    var publicKey := DecodeHex(r.publicKeyHex);
    var signature := DecodeHex(r.signatureHex);
    persistence.AppendEntry(Entry(r.agentId, r.nodeId, r.endpoint, r.revision, publicKey, signature));
  }

  /** The start-up block of the engine: recover, map, load, and only then set the callback. */
  method StartUp(persistence: PersistenceService, registry: AgentRegistry, clock: nat -> int, now: int)
    returns (result: Recovered)
    requires persistence.Valid() && registry.Valid()
    modifies registry`records, registry`hasCallback
    ensures registry.Valid()
    ensures registry.hasCallback == (old(registry.hasCallback) || result.Recovered?)
    ensures result == Recover(persistence.codec, persistence.disk)
    ensures result.Refused? ==> registry.records == old(registry.records)
    ensures result.Recovered? ==>
              registry.records == LoadedAll(old(registry.records), RecordsOf(result.entries, clock), now + 31_536_000_000)
    ensures result.Recovered? && old(registry.records) == [] ==>
              View(registry.records).Keys == Newest(result.entries).Keys
    ensures result.Recovered? && old(registry.records) == [] ==>
              forall id :: id in View(registry.records) ==> RestoredFrom(View(registry.records)[id], Newest(result.entries)[id])
  {
    result := persistence.RecoverAll();
    if result.Recovered? {
      var restored: seq<AgentRecord> := [];
      for i := 0 to |result.entries|
        modifies {}
        invariant restored == RecordsOf(result.entries, clock)[..i]
      {
        var e := result.entries[i];
        var publicKeyHex := EncodeHex(e.publicKey);
        var signatureHex := EncodeHex(e.signature);
        var r := EmptyRecord(clock(i)).(agentId := e.agentId, nodeId := e.capability, endpoint := e.endpoint,
                                        revision := e.timestamp, publicKeyHex := publicKeyHex, signatureHex := signatureHex);
        restored := restored + [r];
      }
      assert restored == RecordsOf(result.entries, clock);
      registry.LoadFromPersistence(restored, now);
      registry.SetUpsertCallback();
      RestartedView(result.entries, clock, now + 31_536_000_000);
    }
  }

  lemma RecordsOfSnoc(es: seq<Entry>, e: Entry, clock: nat -> int)
    ensures RecordsOf(es + [e], clock) == RecordsOf(es, clock) + [RecordOf(e, clock(|es|))]
  {
  }

  /** The registry and the map of entries agree on an agent's persisted fields. */
  ghost predicate Agree(records: seq<AgentRecord>, m: map<string, Entry>, id: string) {
    && (Has(records, id) <==> id in m)
    && (Has(records, id) ==> EntryOf(Lookup(records, id)) == m[id])
  }

  lemma LoadAgrees(records: seq<AgentRecord>, m: map<string, Entry>, e: Entry, now: int, farFuture: int, id: string)
    requires UniqueIds(records) && Agree(records, m, id)
    ensures Agree(Loaded(records, RecordOf(e, now), farFuture), Newer(m, e), id)
  {
    LoadedLookup(records, RecordOf(e, now), farFuture, id);
    EntryRoundTrip(e, now, farFuture);
    EntryRoundTrip(e, now, now);
    if Has(records, id) {
      assert Lookup(records, id).revision == m[id].timestamp;
    }
  }

  /** A restarted registry holds, in its persisted fields, exactly the newest recovered entry of each agent. */
  lemma {:induction false} RestartHoldsNewest(es: seq<Entry>, clock: nat -> int, farFuture: int, id: string)
    ensures Agree(LoadedAll([], RecordsOf(es, clock), farFuture), Newest(es), id)
  {
    if es != [] {
      var front, e := es[..|es| - 1], es[|es| - 1];
      var restored := RecordsOf(front, clock);
      assert es == front + [e];
      RecordsOfSnoc(front, e, clock);
      LoadedAllSnoc([], restored, RecordOf(e, clock(|front|)), farFuture);
      LoadedAllUnique([], restored, farFuture);
      RestartHoldsNewest(front, clock, farFuture, id);
      LoadAgrees(LoadedAll([], restored, farFuture), Newest(front), e, clock(|front|), farFuture, id);
    }
  }

  /** The record has the entry's fields, keys that decode to its bytes, and no metadata. */
  predicate RestoredFrom(r: AgentRecord, e: Entry) {
    && r.agentId == e.agentId && r.nodeId == e.capability && r.endpoint == e.endpoint && r.revision == e.timestamp
    && r.metadata == [] && Unhex(r.publicKeyHex) == e.publicKey && Unhex(r.signatureHex) == e.signature
  }

  lemma RecordRestored(e: Entry, now: int, expiresAt: int)
    ensures RestoredFrom(RecordOf(e, now).(expiresAt := expiresAt), e) && RestoredFrom(RecordOf(e, now), e)
  {
    HexRoundTrip(e.publicKey);
    HexRoundTrip(e.signature);
  }

  /** Every record of a restarted registry is its newest entry, field by field. */
  lemma RestartFields(es: seq<Entry>, clock: nat -> int, farFuture: int, id: string)
    ensures var t := LoadedAll([], RecordsOf(es, clock), farFuture);
      (Has(t, id) <==> id in Newest(es)) && (Has(t, id) ==> RestoredFrom(Lookup(t, id), Newest(es)[id]))
  {
    var rs := RecordsOf(es, clock);
    var t := LoadedAll([], rs, farFuture);
    RestartHoldsNewest(es, clock, farFuture, id);
    if Has(t, id) {
      var w := LoadKeepsFirstMaximum(rs, farFuture, id);
      RecordRestored(es[w], clock(w), farFuture);
      SameEntry(Lookup(t, id), es[w], Newest(es)[id]);
    }
  }

  lemma SameEntry(r: AgentRecord, e: Entry, f: Entry)
    requires RestoredFrom(r, e) && EntryOf(r) == f
    ensures e == f
  {
  }

  lemma RestartedView(es: seq<Entry>, clock: nat -> int, farFuture: int)
    ensures var v := View(LoadedAll([], RecordsOf(es, clock), farFuture));
      v.Keys == Newest(es).Keys && forall id :: id in v ==> RestoredFrom(v[id], Newest(es)[id])
  {
    var t := LoadedAll([], RecordsOf(es, clock), farFuture);
    forall id ensures (id in View(t) <==> id in Newest(es)) && (id in View(t) ==> RestoredFrom(View(t)[id], Newest(es)[id])) {
      ViewKeys(t, id);
      RestartFields(es, clock, farFuture, id);
    }
  }

  lemma LoadedOne(r: AgentRecord, farFuture: int)
    ensures LoadedAll([], [r], farFuture) == [r.(expiresAt := farFuture)]
  {
    assert [r][1..] == [];
    assert Loaded([], r, farFuture) == [r.(expiresAt := farFuture)];
  }

  /**
   A record that is logged alone and found again at a restart keeps its agent, node,
   endpoint and revision, has its keys in lower case, and has lost its metadata.
   */
  lemma LoggedThenRestarted(codec: Codec, r: AgentRecord, clock: nat -> int, farFuture: int) returns (q: AgentRecord)
    requires Lawful(codec) && r.revision > 0 && IsHex(r.publicKeyHex) && IsHex(r.signatureHex)
    requires Storable(codec, Entry(r.agentId, r.nodeId, r.endpoint, r.revision, Unhex(r.publicKeyHex), Unhex(r.signatureHex)))
    ensures var e := Entry(r.agentId, r.nodeId, r.endpoint, r.revision, Unhex(r.publicKeyHex), Unhex(r.signatureHex));
      && Recover(codec, Disk(None, RecordBytes(codec, e))) == Recovered([e])
      && LoadedAll([], RecordsOf([e], clock), farFuture) == [q]
    ensures q.agentId == r.agentId && q.nodeId == r.nodeId && q.endpoint == r.endpoint && q.revision == r.revision
    ensures q.metadata == [] && q.expiresAt == farFuture
    ensures LowerCaseOf(q.publicKeyHex, r.publicKeyHex) && LowerCaseOf(q.signatureHex, r.signatureHex)
  {
    var e := Entry(r.agentId, r.nodeId, r.endpoint, r.revision, Unhex(r.publicKeyHex), Unhex(r.signatureHex));
    RecoversOne(codec, e);
    HexNormalises(r.publicKeyHex);
    HexNormalises(r.signatureHex);
    q := RecordOf(e, clock(0)).(expiresAt := farFuture);
    assert RecordsOf([e], clock) == [RecordOf(e, clock(0))];
    LoadedOne(RecordOf(e, clock(0)), farFuture);
  }

  lemma RecoversOne(codec: Codec, e: Entry)
    requires Lawful(codec) && Storable(codec, e) && e.timestamp > 0
    ensures Recover(codec, Disk(None, RecordBytes(codec, e))) == Recovered([e])
  {
    LogBytesOne(codec, e);
    ReplayWholeLog(codec, [e], 0);
    assert [e][1..] == [];
    assert Fresh([e], 0) == [e];
    assert [] + [e] == [e];
  }

  predicate LowerCaseOf(lower: string, s: string) {
    |lower| == |s| && forall i :: 0 <= i < |s| ==> lower[i] == LowerHex(s[i])
  }

  /** A crash at any moment of a snapshot rotation restarts into the same persisted fields. */
  lemma RotationThenRestart(
    codec: Codec, disk: Disk, es: seq<Entry>, clock: nat -> int, farFuture: int, crash: Disk, id: string)
    requires Lawful(codec) && Recover(codec, disk).Recovered?
    requires Newest(es) == Newest(Recover(codec, disk).entries)
    requires |es| <= MAX_SNAPSHOT_RECORDS && forall e :: e in es ==> Storable(codec, e)
    requires crash in {disk, Disk(Some(SnapshotBytes(codec, es)), disk.wal), Disk(Some(SnapshotBytes(codec, es)), [])}
    ensures Recover(codec, crash).Recovered?
    ensures var was := LoadedAll([], RecordsOf(Recover(codec, disk).entries, clock), farFuture);
      var now := LoadedAll([], RecordsOf(Recover(codec, crash).entries, clock), farFuture);
      && (Has(was, id) <==> Has(now, id))
      && (Has(was, id) ==> EntryOf(Lookup(was, id)) == EntryOf(Lookup(now, id)))
  {
    RotationIsCrashSafe(codec, disk, es);
    RestartHoldsNewest(Recover(codec, disk).entries, clock, farFuture, id);
    RestartHoldsNewest(Recover(codec, crash).entries, clock, farFuture, id);
  }
}
