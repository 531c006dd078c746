/**
 The revision registry: a vector of records that behaves as a map from agent id
 to record under last-writer-wins by revision, with pinned keys.
 */
module Registry {
  import opened Bytes
  import opened Records
  import opened Crypto
  import opened Identity

  // ---------- Looking up ----------

  /** Where `find_if` stops: the first record with that id, or the end. */
  function Position(records: seq<AgentRecord>, id: string): (i: nat)
    ensures i <= |records|
    ensures i < |records| ==> records[i].agentId == id
    ensures forall j :: 0 <= j < i ==> records[j].agentId != id
  {
    if records == [] || records[0].agentId == id then 0
    else
      var i := 1 + Position(records[1..], id);
      assert forall j :: 0 < j < i ==> records[j] == records[1..][j - 1];
      i
  }

  predicate Has(records: seq<AgentRecord>, id: string) {
    Position(records, id) < |records|
  }

  function Lookup(records: seq<AgentRecord>, id: string): AgentRecord
    requires Has(records, id)
  {
    records[Position(records, id)]
  }

  ghost predicate UniqueIds(records: seq<AgentRecord>) {
    forall i, j :: 0 <= i < j < |records| ==> records[i].agentId != records[j].agentId
  }

  /** The registry as a map. */
  ghost function View(records: seq<AgentRecord>): map<string, AgentRecord> {
    map id | id in (set r | r in records :: r.agentId) && Has(records, id) :: Lookup(records, id)
  }

  lemma HasIff(records: seq<AgentRecord>, id: string)
    ensures Has(records, id) <==> exists r :: r in records && r.agentId == id
  {
    if Has(records, id) {
      assert Lookup(records, id) in records;
    }
  }

  lemma ViewKeys(records: seq<AgentRecord>, id: string)
    ensures id in View(records) <==> Has(records, id)
    ensures Has(records, id) ==> View(records)[id] == Lookup(records, id)
  {
    HasIff(records, id);
  }

  lemma PositionIs(records: seq<AgentRecord>, i: nat)
    requires UniqueIds(records) && i < |records|
    ensures Position(records, records[i].agentId) == i
  {
  }

  lemma InView(records: seq<AgentRecord>, r: AgentRecord)
    requires UniqueIds(records) && r in records
    ensures r.agentId in View(records) && View(records)[r.agentId] == r
  {
    var i :| 0 <= i < |records| && records[i] == r;
    PositionIs(records, i);
    ViewKeys(records, r.agentId);
  }

  lemma SameStored(records: seq<AgentRecord>, a: AgentRecord, b: AgentRecord)
    requires UniqueIds(records) && a in records && b in records && a.agentId == b.agentId
    ensures a == b
  {
    InView(records, a);
    InView(records, b);
  }

  // ---------- Operations on values ----------

  predicate KeyConflict(old_: AgentRecord, new_: AgentRecord) {
    old_.publicKeyHex != "" && new_.publicKeyHex != "" && old_.publicKeyHex != new_.publicKeyHex
  }

  /** Last writer wins, ties included, unless the new record brings another key. */
  predicate Supersedes(new_: AgentRecord, old_: AgentRecord) {
    new_.revision >= old_.revision && !KeyConflict(old_, new_)
  }

  predicate Accepts(records: seq<AgentRecord>, r: AgentRecord) {
    Has(records, r.agentId) ==> Supersedes(r, Lookup(records, r.agentId))
  }

  function Upserted(records: seq<AgentRecord>, r: AgentRecord): seq<AgentRecord> {
    if !Has(records, r.agentId) then records + [r]
    else if Accepts(records, r) then records[Position(records, r.agentId) := r]
    else records
  }

  function UpsertAll(records: seq<AgentRecord>, rs: seq<AgentRecord>): seq<AgentRecord>
    decreases rs
  {
    if rs == [] then records else UpsertAll(Upserted(records, rs[0]), rs[1..])
  }

  predicate HeartbeatAccepted(records: seq<AgentRecord>, id: string, revision: u64) {
    Has(records, id) && revision >= Lookup(records, id).revision
  }

  function Refreshed(records: seq<AgentRecord>, id: string, expiresAt: int, revision: u64): seq<AgentRecord> {
    if HeartbeatAccepted(records, id, revision)
    then records[Position(records, id) := Lookup(records, id).(expiresAt := expiresAt, revision := revision)]
    else records
  }

  function Purged(records: seq<AgentRecord>, now: int): (rest: seq<AgentRecord>)
    ensures |rest| <= |records|
    ensures forall r :: r in rest <==> r in records && r.expiresAt > now
  {
    if records == [] then []
    else if records[0].expiresAt <= now then Purged(records[1..], now)
    else [records[0]] + Purged(records[1..], now)
  }

  function Loaded(records: seq<AgentRecord>, r: AgentRecord, farFuture: int): seq<AgentRecord> {
    if !Has(records, r.agentId) then records + [r.(expiresAt := farFuture)]
    else if r.revision > Lookup(records, r.agentId).revision then records[Position(records, r.agentId) := r]
    else records
  }

  function LoadedAll(records: seq<AgentRecord>, list: seq<AgentRecord>, farFuture: int): seq<AgentRecord>
    decreases list
  {
    if list == [] then records else LoadedAll(Loaded(records, list[0], farFuture), list[1..], farFuture)
  }

  function HighestRevision(records: seq<AgentRecord>): (h: u64)
    ensures forall r :: r in records ==> r.revision <= h
    ensures h == 0 || exists r :: r in records && r.revision == h
  {
    if records == [] then 0
    else
      var h := HighestRevision(records[1..]);
      assert forall r :: r in records ==> r == records[0] || r in records[1..];
      if records[0].revision >= h then records[0].revision else h
  }

  // ---------- Merge ----------

  /** What a merge has changed so far. */
  datatype MergeState = MergeState(records: seq<AgentRecord>, store: TrustStore, accepted: nat)

  /** One round of the merge loop; `identity` is the verifier when an identity service is attached. */
  function MergeOne(identity: Option<Verifier>, s: MergeState, r: AgentRecord): MergeState {
    var checked := if identity.Some? then CheckRecord(identity.value, s.store, r) else Checked(Missing, s.store);
    if checked.status != Valid && checked.status != Missing then s.(store := checked.store)
    else MergeState(Upserted(s.records, r), checked.store, s.accepted + if Accepts(s.records, r) then 1 else 0)
  }

  function MergeAll(identity: Option<Verifier>, s: MergeState, list: seq<AgentRecord>): MergeState
    decreases list
  {
    if list == [] then s else MergeAll(identity, MergeOne(identity, s, list[0]), list[1..])
  }

  /** The callback's calls after a merge: one more for every accepted record, in order. */
  function Told(identity: Option<Verifier>, s: MergeState, list: seq<AgentRecord>, calls: seq<AgentRecord>): seq<AgentRecord>
    decreases list
  {
    if list == [] then calls
    else
      var next := MergeOne(identity, s, list[0]);
      Told(identity, next, list[1..], if next.accepted > s.accepted then calls + [list[0]] else calls)
  }

  // ---------- Pull ----------

  function Select(records: seq<AgentRecord>, revision: u64): (s: seq<AgentRecord>)
    ensures |s| <= |records|
  {
    if records == [] then []
    else if records[0].revision > revision then [records[0]] + Select(records[1..], revision)
    else Select(records[1..], revision)
  }

  lemma {:induction false} SelectMembers(records: seq<AgentRecord>, revision: u64)
    ensures forall r :: r in Select(records, revision) <==> r in records && r.revision > revision
  {
    if records != [] {
      SelectMembers(records[1..], revision);
      assert records == [records[0]] + records[1..];
    }
  }

  predicate Ascending(s: seq<AgentRecord>) {
    forall i, j :: 0 <= i < j < |s| ==> s[i].revision <= s[j].revision
  }

  /** Some result of `std::sort`, which leaves the order of equal revisions open. */
  predicate SortedFrom(sorted: seq<AgentRecord>, s: seq<AgentRecord>) {
    multiset(sorted) == multiset(s) && Ascending(sorted)
  }

  function Page(sorted: seq<AgentRecord>, limit: nat): seq<AgentRecord> {
    if limit > 0 && |sorted| > limit then sorted[..limit] else sorted
  }

  /** `out` is a possible answer to a pull of everything above `revision`. */
  ghost predicate IsPull(records: seq<AgentRecord>, revision: u64, limit: nat, out: seq<AgentRecord>) {
    exists sorted :: SortedFrom(sorted, Select(records, revision)) && out == Page(sorted, limit)
  }

  function Insert(r: AgentRecord, s: seq<AgentRecord>): (t: seq<AgentRecord>)
    ensures multiset(t) == multiset{r} + multiset(s)
  {
    if s == [] || r.revision <= s[0].revision then [r] + s
    else
      assert s == [s[0]] + s[1..];
      [s[0]] + Insert(r, s[1..])
  }

  lemma {:induction false} InsertMember(r: AgentRecord, s: seq<AgentRecord>, j: nat)
    requires j < |Insert(r, s)|
    ensures Insert(r, s)[j] == r || Insert(r, s)[j] in s
  {
    if s != [] && r.revision > s[0].revision && j > 0 {
      InsertMember(r, s[1..], j - 1);
    }
  }

  lemma {:induction false} InsertAscending(r: AgentRecord, s: seq<AgentRecord>)
    requires Ascending(s)
    ensures Ascending(Insert(r, s))
  {
    if s != [] && r.revision > s[0].revision {
      var t := Insert(r, s[1..]);
      InsertAscending(r, s[1..]);
      forall j | 0 <= j < |t| ensures s[0].revision <= t[j].revision { InsertMember(r, s[1..], j); }
    }
  }

  function SortByRevision(s: seq<AgentRecord>): (t: seq<AgentRecord>)
    ensures SortedFrom(t, s)
  {
    if s == [] then []
    else
      var t := SortByRevision(s[1..]);
      InsertAscending(s[0], t);
      assert s == [s[0]] + s[1..];
      Insert(s[0], t)
  }

  // ---------- The registry object ----------

  function VerifierOf(identity: IdentityService?): Option<Verifier> {
    if identity == null then None else Some(identity.verifier)
  }

  function StoreOf(identity: IdentityService?): TrustStore
    reads identity
  {
    if identity == null then map[] else identity.trustStore
  }

  lemma MergeAllStep(identity: Option<Verifier>, s: MergeState, list: seq<AgentRecord>, i: nat, calls: seq<AgentRecord>)
    requires i < |list|
    ensures MergeAll(identity, s, list[i..]) == MergeAll(identity, MergeOne(identity, s, list[i]), list[i + 1..])
    ensures var next := MergeOne(identity, s, list[i]);
      Told(identity, s, list[i..], calls)
      == Told(identity, next, list[i + 1..], if next.accepted > s.accepted then calls + [list[i]] else calls)
  {
    assert list[i..][0] == list[i] && list[i..][1..] == list[i + 1..];
  }

  class AgentRegistry {
    var records: seq<AgentRecord>
    /** The calls made to the upsert callback, if one is set. */
    var hasCallback: bool
    var notified: seq<AgentRecord>

    ghost predicate Valid()
      reads this
    {
      UniqueIds(records)
    }

    constructor ()
      ensures Valid() && records == [] && !hasCallback && notified == []
    {
      records, hasCallback, notified := [], false, [];
    }

    method SetUpsertCallback()
      modifies this`hasCallback
      ensures hasCallback
    {
      hasCallback := true;
    }

    method FindIndex(id: string) returns (i: nat)
      ensures i == Position(records, id)
    {
      i := 0;
      while i < |records| && records[i].agentId != id
        invariant i <= |records|
        invariant forall j :: 0 <= j < i ==> records[j].agentId != id
      {
        i := i + 1;
      }
    }

    /** The part of `upsert` that runs under the lock. */
    method Commit(r: AgentRecord) returns (accepted: bool)
      requires Valid()
      modifies this`records
      ensures Valid()
      ensures accepted == Accepts(old(records), r)
      ensures records == Upserted(old(records), r)
    {
      UpsertKeepsUnique(records, r);
      var i := FindIndex(r.agentId);
      if i == |records| {
        records := records + [r];
      } else {
        var existing := records[i];
        if r.revision < existing.revision {
          return false;
        }
        if existing.publicKeyHex != "" && r.publicKeyHex != "" && existing.publicKeyHex != r.publicKeyHex {
          return false;
        }
        records := records[i := r];
      }
      return true;
    }

    method Upsert(r: AgentRecord) returns (accepted: bool)
      requires Valid()
      modifies this`records, this`notified
      ensures Valid()
      ensures accepted == Accepts(old(records), r)
      ensures records == Upserted(old(records), r)
      ensures notified == if accepted && hasCallback then old(notified) + [r] else old(notified)
    {
      accepted := Commit(r);
      if accepted && hasCallback {
        notified := notified + [r];
      }
    }

    method RefreshHeartbeat(id: string, expiresAt: int, revision: u64) returns (accepted: bool)
      requires Valid()
      modifies this`records
      ensures Valid()
      ensures accepted == HeartbeatAccepted(old(records), id, revision)
      ensures records == Refreshed(old(records), id, expiresAt, revision)
    {
      var i := FindIndex(id);
      if i == |records| || revision < records[i].revision {
        return false;
      }
      records := records[i := records[i].(expiresAt := expiresAt)];
      records := records[i := records[i].(revision := revision)];
      return true;
    }

    /** One round of the merge loop. */
    method MergeRecord(r: AgentRecord, identity: IdentityService?, before: nat) returns (accepted: nat)
      requires Valid()
      modifies this`records, this`notified, identity
      ensures Valid()
      ensures MergeOne(VerifierOf(identity), MergeState(old(records), old(StoreOf(identity)), before), r)
              == MergeState(records, StoreOf(identity), accepted)
      ensures notified == if accepted > before && hasCallback then old(notified) + [r] else old(notified)
    {
      accepted := before;
      if identity != null {
        var status := identity.VerifyAndRegister(r);
        if status != SignatureStatus.Valid && status != Missing {
          return;
        }
      }
      var taken := Upsert(r);
      if taken {
        accepted := accepted + 1;
      }
    }

    method Merge(list: seq<AgentRecord>, identity: IdentityService?) returns (accepted: nat)
      requires Valid()
      modifies this`records, this`notified, identity
      ensures Valid()
      ensures MergeAll(VerifierOf(identity), MergeState(old(records), old(StoreOf(identity)), 0), list)
              == MergeState(records, StoreOf(identity), accepted)
      ensures notified == if !hasCallback then old(notified)
                else Told(VerifierOf(identity), MergeState(old(records), old(StoreOf(identity)), 0), list, old(notified))
    {
      accepted := 0;
      ghost var verifier, start := VerifierOf(identity), MergeState(records, StoreOf(identity), 0);
      ghost var goal, calls := MergeAll(verifier, start, list), Told(verifier, start, list, notified);
      for i := 0 to |list|
        invariant Valid()
        invariant MergeAll(verifier, MergeState(records, StoreOf(identity), accepted), list[i..]) == goal
        invariant !hasCallback ==> notified == old(notified)
        invariant hasCallback ==> Told(verifier, MergeState(records, StoreOf(identity), accepted), list[i..], notified) == calls
      {
        MergeAllStep(verifier, MergeState(records, StoreOf(identity), accepted), list, i, notified);
        accepted := MergeRecord(list[i], identity, accepted);
      }
    }

    method SelectAfter(revision: u64) returns (selected: seq<AgentRecord>)
      ensures selected == Select(records, revision)
    {
      selected := [];
      for i := 0 to |records|
        invariant selected + Select(records[i..], revision) == Select(records, revision)
      {
        assert records[i..][0] == records[i] && records[i..][1..] == records[i + 1..];
        if records[i].revision > revision {
          selected := selected + [records[i]];
        }
      }
    }

    method EntriesAfterRevision(revision: u64, limit: nat) returns (selected: seq<AgentRecord>)
      ensures IsPull(records, revision, limit, selected)
    {
      selected := SelectAfter(revision);
      selected := SortByRevision(selected);
      ghost var sorted := selected;
      if limit > 0 && |selected| > limit {
        selected := selected[..limit];
      }
      assert SortedFrom(sorted, Select(records, revision)) && selected == Page(sorted, limit);
    }

    method PurgeExpired(now: int) returns (removed: nat)
      requires Valid()
      modifies this`records
      ensures Valid()
      ensures records == Purged(old(records), now)
      ensures forall r :: r in records <==> r in old(records) && r.expiresAt > now
      ensures removed == |old(records)| - |records|
    {
      PurgeKeepsUnique(records, now);
      var kept: seq<AgentRecord> := [];
      for i := 0 to |records|
        invariant kept + Purged(records[i..], now) == Purged(records, now)
      {
        assert records[i..][0] == records[i] && records[i..][1..] == records[i + 1..];
        if records[i].expiresAt > now {
          kept := kept + [records[i]];
        }
      }
      assert records[|records|..] == [];
      assert kept == Purged(records, now);
      removed := |records| - |kept|;
      records := kept;
    }

    method LoadOne(r: AgentRecord, farFuture: int)
      requires Valid()
      modifies this`records
      ensures Valid()
      ensures records == Loaded(old(records), r, farFuture)
    {
      LoadKeepsUnique(records, r, farFuture);
      var i := FindIndex(r.agentId);
      if i == |records| {
        var copy := r.(expiresAt := farFuture);
        records := records + [copy];
      } else if r.revision > records[i].revision {
        records := records[i := records[i].(expiresAt := farFuture)];
        records := records[i := r];
      }
    }

    /** A record that is new gets a year. */
    method LoadFromPersistence(list: seq<AgentRecord>, now: int)
      requires Valid()
      modifies this`records
      ensures Valid()
      ensures records == LoadedAll(old(records), list, now + 31_536_000_000)
    {
      var farFuture := now + 24 * 365 * 3_600_000;
      for k := 0 to |list|
        invariant Valid()
        invariant LoadedAll(records, list[k..], farFuture) == LoadedAll(old(records), list, farFuture)
      {
        assert list[k..][0] == list[k] && list[k..][1..] == list[k + 1..];
        LoadOne(list[k], farFuture);
      }
    }

    method Stats() returns (activeAgents: nat, highestRevision: u64)
      ensures activeAgents == |records| && highestRevision == HighestRevision(records)
    {
      activeAgents := |records|;
      highestRevision := 0;
      for i := 0 to |records|
        invariant forall r :: r in records[..i] ==> r.revision <= highestRevision
        invariant highestRevision == 0 || exists r :: r in records[..i] && r.revision == highestRevision
      {
        assert records[..i + 1] == records[..i] + [records[i]];
        if records[i].revision > highestRevision {
          highestRevision := records[i].revision;
        }
      }
      assert records[..|records|] == records;
      HighestIs(records, highestRevision);
    }
  }

  lemma HighestIs(records: seq<AgentRecord>, h: u64)
    requires forall r :: r in records ==> r.revision <= h
    requires h == 0 || exists r :: r in records && r.revision == h
    ensures HighestRevision(records) == h
  {
  }

  // ---------- Invariants and refinement ----------

  lemma UpsertKeepsUnique(records: seq<AgentRecord>, r: AgentRecord)
    requires UniqueIds(records)
    ensures UniqueIds(Upserted(records, r))
  {
  }

  lemma RefreshKeepsUnique(records: seq<AgentRecord>, id: string, expiresAt: int, revision: u64)
    requires UniqueIds(records)
    ensures UniqueIds(Refreshed(records, id, expiresAt, revision))
  {
  }

  lemma LoadKeepsUnique(records: seq<AgentRecord>, r: AgentRecord, farFuture: int)
    requires UniqueIds(records)
    ensures UniqueIds(Loaded(records, r, farFuture))
  {
  }

  lemma {:induction false} PurgeKeepsUnique(records: seq<AgentRecord>, now: int)
    requires UniqueIds(records)
    ensures UniqueIds(Purged(records, now))
  {
    if records != [] {
      PurgeKeepsUnique(records[1..], now);
      var rest := Purged(records[1..], now);
      forall j | 0 <= j < |rest| ensures rest[j].agentId != records[0].agentId {
        assert rest[j] in records[1..];
      }
    }
  }

  /** After an upsert every other agent is as before, and the agent has the winner of the two records. */
  lemma UpsertLookup(records: seq<AgentRecord>, r: AgentRecord, id: string)
    requires UniqueIds(records)
    ensures var after := Upserted(records, r);
      && (Has(after, id) <==> id == r.agentId || Has(records, id))
      && (id != r.agentId && Has(records, id) ==> Lookup(after, id) == Lookup(records, id))
      && (id == r.agentId ==> Lookup(after, id) == if Accepts(records, r) then r else Lookup(records, id))
  {
    var after, p := Upserted(records, r), Position(records, r.agentId);
    UpsertKeepsUnique(records, r);
    if Has(records, id) && id != r.agentId {
      var i := Position(records, id);
      assert after[i] == records[i];
      PositionIs(after, i);
    }
    if id == r.agentId && p < |after| {
      PositionIs(after, p);
    }
    HasIff(after, id);
    HasIff(records, id);
  }

  function MapUpsert(m: map<string, AgentRecord>, r: AgentRecord): map<string, AgentRecord> {
    if r.agentId !in m || Supersedes(r, m[r.agentId]) then m[r.agentId := r] else m
  }

  /** The vector refines the map: upsert is a conditional map update. */
  lemma UpsertRefines(records: seq<AgentRecord>, r: AgentRecord)
    requires UniqueIds(records)
    ensures View(Upserted(records, r)) == MapUpsert(View(records), r)
    ensures Accepts(records, r) <==> (r.agentId in View(records) ==> Supersedes(r, View(records)[r.agentId]))
  {
    var a, b := View(Upserted(records, r)), MapUpsert(View(records), r);
    ViewKeys(records, r.agentId);
    forall id
      ensures id in a <==> id in b
      ensures id in a ==> a[id] == b[id]
    {
      ViewKeys(records, id);
      ViewKeys(Upserted(records, r), id);
      UpsertLookup(records, r, id);
    }
  }

  function MapRefresh(m: map<string, AgentRecord>, id: string, expiresAt: int, revision: u64): map<string, AgentRecord> {
    if id in m && revision >= m[id].revision then m[id := m[id].(expiresAt := expiresAt, revision := revision)] else m
  }

  lemma RefreshRefines(records: seq<AgentRecord>, id: string, expiresAt: int, revision: u64)
    requires UniqueIds(records)
    ensures View(Refreshed(records, id, expiresAt, revision)) == MapRefresh(View(records), id, expiresAt, revision)
  {
    ViewKeys(records, id);
    if HeartbeatAccepted(records, id, revision) {
      // A heartbeat is an upsert of the stored record with its own key.
      var r := Lookup(records, id).(expiresAt := expiresAt, revision := revision);
      assert Refreshed(records, id, expiresAt, revision) == Upserted(records, r);
      UpsertRefines(records, r);
    }
  }

  lemma PurgeRefines(records: seq<AgentRecord>, now: int)
    requires UniqueIds(records)
    ensures View(Purged(records, now)) == map id | id in View(records) && View(records)[id].expiresAt > now :: View(records)[id]
  {
    var after := Purged(records, now);
    PurgeKeepsUnique(records, now);
    forall id
      ensures id in View(after) <==> id in View(records) && View(records)[id].expiresAt > now
      ensures id in View(after) ==> View(after)[id] == View(records)[id]
    {
      ViewKeys(after, id);
      ViewKeys(records, id);
      if id in View(after) {
        assert View(after)[id] in after;
        InView(records, View(after)[id]);
      } else if id in View(records) && View(records)[id].expiresAt > now {
        assert View(records)[id] in after;
        InView(after, View(records)[id]);
      }
    }
  }
}
