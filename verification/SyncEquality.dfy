/** When a sync leaves two registries equal, and when nothing gets in its way: conditions on the inputs. */
module SyncEquality {
  import opened Bytes
  import opened Records
  import opened Crypto
  import opened Identity
  import opened Registry
  import opened Paging
  import opened MergeCells
  import opened ControlProtocol
  import opened LineHandler
  import opened SyncClient
  import opened SyncTheorems

  // ---------- Equal registries ----------

  ghost predicate AllCopied(a: seq<AgentRecord>, b: seq<AgentRecord>) {
    forall r :: r in a ==> HasCopy(b, r)
  }

  /** The two registries hold the same records at every revision, but for the expiry. */
  ghost predicate SameRecords(a: seq<AgentRecord>, b: seq<AgentRecord>) {
    AllCopied(a, b) && AllCopied(b, a)
  }

  ghost predicate HeldAbove(records: seq<AgentRecord>, id: string, bound: u64) {
    exists q :: q in records && q.agentId == id && q.revision > bound
  }

  /** What the lower side has and will not get a newer record for, the higher side has as well. */
  ghost predicate LowerIsKnown(low: seq<AgentRecord>, high: seq<AgentRecord>, bound: u64) {
    forall r :: r in low && !HeldAbove(high, r.agentId, bound) ==> HasCopy(high, r)
  }

  /** What the higher side has at or below the bound, the lower side has as well. */
  ghost predicate OldIsKnown(low: seq<AgentRecord>, high: seq<AgentRecord>, bound: u64) {
    forall q :: q in high && q.revision <= bound ==> HasCopy(low, q)
  }

  /** `after` is the lower side once it has taken over everything above the bound. */
  ghost predicate TookOver(low: seq<AgentRecord>, high: seq<AgentRecord>, given: seq<AgentRecord>, bound: u64,
                           expiresAt: int, after: seq<AgentRecord>)
  {
    && UniqueIds(low) && UniqueIds(high) && AtMost(low, bound)
    && (forall r :: r in given <==> r in high && r.revision > bound)
    && UniqueIds(Restamp(given, expiresAt)) && AllAccepted(low, Restamp(given, expiresAt))
    && after == UpsertAll(low, Restamp(given, expiresAt))
  }

  lemma NamedIsHeld(high: seq<AgentRecord>, given: seq<AgentRecord>, bound: u64, expiresAt: int, id: string)
    requires forall r :: r in given <==> r in high && r.revision > bound
    ensures Named(Restamp(given, expiresAt), id) <==> HeldAbove(high, id, bound)
  {
    var stamped := Restamp(given, expiresAt);
    if Named(stamped, id) {
      var i :| 0 <= i < |stamped| && stamped[i].agentId == id;
      assert given[i] in given && given[i].agentId == id;
    }
    if HeldAbove(high, id, bound) {
      var q :| q in high && q.agentId == id && q.revision > bound;
      var i :| 0 <= i < |given| && given[i] == q;
      assert stamped[i].agentId == id;
    }
  }

  lemma AfterMembers(low: seq<AgentRecord>, high: seq<AgentRecord>, given: seq<AgentRecord>, bound: u64,
                     expiresAt: int, after: seq<AgentRecord>, q: AgentRecord)
    requires TookOver(low, high, given, bound, expiresAt, after)
    ensures q in after <==> q in Restamp(given, expiresAt) || (q in low && !HeldAbove(high, q.agentId, bound))
    ensures q in Restamp(given, expiresAt) ==> q.revision > bound && HasCopy(high, q)
  {
    var stamped := Restamp(given, expiresAt);
    UpsertAllMembers(low, stamped, q);
    NamedIsHeld(high, given, bound, expiresAt, q.agentId);
    if q in stamped {
      var i :| 0 <= i < |stamped| && stamped[i] == q;
      assert given[i] in given && SameButExpiry(q, given[i]);
    }
  }

  lemma AfterIsCopied(low: seq<AgentRecord>, high: seq<AgentRecord>, given: seq<AgentRecord>, bound: u64,
                      expiresAt: int, after: seq<AgentRecord>)
    requires TookOver(low, high, given, bound, expiresAt, after)
    ensures AllCopied(after, high) <==> LowerIsKnown(low, high, bound)
  {
    if AllCopied(after, high) {
      forall r | r in low && !HeldAbove(high, r.agentId, bound) ensures HasCopy(high, r) {
        AfterMembers(low, high, given, bound, expiresAt, after, r);
      }
    }
    if LowerIsKnown(low, high, bound) {
      forall r | r in after ensures HasCopy(high, r) {
        AfterMembers(low, high, given, bound, expiresAt, after, r);
      }
    }
  }

  lemma OldCopyStays(low: seq<AgentRecord>, high: seq<AgentRecord>, given: seq<AgentRecord>, bound: u64,
                     expiresAt: int, after: seq<AgentRecord>, q: AgentRecord)
    requires TookOver(low, high, given, bound, expiresAt, after) && q in high && q.revision <= bound
    ensures HasCopy(after, q) <==> HasCopy(low, q)
  {
    NotHeldAbove(high, q, bound);
    if HasCopy(low, q) {
      var c :| c in low && SameButExpiry(q, c);
      AfterMembers(low, high, given, bound, expiresAt, after, c);
    }
    if HasCopy(after, q) {
      var c :| c in after && SameButExpiry(q, c);
      AfterMembers(low, high, given, bound, expiresAt, after, c);
    }
  }

  lemma NotHeldAbove(high: seq<AgentRecord>, q: AgentRecord, bound: u64)
    requires UniqueIds(high) && q in high && q.revision <= bound
    ensures !HeldAbove(high, q.agentId, bound)
  {
    forall p | p in high && p.agentId == q.agentId ensures p == q { SameStored(high, p, q); }
  }

  lemma NewCopyArrives(low: seq<AgentRecord>, high: seq<AgentRecord>, given: seq<AgentRecord>, bound: u64,
                       expiresAt: int, after: seq<AgentRecord>, q: AgentRecord)
    requires TookOver(low, high, given, bound, expiresAt, after) && q in high && q.revision > bound
    ensures HasCopy(after, q)
  {
    StampedArrives(low, given, expiresAt, q);
  }

  lemma HighIsCopied(low: seq<AgentRecord>, high: seq<AgentRecord>, given: seq<AgentRecord>, bound: u64,
                     expiresAt: int, after: seq<AgentRecord>)
    requires TookOver(low, high, given, bound, expiresAt, after)
    ensures AllCopied(high, after) <==> OldIsKnown(low, high, bound)
  {
    if AllCopied(high, after) {
      forall q | q in high && q.revision <= bound ensures HasCopy(low, q) {
        OldCopyStays(low, high, given, bound, expiresAt, after, q);
      }
    }
    if OldIsKnown(low, high, bound) {
      forall q | q in high ensures HasCopy(after, q) {
        if q.revision > bound {
          NewCopyArrives(low, high, given, bound, expiresAt, after, q);
        } else {
          OldCopyStays(low, high, given, bound, expiresAt, after, q);
        }
      }
    }
  }

  lemma TakingGives(low: seq<AgentRecord>, high: seq<AgentRecord>, given: seq<AgentRecord>, bound: u64, limit: nat,
                    expiresAt: int, after: seq<AgentRecord>)
    requires UniqueIds(low) && UniqueIds(high) && AtMost(low, bound)
    requires IsPull(high, bound, limit, given) && WholePull(high, bound, limit)
    requires AllAccepted(low, Restamp(given, expiresAt)) && after == UpsertAll(low, Restamp(given, expiresAt))
    ensures SameRecords(after, high) <==> LowerIsKnown(low, high, bound) && OldIsKnown(low, high, bound)
  {
    GivenUnique(high, given, bound, limit, expiresAt);
    WholePullMembers(high, bound, limit, given);
    AfterIsCopied(low, high, given, bound, expiresAt, after);
    HighIsCopied(low, high, given, bound, expiresAt, after);
  }

  lemma SameRecordsSymmetric(a: seq<AgentRecord>, b: seq<AgentRecord>)
    ensures SameRecords(a, b) <==> SameRecords(b, a)
  {
  }

  /** What has to be equal already for a sync to make everything equal. */
  ghost predicate EqualBelow(low: seq<AgentRecord>, high: seq<AgentRecord>) {
    LowerIsKnown(low, high, HighestRevision(low)) && OldIsKnown(low, high, HighestRevision(low))
  }

  lemma PullEqualises(
    y: Sync, store: TrustStore, local: seq<AgentRecord>, bound: u64, peer: seq<AgentRecord>,
    pulled: seq<AgentRecord>, merged: MergeState)
    requires Pulled(y, store, local, bound, peer, pulled, merged) && UniqueIds(local) && UniqueIds(peer)
    requires bound == HighestRevision(local) && WholePull(peer, bound, y.limit) && merged.accepted == |pulled|
    ensures SameRecords(merged.records, peer) <==> EqualBelow(local, peer)
  {
    PullTakesAll(y, store, local, bound, peer, pulled, merged);
    TakingGives(local, peer, pulled, bound, y.limit, PullExpiry(y.now), merged.records);
  }

  lemma PushEqualises(
    y: Sync, peer: seq<AgentRecord>, bound: u64, local: seq<AgentRecord>, pushed: seq<AgentRecord>, after: PushState)
    requires Pushed(y, peer, bound, local, pushed, after) && UniqueIds(local) && UniqueIds(peer)
    requires bound == HighestRevision(peer) && WholePull(local, bound, y.limit) && after.ok == |pushed|
    ensures SameRecords(after.records, local) <==> EqualBelow(peer, local)
  {
    PushTakesAll(y, peer, bound, local, pushed, after);
    TakingGives(peer, local, pushed, bound, y.limit, Expiry(y.server.config, y.now), after.records);
  }

  /**
   An undisturbed sync leaves the two registries with the same records at every
   revision if and only if they were equal below already: the lower side holds
   nothing of its own that the higher side has no newer record for, and everything
   old that the higher side holds.
   */
  lemma SyncEqualisesIff(
    y: Sync, store: TrustStore, local: seq<AgentRecord>, peer: seq<AgentRecord>,
    pulled: seq<AgentRecord>, merged: MergeState, pushed: seq<AgentRecord>, after: PushState)
    requires Synced(y, store, local, peer, pulled, merged, pushed, after) && UniqueIds(local) && UniqueIds(peer)
    requires Undisturbed(y, local, peer, pulled, merged, pushed, after)
    ensures SameRecords(merged.records, after.records) <==>
            if HighestRevision(local) < HighestRevision(peer) then EqualBelow(local, peer) else EqualBelow(peer, local)
  {
    SyncMovesOneWay(y, store, local, peer, pulled, merged, pushed, after);
    if HighestRevision(local) < HighestRevision(peer) {
      PullEqualises(y, store, local, HighestRevision(local), peer, pulled, merged);
    } else {
      PushEqualises(y, peer, HighestRevision(peer), local, pushed, after);
      SameRecordsSymmetric(after.records, local);
    }
  }

  lemma SingleHighest(r: AgentRecord)
    ensures HighestRevision([r]) == r.revision && UniqueIds([r])
  {
    assert r in [r];
  }

  /** Two nodes with one agent each, at equal revisions, stay as they are, and different, however often they sync. */
  lemma StayDifferent(y: Sync, store: TrustStore, a: AgentRecord, b: AgentRecord,
                      pulled: seq<AgentRecord>, merged: MergeState, pushed: seq<AgentRecord>, after: PushState)
    requires a.agentId != b.agentId && a.revision == b.revision
    requires Synced(y, store, [a], [b], pulled, merged, pushed, after)
    ensures merged.records == [a] && after.records == [b]
    ensures !SameRecords(merged.records, after.records)
  {
    SingleHighest(a);
    SingleHighest(b);
    EqualHighestTransfersNothing(y, store, [a], [b], pulled, merged, pushed, after);
    assert a in [a] && !HasCopy([b], a);
  }

  // ---------- Nothing in the way ----------

  /** No other key is pinned for the agent. */
  predicate Welcome(records: seq<AgentRecord>, r: AgentRecord) {
    Has(records, r.agentId) ==> !KeyConflict(Lookup(records, r.agentId), r)
  }

  predicate NotOlder(records: seq<AgentRecord>, r: AgentRecord) {
    Has(records, r.agentId) ==> r.revision >= Lookup(records, r.agentId).revision
  }

  ghost predicate NoneOlder(records: seq<AgentRecord>, rs: seq<AgentRecord>) {
    forall i :: 0 <= i < |rs| ==> NotOlder(records, rs[i])
  }

  /** Writing another agent changes neither. */
  lemma OtherAgent(records: seq<AgentRecord>, first: AgentRecord, r: AgentRecord)
    requires UniqueIds(records) && first.agentId != r.agentId
    ensures Welcome(Upserted(records, first), r) <==> Welcome(records, r)
    ensures NotOlder(Upserted(records, first), r) <==> NotOlder(records, r)
  {
    UpsertLookup(records, first, r.agentId);
  }

  /** The identity check looks only at what is trusted for the record's own agent, and not at the expiry. */
  lemma OtherAgentAdmitted(identity: Option<Verifier>, s: MergeState, first: AgentRecord, r: AgentRecord)
    requires first.agentId != r.agentId
    ensures Admitted(identity, MergeOne(identity, s, first).store, r) <==> Admitted(identity, s.store, r)
  {
    if identity.Some? {
      var store := MergeOne(identity, s, first).store;
      CheckPins(identity.value, s.store, first);
      assert r.agentId in store <==> r.agentId in s.store;
    }
  }

  /** The record gets past the identity check and the pinned key. */
  predicate GetsThrough(identity: Option<Verifier>, s: MergeState, r: AgentRecord) {
    Admitted(identity, s.store, r) && Welcome(s.records, r)
  }

  ghost predicate AllGetThrough(identity: Option<Verifier>, s: MergeState, rs: seq<AgentRecord>) {
    forall i :: 0 <= i < |rs| ==> GetsThrough(identity, s, rs[i])
  }

  lemma MergeOneCounts(identity: Option<Verifier>, s: MergeState, r: AgentRecord)
    requires NotOlder(s.records, r)
    ensures MergeOne(identity, s, r).accepted == s.accepted + if GetsThrough(identity, s, r) then 1 else 0
    ensures MergeOne(identity, s, r).records == s.records || MergeOne(identity, s, r).records == Upserted(s.records, r)
  {
  }

  lemma PassesAfter(identity: Option<Verifier>, s: MergeState, first: AgentRecord, r: AgentRecord)
    requires UniqueIds(s.records) && first.agentId != r.agentId && NotOlder(s.records, first)
    ensures var t := MergeOne(identity, s, first);
      && (GetsThrough(identity, t, r) <==> GetsThrough(identity, s, r))
      && (NotOlder(t.records, r) <==> NotOlder(s.records, r))
  {
    MergeOneCounts(identity, s, first);
    OtherAgent(s.records, first, r);
    OtherAgentAdmitted(identity, s, first, r);
  }

  lemma RestPasses(identity: Option<Verifier>, s: MergeState, rs: seq<AgentRecord>)
    requires rs != [] && UniqueIds(s.records) && UniqueIds(rs) && NoneOlder(s.records, rs)
    ensures var t := MergeOne(identity, s, rs[0]);
      && UniqueIds(t.records) && UniqueIds(rs[1..]) && NoneOlder(t.records, rs[1..])
      && (AllGetThrough(identity, s, rs) <==> GetsThrough(identity, s, rs[0]) && AllGetThrough(identity, t, rs[1..]))
  {
    var t, rest := MergeOne(identity, s, rs[0]), rs[1..];
    MergeOneCounts(identity, s, rs[0]);
    UpsertKeepsUnique(s.records, rs[0]);
    forall i | 0 <= i < |rest|
      ensures NotOlder(t.records, rest[i]) && (GetsThrough(identity, t, rest[i]) <==> GetsThrough(identity, s, rs[i + 1]))
    {
      assert rest[i] == rs[i + 1];
      PassesAfter(identity, s, rs[0], rest[i]);
    }
    AllPassFirst(identity, s, t, rs, rest);
  }

  lemma AllPassFirst(identity: Option<Verifier>, s: MergeState, t: MergeState, rs: seq<AgentRecord>, rest: seq<AgentRecord>)
    requires rs != [] && rest == rs[1..]
    requires forall i :: 0 <= i < |rest| ==> (GetsThrough(identity, t, rest[i]) <==> GetsThrough(identity, s, rs[i + 1]))
    ensures AllGetThrough(identity, s, rs) <==> GetsThrough(identity, s, rs[0]) && AllGetThrough(identity, t, rest)
  {
    if GetsThrough(identity, s, rs[0]) && AllGetThrough(identity, t, rest) {
      forall i | 0 <= i < |rs| ensures GetsThrough(identity, s, rs[i]) {
        if i > 0 {
          assert GetsThrough(identity, t, rest[i - 1]);
        }
      }
    }
    if AllGetThrough(identity, s, rs) {
      forall i | 0 <= i < |rest| ensures GetsThrough(identity, t, rest[i]) {
        assert GetsThrough(identity, s, rs[i + 1]);
      }
    }
  }

  /** Every record of a list of different agents, none older than what is stored, is accepted exactly when each passes. */
  lemma {:induction false} MergeAcceptsIff(identity: Option<Verifier>, s: MergeState, rs: seq<AgentRecord>)
    requires UniqueIds(s.records) && UniqueIds(rs) && NoneOlder(s.records, rs)
    ensures MergeAll(identity, s, rs).accepted == s.accepted + |rs| <==> AllGetThrough(identity, s, rs)
    decreases rs
  {
    if rs != [] {
      MergeOneCounts(identity, s, rs[0]);
      RestPasses(identity, s, rs);
      MergeUnrejected(identity, MergeOne(identity, s, rs[0]), rs[1..]);
      MergeAcceptsIff(identity, MergeOne(identity, s, rs[0]), rs[1..]);
    }
  }

  /** The record gets past the peer's signature policy and the pinned key. */
  predicate PassesPeer(config: Config, records: seq<AgentRecord>, r: AgentRecord) {
    Admits(config, r) && Welcome(records, r)
  }

  ghost predicate AllPassPeer(config: Config, records: seq<AgentRecord>, rs: seq<AgentRecord>) {
    forall i :: 0 <= i < |rs| ==> PassesPeer(config, records, rs[i])
  }

  lemma PushOneCounts(server: Server, s: PushState, r: AgentRecord)
    requires NotOlder(s.records, r)
    ensures PushRecord(server, s, r).ok == s.ok + if PassesPeer(server.config, s.records, r) then 1 else 0
    ensures PushRecord(server, s, r).records == s.records || PushRecord(server, s, r).records == Upserted(s.records, r)
  {
  }

  lemma PassesPeerAfter(server: Server, s: PushState, first: AgentRecord, r: AgentRecord)
    requires UniqueIds(s.records) && first.agentId != r.agentId && NotOlder(s.records, first)
    ensures var t := PushRecord(server, s, first).records;
      && (PassesPeer(server.config, t, r) <==> PassesPeer(server.config, s.records, r))
      && (NotOlder(t, r) <==> NotOlder(s.records, r))
  {
    PushOneCounts(server, s, first);
    OtherAgent(s.records, first, r);
  }

  lemma AllPassPeerFirst(config: Config, s: seq<AgentRecord>, t: seq<AgentRecord>, rs: seq<AgentRecord>, rest: seq<AgentRecord>)
    requires rs != [] && rest == rs[1..]
    requires forall i :: 0 <= i < |rest| ==> (PassesPeer(config, t, rest[i]) <==> PassesPeer(config, s, rs[i + 1]))
    ensures AllPassPeer(config, s, rs) <==> PassesPeer(config, s, rs[0]) && AllPassPeer(config, t, rest)
  {
    if PassesPeer(config, s, rs[0]) && AllPassPeer(config, t, rest) {
      forall i | 0 <= i < |rs| ensures PassesPeer(config, s, rs[i]) {
        if i > 0 {
          assert PassesPeer(config, t, rest[i - 1]);
        }
      }
    }
    if AllPassPeer(config, s, rs) {
      forall i | 0 <= i < |rest| ensures PassesPeer(config, t, rest[i]) {
        assert PassesPeer(config, s, rs[i + 1]);
      }
    }
  }

  lemma RestPassesPeer(server: Server, s: PushState, rs: seq<AgentRecord>)
    requires rs != [] && UniqueIds(s.records) && UniqueIds(rs) && NoneOlder(s.records, rs)
    ensures var t := PushRecord(server, s, rs[0]).records;
      && UniqueIds(t) && UniqueIds(rs[1..]) && NoneOlder(t, rs[1..])
      && (AllPassPeer(server.config, s.records, rs) <==>
          PassesPeer(server.config, s.records, rs[0]) && AllPassPeer(server.config, t, rs[1..]))
  {
    var t, rest := PushRecord(server, s, rs[0]).records, rs[1..];
    PushOneCounts(server, s, rs[0]);
    UpsertKeepsUnique(s.records, rs[0]);
    forall i | 0 <= i < |rest|
      ensures NotOlder(t, rest[i]) && (PassesPeer(server.config, t, rest[i]) <==> PassesPeer(server.config, s.records, rs[i + 1]))
    {
      assert rest[i] == rs[i + 1];
      PassesPeerAfter(server, s, rs[0], rest[i]);
    }
    AllPassPeerFirst(server.config, s.records, t, rs, rest);
  }

  lemma {:induction false} PushAcceptsIff(server: Server, s: PushState, rs: seq<AgentRecord>)
    requires UniqueIds(s.records) && UniqueIds(rs) && NoneOlder(s.records, rs)
    ensures PushAll(server, s, rs).ok == s.ok + |rs| <==> AllPassPeer(server.config, s.records, rs)
    decreases rs
  {
    if rs != [] {
      PushOneCounts(server, s, rs[0]);
      RestPassesPeer(server, s, rs);
      PushUnrejected(server, PushRecord(server, s, rs[0]), rs[1..]);
      PushAcceptsIff(server, PushRecord(server, s, rs[0]), rs[1..]);
    }
  }

  // ---------- From the inputs ----------

  /** What is pulled gets through: the page holds it all, and each record passes. */
  ghost predicate PullFlows(y: Sync, store: TrustStore, local: seq<AgentRecord>, peer: seq<AgentRecord>) {
    && WholePull(peer, HighestRevision(local), y.limit)
    && forall r :: r in peer && r.revision > HighestRevision(local) ==> GetsThrough(y.identity, MergeState(local, store, 0), r)
  }

  /** What is pushed gets through. */
  ghost predicate PushFlows(y: Sync, peer: seq<AgentRecord>, local: seq<AgentRecord>) {
    && WholePull(local, HighestRevision(peer), y.limit)
    && forall r :: r in local && r.revision > HighestRevision(peer) ==> PassesPeer(y.server.config, peer, r)
  }

  lemma StampPasses(identity: Option<Verifier>, s: MergeState, config: Config, r: AgentRecord, expiresAt: int)
    ensures GetsThrough(identity, s, r.(expiresAt := expiresAt)) <==> GetsThrough(identity, s, r)
    ensures PassesPeer(config, s.records, r.(expiresAt := expiresAt)) <==> PassesPeer(config, s.records, r)
  {
    PayloadIgnoresExpiry(r, expiresAt);
  }

  lemma PayloadIgnoresExpiry(r: AgentRecord, expiresAt: int)
    ensures Payload(r.(expiresAt := expiresAt)) == Payload(r)
  {
  }

  lemma AllStampsPass(identity: Option<Verifier>, s: MergeState, config: Config, given: seq<AgentRecord>, expiresAt: int)
    ensures AllGetThrough(identity, s, Restamp(given, expiresAt)) <==> forall r :: r in given ==> GetsThrough(identity, s, r)
    ensures AllPassPeer(config, s.records, Restamp(given, expiresAt)) <==> forall r :: r in given ==> PassesPeer(config, s.records, r)
  {
    var stamped := Restamp(given, expiresAt);
    forall i | 0 <= i < |given|
      ensures GetsThrough(identity, s, stamped[i]) <==> GetsThrough(identity, s, given[i])
      ensures PassesPeer(config, s.records, stamped[i]) <==> PassesPeer(config, s.records, given[i])
    {
      StampPasses(identity, s, config, given[i], expiresAt);
    }
    assert forall i :: 0 <= i < |given| ==> given[i] in given;
  }

  lemma StampsAreNewer(records: seq<AgentRecord>, given: seq<AgentRecord>, bound: u64, expiresAt: int)
    requires AtMost(records, bound) && forall i :: 0 <= i < |given| ==> given[i].revision > bound
    ensures NoneOlder(records, Restamp(given, expiresAt))
  {
    var stamped := Restamp(given, expiresAt);
    forall i | 0 <= i < |stamped| ensures NotOlder(records, stamped[i]) {
      if Has(records, stamped[i].agentId) {
        assert Lookup(records, stamped[i].agentId) in records;
      }
    }
  }

  lemma GivenIsReady(taker: seq<AgentRecord>, giver: seq<AgentRecord>, given: seq<AgentRecord>, bound: u64, limit: nat, expiresAt: int)
    requires UniqueIds(giver) && AtMost(taker, bound) && IsPull(giver, bound, limit, given) && WholePull(giver, bound, limit)
    ensures UniqueIds(Restamp(given, expiresAt)) && NoneOlder(taker, Restamp(given, expiresAt))
    ensures forall r :: r in given <==> r in giver && r.revision > bound
  {
    GivenUnique(giver, given, bound, limit, expiresAt);
    WholePullMembers(giver, bound, limit, given);
    forall i | 0 <= i < |given| ensures given[i].revision > bound { assert given[i] in given; }
    StampsAreNewer(taker, given, bound, expiresAt);
  }

  lemma PullFlowsIff(
    y: Sync, store: TrustStore, local: seq<AgentRecord>, bound: u64, peer: seq<AgentRecord>,
    pulled: seq<AgentRecord>, merged: MergeState)
    requires Pulled(y, store, local, bound, peer, pulled, merged) && UniqueIds(local) && UniqueIds(peer)
    requires bound == HighestRevision(local) && WholePull(peer, bound, y.limit)
    ensures merged.accepted == |pulled| <==> PullFlows(y, store, local, peer)
  {
    var s := MergeState(local, store, 0);
    GivenIsReady(local, peer, pulled, bound, y.limit, PullExpiry(y.now));
    MergeAcceptsIff(y.identity, s, Restamp(pulled, PullExpiry(y.now)));
    AllStampsPass(y.identity, s, y.server.config, pulled, PullExpiry(y.now));
  }

  lemma PushFlowsIff(
    y: Sync, peer: seq<AgentRecord>, bound: u64, local: seq<AgentRecord>, pushed: seq<AgentRecord>, after: PushState)
    requires Pushed(y, peer, bound, local, pushed, after) && UniqueIds(local) && UniqueIds(peer)
    requires bound == HighestRevision(peer) && WholePull(local, bound, y.limit)
    ensures after.ok == |pushed| <==> PushFlows(y, peer, local)
  {
    GivenIsReady(peer, local, pushed, bound, y.limit, Expiry(y.server.config, y.now));
    PushAcceptsIff(y.server, PushState(peer, y.peerStore, 0), Restamp(pushed, Expiry(y.server.config, y.now)));
    AllStampsPass(y.identity, MergeState(peer, y.peerStore, 0), y.server.config, pushed, Expiry(y.server.config, y.now));
  }

  lemma NothingToPage(records: seq<AgentRecord>, bound: u64, limit: nat)
    requires AtMost(records, bound)
    ensures WholePull(records, bound, limit)
  {
    forall i | 0 <= i < |records| ensures records[i].revision <= bound { assert records[i] in records; }
    SelectNone(records, bound);
  }

  /** The direction in which records travel is clear: the lower side takes what the higher side gives. */
  ghost predicate Flows(y: Sync, store: TrustStore, local: seq<AgentRecord>, peer: seq<AgentRecord>) {
    if HighestRevision(local) < HighestRevision(peer) then PullFlows(y, store, local, peer) else PushFlows(y, peer, local)
  }

  /**
   A sync is undisturbed if and only if, before it starts, everything the higher side
   has above the lower side's highest revision fits the page, gets past the signature
   check of the side that takes it, and brings no key that conflicts with a stored one.
   */
  lemma UndisturbedIff(
    y: Sync, store: TrustStore, local: seq<AgentRecord>, peer: seq<AgentRecord>,
    pulled: seq<AgentRecord>, merged: MergeState, pushed: seq<AgentRecord>, after: PushState)
    requires Synced(y, store, local, peer, pulled, merged, pushed, after) && UniqueIds(local) && UniqueIds(peer)
    ensures Undisturbed(y, local, peer, pulled, merged, pushed, after) <==> Flows(y, store, local, peer)
  {
    var h, g := HighestRevision(local), HighestRevision(peer);
    SyncMovesOneWay(y, store, local, peer, pulled, merged, pushed, after);
    if h < g {
      PulledAtMost(y, store, local, h, peer, pulled, merged, g);
      NothingToPage(merged.records, g, y.limit);
      if WholePull(peer, h, y.limit) {
        PullFlowsIff(y, store, local, h, peer, pulled, merged);
      }
    } else {
      NothingToPage(peer, h, y.limit);
      if WholePull(local, g, y.limit) {
        PushFlowsIff(y, peer, g, local, pushed, after);
      }
    }
  }

  // ---------- From the text to the end ----------

  /**
   What `SyncWithPeer` does, from end to end: between wire-safe registries whose
   records flow, the text sync makes the two sides agree above the lower of their
   highest revisions, and everywhere if and only if they agreed below.
   */
  lemma TextSyncConverges(
    y: Sync, store: TrustStore, local: seq<AgentRecord>, peer: seq<AgentRecord>,
    pulled: seq<AgentRecord>, merged: MergeState, pushed: seq<AgentRecord>, commands: seq<Command>, after: PushState)
    requires SyncedByText(y, store, local, peer, pulled, merged, pushed, commands, after)
    requires Safe(local) && Safe(peer) && UniqueIds(local) && UniqueIds(peer) && Flows(y, store, local, peer)
    ensures SameAbove(merged.records, after.records, Lower(HighestRevision(local), HighestRevision(peer)))
    ensures HighestRevision(merged.records) == HighestRevision(after.records)
    ensures SameRecords(merged.records, after.records) <==>
            if HighestRevision(local) < HighestRevision(peer) then EqualBelow(local, peer) else EqualBelow(peer, local)
  {
    TextCarriesSync(y, store, local, peer, pulled, merged, pushed, commands, after);
    UndisturbedIff(y, store, local, peer, pulled, merged, pushed, after);
    SyncConverges(y, store, local, peer, pulled, merged, pushed, after);
    SyncEqualisesIff(y, store, local, peer, pulled, merged, pushed, after);
  }

  // ---------- Trusted keys ----------

  lemma {:induction false} PushKeepsKeys(server: Server, s: PushState, rs: seq<AgentRecord>)
    ensures KeysKept(s.store, PushAll(server, s, rs).store)
    decreases rs
  {
    if rs != [] {
      if server.identity.Some? {
        CheckPins(server.identity.value, s.store, rs[0]);
      }
      PushKeepsKeys(server, PushRecord(server, s, rs[0]), rs[1..]);
    }
  }

  lemma {:induction false} MergeKeepsKeys(identity: Option<Verifier>, s: MergeState, rs: seq<AgentRecord>)
    ensures KeysKept(s.store, MergeAll(identity, s, rs).store)
    decreases rs
  {
    if rs != [] {
      if identity.Some? {
        CheckPins(identity.value, s.store, rs[0]);
      }
      MergeKeepsKeys(identity, MergeOne(identity, s, rs[0]), rs[1..]);
    }
  }

  /** No sync changes a key that either side trusts. */
  lemma SyncKeepsKeys(
    y: Sync, store: TrustStore, local: seq<AgentRecord>, peer: seq<AgentRecord>,
    pulled: seq<AgentRecord>, merged: MergeState, pushed: seq<AgentRecord>, after: PushState)
    requires Synced(y, store, local, peer, pulled, merged, pushed, after)
    ensures KeysKept(store, merged.store) && KeysKept(y.peerStore, after.store)
  {
    MergeKeepsKeys(y.identity, MergeState(local, store, 0), Restamp(pulled, PullExpiry(y.now)));
    PushKeepsKeys(y.server, PushState(peer, y.peerStore, 0), Restamp(pushed, Expiry(y.server.config, y.now)));
  }
}
