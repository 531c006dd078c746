/** What one push-pull sync between two quiescent nodes achieves. */
module SyncTheorems {
  import opened Bytes
  import opened Records
  import opened Crypto
  import opened Identity
  import opened Registry
  import opened Paging
  import opened ControlProtocol
  import opened LineHandler
  import opened SyncClient

  // ---------- From text to records ----------

  /** A record that the peer admits is upserted, and an accepted one with a key offered to its trust store. */
  function PushRecord(server: Server, s: PushState, r: AgentRecord): PushState {
    if !Admits(server.config, r) then s
    else if !Accepts(s.records, r) then s
    else PushState(Upserted(s.records, r), Offered(server.identity, s.store, r), s.ok + 1)
  }

  function Offered(identity: Option<Verifier>, store: TrustStore, r: AgentRecord): TrustStore {
    if identity.None? || r.publicKeyHex == "" then store else CheckRecord(identity.value, store, r).store
  }

  function PushAll(server: Server, s: PushState, rs: seq<AgentRecord>): PushState
    decreases rs
  {
    if rs == [] then s else PushAll(server, PushRecord(server, s, rs[0]), rs[1..])
  }

  function MergeCommand(r: AgentRecord): Command {
    Command(Merge, r, r.agentId, "", 0, DEFAULT_LIMIT)
  }

  function MergeCommands(rs: seq<AgentRecord>): (cs: seq<Command>)
    ensures |cs| == |rs| && forall i :: 0 <= i < |rs| ==> cs[i] == MergeCommand(rs[i])
  {
    seq(|rs|, i requires 0 <= i < |rs| => MergeCommand(rs[i]))
  }

  lemma RecordReceived(r: AgentRecord, now: int, expiresAt: int)
    requires WireSafe(r)
    ensures Received(r, now, expiresAt) == MergeCommand(r.(expiresAt := expiresAt))
  {
    AgentTextIsLine(r);
    FirstLineOfLine(MergeText(r));
    MergeRoundTrip(r, now, expiresAt);
  }

  lemma AllRecordsReceived(cs: seq<Command>, rs: seq<AgentRecord>, now: int, expiresAt: int)
    requires AllWireSafe(rs) && |cs| == |rs| && AllReceived(cs, rs, now, expiresAt)
    ensures cs == MergeCommands(Restamp(rs, expiresAt))
  {
    forall i | 0 <= i < |rs| ensures cs[i] == MergeCommands(Restamp(rs, expiresAt))[i] {
      assert IsReceived(cs, rs, i, now, expiresAt);
      RecordReceived(rs[i], now, expiresAt);
    }
  }

  lemma {:induction false} CommandsPush(server: Server, s: PushState, rs: seq<AgentRecord>, now: int)
    ensures HandleAll(server, s, MergeCommands(rs), now) == PushAll(server, s, rs)
    decreases rs
  {
    if rs != [] {
      assert MergeCommands(rs)[1..] == MergeCommands(rs[1..]);
      CommandsPush(server, HandleOne(server, s, MergeCommand(rs[0]), now), rs[1..], now);
    }
  }

  /** The pull in terms of records. */
  ghost predicate Pulled(
    y: Sync, store: TrustStore, local: seq<AgentRecord>, above: u64, peer: seq<AgentRecord>,
    pulled: seq<AgentRecord>, merged: MergeState)
  {
    && IsPull(peer, above, y.limit, pulled)
    && merged == MergeAll(y.identity, MergeState(local, store, 0), Restamp(pulled, PullExpiry(y.now)))
  }

  /** The push in terms of records. */
  ghost predicate Pushed(
    y: Sync, peer: seq<AgentRecord>, above: u64, local: seq<AgentRecord>, pushed: seq<AgentRecord>, after: PushState)
  {
    && IsPull(local, above, y.limit, pushed)
    && after == PushAll(y.server, PushState(peer, y.peerStore, 0), Restamp(pushed, Expiry(y.server.config, y.now)))
  }

  /** The sync in terms of records. */
  ghost predicate Synced(
    y: Sync, store: TrustStore, local: seq<AgentRecord>, peer: seq<AgentRecord>,
    pulled: seq<AgentRecord>, merged: MergeState, pushed: seq<AgentRecord>, after: PushState)
  {
    && Pulled(y, store, local, HighestRevision(local), peer, pulled, merged)
    && Pushed(y, peer, HighestRevision(peer), merged.records, pushed, after)
  }

  lemma PulledFrom(records: seq<AgentRecord>, revision: u64, limit: nat, out: seq<AgentRecord>, i: nat)
    requires IsPull(records, revision, limit, out) && i < |out|
    ensures out[i] in records && out[i].revision > revision
  {
    PageIsSelected(records, revision, limit, out, i);
    SelectMembers(records, revision);
  }

  ghost predicate Safe(records: seq<AgentRecord>) {
    forall r :: r in records ==> WireSafe(r)
  }

  lemma PulledIsSafe(records: seq<AgentRecord>, revision: u64, limit: nat, out: seq<AgentRecord>)
    requires IsPull(records, revision, limit, out) && Safe(records)
    ensures AllWireSafe(out)
  {
    forall i | 0 <= i < |out| ensures WireSafe(out[i]) { PulledFrom(records, revision, limit, out, i); }
  }

  lemma UpsertedMember(records: seq<AgentRecord>, r: AgentRecord, q: AgentRecord)
    requires q in Upserted(records, r)
    ensures q == r || q in records
  {
  }

  lemma {:induction false} MergedIsSafe(identity: Option<Verifier>, s: MergeState, list: seq<AgentRecord>)
    requires Safe(s.records) && AllWireSafe(list)
    ensures Safe(MergeAll(identity, s, list).records)
    decreases list
  {
    if list != [] {
      var next := MergeOne(identity, s, list[0]);
      forall q | q in next.records ensures WireSafe(q) {
        if q !in s.records {
          UpsertedMember(s.records, list[0], q);
        }
      }
      MergedIsSafe(identity, next, list[1..]);
    }
  }

  lemma RestampIsSafe(rs: seq<AgentRecord>, expiresAt: int)
    requires AllWireSafe(rs)
    ensures AllWireSafe(Restamp(rs, expiresAt))
  {
  }

  lemma TextCarriesPull(
    y: Sync, store: TrustStore, local: seq<AgentRecord>, above: u64, peer: seq<AgentRecord>,
    pulled: seq<AgentRecord>, merged: MergeState)
    requires PulledByText(y, store, local, above, peer, pulled, merged) && Safe(local) && Safe(peer)
    ensures Pulled(y, store, local, above, peer, pulled, merged) && Safe(merged.records)
  {
    PulledIsSafe(peer, above, y.limit, pulled);
    AnswerRoundTrip(pulled, PullExpiry(y.now));
    RestampIsSafe(pulled, PullExpiry(y.now));
    MergedIsSafe(y.identity, MergeState(local, store, 0), Restamp(pulled, PullExpiry(y.now)));
  }

  lemma TextCarriesPush(
    y: Sync, peer: seq<AgentRecord>, above: u64, local: seq<AgentRecord>,
    pushed: seq<AgentRecord>, commands: seq<Command>, after: PushState)
    requires PushedByText(y, peer, above, local, pushed, commands, after) && Safe(local)
    ensures Pushed(y, peer, above, local, pushed, after)
  {
    PulledIsSafe(local, above, y.limit, pushed);
    AllRecordsReceived(commands, pushed, y.now, Expiry(y.server.config, y.now));
    CommandsPush(y.server, PushState(peer, y.peerStore, 0), Restamp(pushed, Expiry(y.server.config, y.now)), y.now);
  }

  /** Between wire-safe registries the text protocol loses nothing: the sync is the one on records. */
  lemma TextCarriesSync(
    y: Sync, store: TrustStore, local: seq<AgentRecord>, peer: seq<AgentRecord>,
    pulled: seq<AgentRecord>, merged: MergeState, pushed: seq<AgentRecord>, commands: seq<Command>, after: PushState)
    requires SyncedByText(y, store, local, peer, pulled, merged, pushed, commands, after)
    requires Safe(local) && Safe(peer)
    ensures Synced(y, store, local, peer, pulled, merged, pushed, after)
  {
    TextCarriesPull(y, store, local, HighestRevision(local), peer, pulled, merged);
    TextCarriesPush(y, peer, HighestRevision(peer), merged.records, pushed, commands, after);
  }

  // ---------- Safety ----------

  /** Every agent of `before` is in `after`, at no lower revision. */
  ghost predicate Rises(before: seq<AgentRecord>, after: seq<AgentRecord>) {
    forall id :: Has(before, id) ==> Has(after, id) && Lookup(after, id).revision >= Lookup(before, id).revision
  }

  lemma UpsertRises(records: seq<AgentRecord>, r: AgentRecord)
    requires UniqueIds(records)
    ensures UniqueIds(Upserted(records, r)) && Rises(records, Upserted(records, r))
  {
    UpsertKeepsUnique(records, r);
    forall id | Has(records, id)
      ensures Has(Upserted(records, r), id) && Lookup(Upserted(records, r), id).revision >= Lookup(records, id).revision
    {
      UpsertLookup(records, r, id);
    }
  }

  lemma {:induction false} MergeRises(identity: Option<Verifier>, s: MergeState, list: seq<AgentRecord>)
    requires UniqueIds(s.records)
    ensures UniqueIds(MergeAll(identity, s, list).records) && Rises(s.records, MergeAll(identity, s, list).records)
    decreases list
  {
    if list != [] {
      UpsertRises(s.records, list[0]);
      MergeRises(identity, MergeOne(identity, s, list[0]), list[1..]);
    }
  }

  lemma {:induction false} PushRises(server: Server, s: PushState, rs: seq<AgentRecord>)
    requires UniqueIds(s.records)
    ensures UniqueIds(PushAll(server, s, rs).records) && Rises(s.records, PushAll(server, s, rs).records)
    decreases rs
  {
    if rs != [] {
      UpsertRises(s.records, rs[0]);
      PushRises(server, PushRecord(server, s, rs[0]), rs[1..]);
    }
  }

  lemma PullNeverLowers(
    y: Sync, store: TrustStore, local: seq<AgentRecord>, above: u64, peer: seq<AgentRecord>,
    pulled: seq<AgentRecord>, merged: MergeState)
    requires Pulled(y, store, local, above, peer, pulled, merged) && UniqueIds(local)
    ensures UniqueIds(merged.records) && Rises(local, merged.records)
  {
    MergeRises(y.identity, MergeState(local, store, 0), Restamp(pulled, PullExpiry(y.now)));
  }

  lemma PushNeverLowers(
    y: Sync, peer: seq<AgentRecord>, above: u64, local: seq<AgentRecord>, pushed: seq<AgentRecord>, after: PushState)
    requires Pushed(y, peer, above, local, pushed, after) && UniqueIds(peer)
    ensures UniqueIds(after.records) && Rises(peer, after.records)
  {
    PushRises(y.server, PushState(peer, y.peerStore, 0), Restamp(pushed, Expiry(y.server.config, y.now)));
  }

  /** No sync, limited or not, with or without rejections, lowers a revision or drops an agent on either side. */
  lemma SyncNeverLowers(
    y: Sync, store: TrustStore, local: seq<AgentRecord>, peer: seq<AgentRecord>,
    pulled: seq<AgentRecord>, merged: MergeState, pushed: seq<AgentRecord>, after: PushState)
    requires Synced(y, store, local, peer, pulled, merged, pushed, after) && UniqueIds(local) && UniqueIds(peer)
    ensures UniqueIds(merged.records) && Rises(local, merged.records)
    ensures UniqueIds(after.records) && Rises(peer, after.records)
  {
    PullNeverLowers(y, store, local, HighestRevision(local), peer, pulled, merged);
    PushNeverLowers(y, peer, HighestRevision(peer), merged.records, pushed, after);
  }

  ghost predicate AtMost(records: seq<AgentRecord>, bound: u64) {
    forall r :: r in records ==> r.revision <= bound
  }

  lemma {:induction false} MergeAtMost(identity: Option<Verifier>, s: MergeState, list: seq<AgentRecord>, bound: u64)
    requires AtMost(s.records, bound) && AtMost(list, bound)
    ensures AtMost(MergeAll(identity, s, list).records, bound)
    decreases list
  {
    if list != [] {
      var next := MergeOne(identity, s, list[0]);
      assert list[0] in list;
      forall q | q in next.records ensures q.revision <= bound {
        if q !in s.records {
          UpsertedMember(s.records, list[0], q);
        }
      }
      MergeAtMost(identity, next, list[1..], bound);
    }
  }

  lemma NothingAbove(records: seq<AgentRecord>, bound: u64, limit: nat, out: seq<AgentRecord>)
    requires AtMost(records, bound) && IsPull(records, bound, limit, out)
    ensures out == []
  {
    if out != [] {
      PulledFrom(records, bound, limit, out, 0);
    }
  }

  lemma RestampAtMost(rs: seq<AgentRecord>, expiresAt: int, bound: u64)
    requires forall i :: 0 <= i < |rs| ==> rs[i].revision <= bound
    ensures AtMost(Restamp(rs, expiresAt), bound)
  {
    forall r | r in Restamp(rs, expiresAt) ensures r.revision <= bound {
      var i :| 0 <= i < |rs| && Restamp(rs, expiresAt)[i] == r;
    }
  }

  lemma PulledAtMost(
    y: Sync, store: TrustStore, local: seq<AgentRecord>, above: u64, peer: seq<AgentRecord>,
    pulled: seq<AgentRecord>, merged: MergeState, bound: u64)
    requires Pulled(y, store, local, above, peer, pulled, merged) && AtMost(local, bound) && AtMost(peer, bound)
    ensures AtMost(merged.records, bound)
  {
    forall i | 0 <= i < |pulled| ensures pulled[i].revision <= bound { PulledFrom(peer, above, y.limit, pulled, i); }
    RestampAtMost(pulled, PullExpiry(y.now), bound);
    MergeAtMost(y.identity, MergeState(local, store, 0), Restamp(pulled, PullExpiry(y.now)), bound);
  }

  /** The lower side pulls and pushes nothing; the higher side pulls nothing. */
  lemma SyncMovesOneWay(
    y: Sync, store: TrustStore, local: seq<AgentRecord>, peer: seq<AgentRecord>,
    pulled: seq<AgentRecord>, merged: MergeState, pushed: seq<AgentRecord>, after: PushState)
    requires Synced(y, store, local, peer, pulled, merged, pushed, after)
    ensures HighestRevision(local) < HighestRevision(peer) ==> pushed == [] && after == PushState(peer, y.peerStore, 0)
    ensures HighestRevision(local) >= HighestRevision(peer) ==> pulled == [] && merged == MergeState(local, store, 0)
    ensures pulled == [] || pushed == []
  {
    var h, g := HighestRevision(local), HighestRevision(peer);
    if h < g {
      PulledAtMost(y, store, local, h, peer, pulled, merged, g);
      NothingAbove(merged.records, g, y.limit, pushed);
    } else {
      NothingAbove(peer, h, y.limit, pulled);
    }
  }

  // ---------- Convergence ----------

  predicate AllAccepted(records: seq<AgentRecord>, rs: seq<AgentRecord>)
    decreases rs
  {
    rs != [] ==> Accepts(records, rs[0]) && AllAccepted(Upserted(records, rs[0]), rs[1..])
  }

  /** If every record was counted as accepted, the merge was plain upserts. */
  lemma {:induction false} MergeUnrejected(identity: Option<Verifier>, s: MergeState, list: seq<AgentRecord>)
    ensures MergeAll(identity, s, list).accepted <= s.accepted + |list|
    ensures MergeAll(identity, s, list).accepted == s.accepted + |list| ==>
              AllAccepted(s.records, list) && MergeAll(identity, s, list).records == UpsertAll(s.records, list)
    decreases list
  {
    if list != [] {
      MergeUnrejected(identity, MergeOne(identity, s, list[0]), list[1..]);
    }
  }

  lemma {:induction false} PushUnrejected(server: Server, s: PushState, rs: seq<AgentRecord>)
    ensures PushAll(server, s, rs).ok <= s.ok + |rs|
    ensures PushAll(server, s, rs).ok == s.ok + |rs| ==>
              AllAccepted(s.records, rs) && PushAll(server, s, rs).records == UpsertAll(s.records, rs)
    decreases rs
  {
    if rs != [] {
      PushUnrejected(server, PushRecord(server, s, rs[0]), rs[1..]);
    }
  }

  predicate Named(rs: seq<AgentRecord>, id: string) {
    exists i :: 0 <= i < |rs| && rs[i].agentId == id
  }

  lemma AcceptedMembers(records: seq<AgentRecord>, r: AgentRecord, q: AgentRecord)
    requires UniqueIds(records) && Accepts(records, r)
    ensures q in Upserted(records, r) <==> q == r || (q in records && q.agentId != r.agentId)
  {
    var after, p := Upserted(records, r), Position(records, r.agentId);
    if q in after && q != r {
      var i :| 0 <= i < |after| && after[i] == q;
      assert i < |records| && records[i] == q && i != p;
    }
    if q in records && q.agentId != r.agentId {
      var i :| 0 <= i < |records| && records[i] == q;
      assert after[i] == q;
    }
    assert after[p] == r;
  }

  lemma FirstIsNotNamedAgain(rs: seq<AgentRecord>)
    requires rs != [] && UniqueIds(rs)
    ensures !Named(rs[1..], rs[0].agentId) && UniqueIds(rs[1..])
  {
  }

  /** Accepted records with different ids end up beside the untouched old ones. */
  lemma {:induction false} UpsertAllMembers(records: seq<AgentRecord>, rs: seq<AgentRecord>, q: AgentRecord)
    requires UniqueIds(records) && UniqueIds(rs) && AllAccepted(records, rs)
    ensures q in UpsertAll(records, rs) <==> q in rs || (q in records && !Named(rs, q.agentId))
    decreases rs
  {
    if rs != [] {
      UpsertKeepsUnique(records, rs[0]);
      FirstIsNotNamedAgain(rs);
      UpsertAllMembers(Upserted(records, rs[0]), rs[1..], q);
      FirstMembers(records, rs, q);
    }
  }

  lemma FirstMembers(records: seq<AgentRecord>, rs: seq<AgentRecord>, q: AgentRecord)
    requires UniqueIds(records) && rs != [] && !Named(rs[1..], rs[0].agentId) && Accepts(records, rs[0])
    ensures q in rs[1..] || (q in Upserted(records, rs[0]) && !Named(rs[1..], q.agentId)) <==>
            q in rs || (q in records && !Named(rs, q.agentId))
  {
    AcceptedMembers(records, rs[0], q);
    assert rs == [rs[0]] + rs[1..];
    NamedFirst(rs, q.agentId);
  }

  lemma NamedFirst(rs: seq<AgentRecord>, id: string)
    requires rs != []
    ensures Named(rs, id) <==> rs[0].agentId == id || Named(rs[1..], id)
  {
    if Named(rs, id) && rs[0].agentId != id {
      var i :| 0 <= i < |rs| && rs[i].agentId == id;
      assert rs[1..][i - 1].agentId == id;
    }
    if Named(rs[1..], id) {
      var i :| 0 <= i < |rs[1..]| && rs[1..][i].agentId == id;
      assert rs[i + 1].agentId == id;
    }
  }

  ghost predicate HasCopy(b: seq<AgentRecord>, r: AgentRecord) {
    exists q :: q in b && SameButExpiry(r, q)
  }

  ghost predicate Covered(a: seq<AgentRecord>, b: seq<AgentRecord>, revision: u64) {
    forall r :: r in a && r.revision > revision ==> HasCopy(b, r)
  }

  /** The two registries hold the same records above a revision, but for the expiry. */
  ghost predicate SameAbove(a: seq<AgentRecord>, b: seq<AgentRecord>, revision: u64) {
    Covered(a, b, revision) && Covered(b, a, revision)
  }

  /** `out` is all of what lies above the revision: the page limit was not reached. */
  predicate WholePull(records: seq<AgentRecord>, revision: u64, limit: nat) {
    limit == 0 || |Select(records, revision)| <= limit
  }

  lemma WholePullMembers(records: seq<AgentRecord>, revision: u64, limit: nat, out: seq<AgentRecord>)
    requires IsPull(records, revision, limit, out) && WholePull(records, revision, limit)
    ensures forall r :: r in out <==> r in records && r.revision > revision
    ensures multiset(out) == multiset(Select(records, revision))
  {
    var x := Select(records, revision);
    var sorted :| SortedFrom(sorted, x) && out == Page(sorted, limit);
    assert |multiset(sorted)| == |sorted| && |multiset(x)| == |x|;
    assert out == sorted;
    SelectMembers(records, revision);
    forall r ensures r in out <==> r in x {
      assert r in out <==> r in multiset(out);
      assert r in x <==> r in multiset(x);
    }
  }

  lemma {:induction false} SelectUnique(records: seq<AgentRecord>, revision: u64)
    requires UniqueIds(records)
    ensures UniqueIds(Select(records, revision))
  {
    if records != [] {
      SelectUnique(records[1..], revision);
      SelectMembers(records[1..], revision);
      var rest := Select(records[1..], revision);
      forall j | 0 <= j < |rest| ensures rest[j].agentId != records[0].agentId { assert rest[j] in records[1..]; }
    }
  }

  lemma PermutedUnique(a: seq<AgentRecord>, b: seq<AgentRecord>)
    requires multiset(a) == multiset(b) && UniqueIds(b)
    ensures UniqueIds(a)
  {
    forall i, j | 0 <= i < j < |a| ensures a[i].agentId != a[j].agentId {
      assert a[i] in multiset(b) && a[j] in multiset(b);
      if a[i] == a[j] {
        CountedTwice(a, i, j);
        CountedOnce(b, a[i]);
      } else {
        var k :| 0 <= k < |b| && b[k] == a[i];
        var l :| 0 <= l < |b| && b[l] == a[j];
      }
    }
  }

  lemma CountedOnce(b: seq<AgentRecord>, r: AgentRecord)
    requires UniqueIds(b) && r in b
    ensures multiset(b)[r] == 1
  {
    var i :| 0 <= i < |b| && b[i] == r;
    assert b == b[..i] + [b[i]] + b[i + 1..];
    assert r !in b[..i] && r !in b[i + 1..];
    assert multiset(b)[r] == multiset(b[..i])[r] + 1 + multiset(b[i + 1..])[r];
  }

  lemma GivenUnique(giver: seq<AgentRecord>, given: seq<AgentRecord>, bound: u64, limit: nat, expiresAt: int)
    requires UniqueIds(giver) && IsPull(giver, bound, limit, given) && WholePull(giver, bound, limit)
    ensures UniqueIds(Restamp(given, expiresAt))
  {
    WholePullMembers(giver, bound, limit, given);
    SelectUnique(giver, bound);
    PermutedUnique(given, Select(giver, bound));
  }

  lemma TakenFromGiver(taker: seq<AgentRecord>, giver: seq<AgentRecord>, given: seq<AgentRecord>, bound: u64,
                       expiresAt: int, r: AgentRecord)
    requires UniqueIds(taker) && AtMost(taker, bound) && UniqueIds(Restamp(given, expiresAt))
    requires AllAccepted(taker, Restamp(given, expiresAt)) && r in UpsertAll(taker, Restamp(given, expiresAt))
    requires r.revision > bound && forall q :: q in given ==> q in giver
    ensures HasCopy(giver, r)
  {
    var stamped := Restamp(given, expiresAt);
    UpsertAllMembers(taker, stamped, r);
    var i :| 0 <= i < |stamped| && stamped[i] == r;
    assert given[i] in giver && SameButExpiry(r, given[i]);
  }

  /** One side took over, restamped, all that the other has above a bound that nothing of its own exceeds. */
  lemma TakenOver(taker: seq<AgentRecord>, giver: seq<AgentRecord>, given: seq<AgentRecord>, bound: u64, limit: nat,
                  expiresAt: int, after: seq<AgentRecord>)
    requires UniqueIds(taker) && UniqueIds(giver) && AtMost(taker, bound)
    requires IsPull(giver, bound, limit, given) && WholePull(giver, bound, limit)
    requires AllAccepted(taker, Restamp(given, expiresAt)) && after == UpsertAll(taker, Restamp(given, expiresAt))
    ensures Covered(after, giver, bound)
    ensures Covered(giver, after, bound)
  {
    GivenUnique(giver, given, bound, limit, expiresAt);
    WholePullMembers(giver, bound, limit, given);
    forall r | r in after && r.revision > bound ensures HasCopy(giver, r) {
      TakenFromGiver(taker, giver, given, bound, expiresAt, r);
    }
    forall r | r in giver && r.revision > bound ensures HasCopy(after, r) {
      StampedArrives(taker, given, expiresAt, r);
    }
  }

  lemma StampedArrives(taker: seq<AgentRecord>, given: seq<AgentRecord>, expiresAt: int, r: AgentRecord)
    requires UniqueIds(taker) && UniqueIds(Restamp(given, expiresAt)) && AllAccepted(taker, Restamp(given, expiresAt))
    requires r in given
    ensures r.(expiresAt := expiresAt) in UpsertAll(taker, Restamp(given, expiresAt))
    ensures SameButExpiry(r, r.(expiresAt := expiresAt))
  {
    var i :| 0 <= i < |given| && given[i] == r;
    assert Restamp(given, expiresAt)[i] == r.(expiresAt := expiresAt);
    UpsertAllMembers(taker, Restamp(given, expiresAt), r.(expiresAt := expiresAt));
  }

  lemma CoveredIsLower(a: seq<AgentRecord>, b: seq<AgentRecord>, bound: u64)
    requires Covered(a, b, bound)
    ensures HighestRevision(a) <= bound || HighestRevision(a) <= HighestRevision(b)
  {
    if HighestRevision(a) > bound {
      var top :| top in a && top.revision == HighestRevision(a);
      assert HasCopy(b, top);
      var copy :| copy in b && SameButExpiry(top, copy);
      assert copy.revision == top.revision;
    }
  }

  /** The page limit was not reached and nothing was rejected. */
  ghost predicate Undisturbed(
    y: Sync, local: seq<AgentRecord>, peer: seq<AgentRecord>,
    pulled: seq<AgentRecord>, merged: MergeState, pushed: seq<AgentRecord>, after: PushState)
  {
    && WholePull(peer, HighestRevision(local), y.limit) && merged.accepted == |pulled|
    && WholePull(merged.records, HighestRevision(peer), y.limit) && after.ok == |pushed|
  }

  function Lower(a: u64, b: u64): u64 {
    if a < b then a else b
  }

  /** Taking everything above one's own highest revision makes the two agree above it. */
  lemma TakingAllAgrees(taker: seq<AgentRecord>, bound: u64, giver: seq<AgentRecord>, given: seq<AgentRecord>, limit: nat,
                        expiresAt: int, after: seq<AgentRecord>)
    requires UniqueIds(taker) && UniqueIds(giver) && bound == HighestRevision(taker) <= HighestRevision(giver)
    requires IsPull(giver, bound, limit, given) && WholePull(giver, bound, limit)
    requires AllAccepted(taker, Restamp(given, expiresAt)) && after == UpsertAll(taker, Restamp(given, expiresAt))
    ensures Covered(after, giver, bound) && Covered(giver, after, bound)
    ensures HighestRevision(after) == HighestRevision(giver)
  {
    TakenOver(taker, giver, given, bound, limit, expiresAt, after);
    CoveredIsLower(after, giver, bound);
    CoveredIsLower(giver, after, bound);
    if HighestRevision(giver) == bound {
      NothingAbove(giver, bound, limit, given);
    }
  }

  lemma PullTakesAll(
    y: Sync, store: TrustStore, local: seq<AgentRecord>, above: u64, peer: seq<AgentRecord>,
    pulled: seq<AgentRecord>, merged: MergeState)
    requires Pulled(y, store, local, above, peer, pulled, merged) && merged.accepted == |pulled|
    ensures var stamped := Restamp(pulled, PullExpiry(y.now));
      AllAccepted(local, stamped) && merged.records == UpsertAll(local, stamped)
  {
    MergeUnrejected(y.identity, MergeState(local, store, 0), Restamp(pulled, PullExpiry(y.now)));
  }

  lemma PushTakesAll(
    y: Sync, peer: seq<AgentRecord>, above: u64, local: seq<AgentRecord>, pushed: seq<AgentRecord>, after: PushState)
    requires Pushed(y, peer, above, local, pushed, after) && after.ok == |pushed|
    ensures var stamped := Restamp(pushed, Expiry(y.server.config, y.now));
      AllAccepted(peer, stamped) && after.records == UpsertAll(peer, stamped)
  {
    PushUnrejected(y.server, PushState(peer, y.peerStore, 0), Restamp(pushed, Expiry(y.server.config, y.now)));
  }

  lemma ConvergesByPull(
    y: Sync, store: TrustStore, local: seq<AgentRecord>, above: u64, peer: seq<AgentRecord>,
    pulled: seq<AgentRecord>, merged: MergeState)
    requires Pulled(y, store, local, above, peer, pulled, merged) && UniqueIds(local) && UniqueIds(peer)
    requires above == HighestRevision(local) < HighestRevision(peer)
    requires WholePull(peer, above, y.limit) && merged.accepted == |pulled|
    ensures Covered(merged.records, peer, above) && Covered(peer, merged.records, above)
    ensures HighestRevision(merged.records) == HighestRevision(peer)
  {
    PullTakesAll(y, store, local, above, peer, pulled, merged);
    TakingAllAgrees(local, above, peer, pulled, y.limit, PullExpiry(y.now), merged.records);
  }

  lemma ConvergesByPush(
    y: Sync, peer: seq<AgentRecord>, above: u64, local: seq<AgentRecord>, pushed: seq<AgentRecord>, after: PushState)
    requires Pushed(y, peer, above, local, pushed, after) && UniqueIds(local) && UniqueIds(peer)
    requires above == HighestRevision(peer) <= HighestRevision(local)
    requires WholePull(local, above, y.limit) && after.ok == |pushed|
    ensures Covered(after.records, local, above) && Covered(local, after.records, above)
    ensures HighestRevision(after.records) == HighestRevision(local)
  {
    PushTakesAll(y, peer, above, local, pushed, after);
    TakingAllAgrees(peer, above, local, pushed, y.limit, Expiry(y.server.config, y.now), after.records);
  }

  /**
   After one undisturbed sync the two registries hold the same records above the
   lower of the two highest revisions, and have the same highest revision.
   */
  lemma SyncConverges(
    y: Sync, store: TrustStore, local: seq<AgentRecord>, peer: seq<AgentRecord>,
    pulled: seq<AgentRecord>, merged: MergeState, pushed: seq<AgentRecord>, after: PushState)
    requires Synced(y, store, local, peer, pulled, merged, pushed, after) && UniqueIds(local) && UniqueIds(peer)
    requires Undisturbed(y, local, peer, pulled, merged, pushed, after)
    ensures SameAbove(merged.records, after.records, Lower(HighestRevision(local), HighestRevision(peer)))
    ensures HighestRevision(merged.records) == HighestRevision(after.records)
  {
    SyncMovesOneWay(y, store, local, peer, pulled, merged, pushed, after);
    if HighestRevision(local) < HighestRevision(peer) {
      ConvergesByPull(y, store, local, HighestRevision(local), peer, pulled, merged);
    } else {
      ConvergesByPush(y, peer, HighestRevision(peer), local, pushed, after);
    }
  }

  /** After an undisturbed sync, whatever the settings of the next one, it transfers nothing. */
  lemma SecondSyncTransfersNothing(
    y: Sync, store: TrustStore, local: seq<AgentRecord>, peer: seq<AgentRecord>,
    pulled: seq<AgentRecord>, merged: MergeState, pushed: seq<AgentRecord>, after: PushState,
    y2: Sync, pulled2: seq<AgentRecord>, merged2: MergeState, pushed2: seq<AgentRecord>, after2: PushState)
    requires Synced(y, store, local, peer, pulled, merged, pushed, after) && UniqueIds(local) && UniqueIds(peer)
    requires Undisturbed(y, local, peer, pulled, merged, pushed, after)
    requires Synced(y2, merged.store, merged.records, after.records, pulled2, merged2, pushed2, after2)
    ensures pulled2 == [] && pushed2 == []
    ensures merged2.records == merged.records && after2.records == after.records
  {
    SyncConverges(y, store, local, peer, pulled, merged, pushed, after);
    EqualHighestTransfersNothing(y2, merged.store, merged.records, after.records, pulled2, merged2, pushed2, after2);
  }

  lemma SomethingAbove(records: seq<AgentRecord>, bound: u64, limit: nat, out: seq<AgentRecord>)
    requires IsPull(records, bound, limit, out) && HighestRevision(records) > bound
    ensures out != []
  {
    if out == [] {
      EmptyPage(records, bound, limit);
      SelectMembers(records, bound);
    }
  }

  /**
   A sync offers nothing to either side exactly when the highest revisions are
   equal, whatever else the registries hold: differences below stay.
   */
  lemma EqualHighestTransfersNothing(
    y: Sync, store: TrustStore, local: seq<AgentRecord>, peer: seq<AgentRecord>,
    pulled: seq<AgentRecord>, merged: MergeState, pushed: seq<AgentRecord>, after: PushState)
    requires Synced(y, store, local, peer, pulled, merged, pushed, after)
    ensures pulled == [] && pushed == [] <==> HighestRevision(local) == HighestRevision(peer)
    ensures HighestRevision(local) == HighestRevision(peer) ==> merged.records == local && after.records == peer
  {
    var h, g := HighestRevision(local), HighestRevision(peer);
    SyncMovesOneWay(y, store, local, peer, pulled, merged, pushed, after);
    if h == g {
      NothingAbove(local, g, y.limit, pushed);
    } else if h < g {
      SomethingAbove(peer, h, y.limit, pulled);
    } else {
      SomethingAbove(local, g, y.limit, pushed);
    }
  }

  // ---------- A node that joins ----------

  lemma PullExists(records: seq<AgentRecord>, above: u64, limit: nat) returns (out: seq<AgentRecord>)
    ensures IsPull(records, above, limit, out)
  {
    var sorted := SortByRevision(Select(records, above));
    out := Page(sorted, limit);
    assert SortedFrom(sorted, Select(records, above)) && out == Page(sorted, limit);
  }

  /** Any two registries can sync, whatever the settings. */
  lemma SyncExists(y: Sync, store: TrustStore, local: seq<AgentRecord>, peer: seq<AgentRecord>)
    returns (pulled: seq<AgentRecord>, merged: MergeState, pushed: seq<AgentRecord>, after: PushState)
    ensures Synced(y, store, local, peer, pulled, merged, pushed, after)
  {
    pulled := PullExists(peer, HighestRevision(local), y.limit);
    merged := MergeAll(y.identity, MergeState(local, store, 0), Restamp(pulled, PullExpiry(y.now)));
    pushed := PullExists(merged.records, HighestRevision(peer), y.limit);
    after := PushAll(y.server, PushState(peer, y.peerStore, 0), Restamp(pushed, Expiry(y.server.config, y.now)));
  }

  /** None of the agents is in the registry yet. */
  ghost predicate AllNew(records: seq<AgentRecord>, rs: seq<AgentRecord>) {
    forall i :: 0 <= i < |rs| ==> !Has(records, rs[i].agentId)
  }

  lemma StillNew(records: seq<AgentRecord>, rs: seq<AgentRecord>)
    requires rs != [] && UniqueIds(records) && UniqueIds(rs) && AllNew(records, rs)
    ensures UniqueIds(Upserted(records, rs[0])) && UniqueIds(rs[1..]) && AllNew(Upserted(records, rs[0]), rs[1..])
  {
    var next := Upserted(records, rs[0]);
    UpsertKeepsUnique(records, rs[0]);
    forall i | 0 <= i < |rs[1..]| ensures !Has(next, rs[1..][i].agentId) {
      assert rs[1..][i] == rs[i + 1];
      UpsertLookup(records, rs[0], rs[i + 1].agentId);
    }
  }

  lemma {:induction false} NewAreAccepted(s: MergeState, rs: seq<AgentRecord>)
    requires UniqueIds(s.records) && UniqueIds(rs) && AllNew(s.records, rs)
    ensures MergeAll(None, s, rs).accepted == s.accepted + |rs|
    decreases rs
  {
    if rs != [] {
      StillNew(s.records, rs);
      NewAreAccepted(MergeOne(None, s, rs[0]), rs[1..]);
    }
  }

  lemma NewNodeAcceptsAll(
    y: Sync, store: TrustStore, peer: seq<AgentRecord>, pulled: seq<AgentRecord>, merged: MergeState)
    requires Pulled(y, store, [], 0, peer, pulled, merged) && UniqueIds(peer)
    requires y.identity.None? && WholePull(peer, 0, y.limit)
    ensures merged.accepted == |pulled|
  {
    GivenUnique(peer, pulled, 0, y.limit, PullExpiry(y.now));
    NewAreAccepted(MergeState([], store, 0), Restamp(pulled, PullExpiry(y.now)));
  }

  /** A node that starts empty, without identity checks and page limit, has everything above revision 0 after one sync. */
  lemma NewNodeCatchesUp(
    y: Sync, store: TrustStore, peer: seq<AgentRecord>,
    pulled: seq<AgentRecord>, merged: MergeState, pushed: seq<AgentRecord>, after: PushState)
    requires Synced(y, store, [], peer, pulled, merged, pushed, after) && UniqueIds(peer)
    requires y.identity.None? && WholePull(peer, 0, y.limit)
    ensures merged.accepted == |pulled| && pushed == [] && after.records == peer
    ensures SameAbove(merged.records, peer, 0)
  {
    SyncMovesOneWay(y, store, [], peer, pulled, merged, pushed, after);
    if HighestRevision(peer) == 0 {
      EqualHighestTransfersNothing(y, store, [], peer, pulled, merged, pushed, after);
    } else {
      NewNodeAcceptsAll(y, store, peer, pulled, merged);
      ConvergesByPull(y, store, [], 0, peer, pulled, merged);
    }
  }
}
