/**
 Concurrent upserts: an upsert commits to the registry under the lock and appends
 to the log after releasing it, so commits and appends interleave freely.
 */
module ConcurrentLog {
  import opened Bytes
  import opened Records
  import opened Registry
  import opened RegistryRuns
  import opened Persistence
  import opened Recovery
  import opened Restore

  /**
   `live` is the registry, `pending` the committed records whose callback has not
   run yet, `wal` the log file.  `accepted` and `logged` record the history.
   */
  datatype System = System(
    live: seq<AgentRecord>,
    pending: seq<AgentRecord>,
    wal: seq<byte>,
    accepted: set<AgentRecord>,
    logged: seq<AgentRecord>)

  const INITIAL := System([], [], [], {}, [])

  datatype Step =
    | Commit(r: AgentRecord)
    | Append(i: nat)
    | Beat(id: string, expiresAt: int, revision: u64)

  function Next(codec: Codec, s: System, step: Step): System {
    match step
    case Commit(r) =>
      if Accepts(s.live, r)
      then s.(live := Upserted(s.live, r), pending := s.pending + [r], accepted := s.accepted + {r})
      else s
    case Append(i) =>
      if i < |s.pending|
      then s.(pending := s.pending[..i] + s.pending[i + 1..],
              wal := s.wal + RecordBytes(codec, EntryOf(s.pending[i])),
              logged := s.logged + [s.pending[i]])
      else s
    case Beat(id, expiresAt, revision) => s.(live := Refreshed(s.live, id, expiresAt, revision))
  }

  function RunSteps(codec: Codec, s: System, steps: seq<Step>): System
    decreases steps
  {
    if steps == [] then s else RunSteps(codec, Next(codec, s, steps[0]), steps[1..])
  }

  /** Committed records fit the log. */
  ghost predicate AllStorable(codec: Codec, steps: seq<Step>) {
    forall step :: step in steps && step.Commit? ==> Storable(codec, EntryOf(step.r))
  }

  predicate NoBeats(steps: seq<Step>) {
    forall step :: step in steps ==> !step.Beat?
  }

  function EntriesOf(rs: seq<AgentRecord>): (es: seq<Entry>)
    ensures |es| == |rs| && forall i :: 0 <= i < |rs| ==> es[i] == EntryOf(rs[i])
  {
    seq(|rs|, i requires 0 <= i < |rs| => EntryOf(rs[i]))
  }

  // ---------- The invariant ----------

  /** A record that was committed at some time is not ahead of the registry. */
  predicate Behind(live: seq<AgentRecord>, r: AgentRecord) {
    Has(live, r.agentId) && r.revision <= Lookup(live, r.agentId).revision
  }

  ghost predicate Inv(codec: Codec, s: System) {
    && UniqueIds(s.live)
    && (forall r :: r in s.accepted ==> Behind(s.live, r) && Storable(codec, EntryOf(r)))
    && (forall r :: r in s.pending || r in s.logged ==> r in s.accepted)
    && s.wal == LogBytes(codec, EntriesOf(s.logged))
  }

  /** Without heartbeats, the registry's own record is on its way to the log or there already. */
  ghost predicate OnItsWay(s: System) {
    forall id :: Has(s.live, id) ==> Lookup(s.live, id) in s.pending || Lookup(s.live, id) in s.logged
  }

  lemma BehindAfterUpsert(live: seq<AgentRecord>, r: AgentRecord, q: AgentRecord)
    requires UniqueIds(live) && Accepts(live, r) && (Behind(live, q) || q == r)
    ensures Behind(Upserted(live, r), q)
  {
    UpsertLookup(live, r, q.agentId);
  }

  lemma BehindAfterBeat(live: seq<AgentRecord>, id: string, expiresAt: int, revision: u64, q: AgentRecord)
    requires UniqueIds(live) && Behind(live, q)
    ensures Behind(Refreshed(live, id, expiresAt, revision), q)
  {
    if HeartbeatAccepted(live, id, revision) {
      var r := Lookup(live, id).(expiresAt := expiresAt, revision := revision);
      ReplacedLookup(live, Position(live, id), r, q.agentId);
    }
  }

  lemma RemainsPending(pending: seq<AgentRecord>, i: nat)
    requires i < |pending|
    ensures forall r :: r in pending[..i] + pending[i + 1..] ==> r in pending
    ensures forall r :: r in pending ==> r == pending[i] || r in pending[..i] + pending[i + 1..]
  {
    assert pending == pending[..i] + [pending[i]] + pending[i + 1..];
  }

  lemma NextKeepsInv(codec: Codec, s: System, step: Step)
    requires Inv(codec, s)
    requires step.Commit? ==> Storable(codec, EntryOf(step.r))
    ensures Inv(codec, Next(codec, s, step))
  {
    var t := Next(codec, s, step);
    match step
    case Commit(r) =>
      if Accepts(s.live, r) {
        UpsertKeepsUnique(s.live, r);
        forall q | q in t.accepted ensures Behind(t.live, q) { BehindAfterUpsert(s.live, r, q); }
      }
    case Append(i) =>
      if i < |s.pending| {
        RemainsPending(s.pending, i);
        var r := s.pending[i];
        assert EntriesOf(s.logged + [r]) == EntriesOf(s.logged) + [EntryOf(r)];
        LogBytesConcat(codec, EntriesOf(s.logged), [EntryOf(r)]);
        LogBytesOne(codec, EntryOf(r));
      }
    case Beat(id, expiresAt, revision) =>
      RefreshKeepsUnique(s.live, id, expiresAt, revision);
      forall q | q in s.accepted ensures Behind(t.live, q) { BehindAfterBeat(s.live, id, expiresAt, revision, q); }
  }

  lemma NextKeepsOnItsWay(codec: Codec, s: System, step: Step)
    requires UniqueIds(s.live) && OnItsWay(s) && !step.Beat?
    ensures OnItsWay(Next(codec, s, step))
  {
    var t := Next(codec, s, step);
    forall id | Has(t.live, id) ensures Lookup(t.live, id) in t.pending || Lookup(t.live, id) in t.logged {
      match step
      case Commit(r) =>
        if Accepts(s.live, r) {
          UpsertLookup(s.live, r, id);
        }
      case Append(i) =>
        if i < |s.pending| {
          RemainsPending(s.pending, i);
        }
    }
  }

  lemma {:induction false} RunKeepsInv(codec: Codec, s: System, steps: seq<Step>)
    requires Inv(codec, s) && AllStorable(codec, steps)
    ensures Inv(codec, RunSteps(codec, s, steps))
    ensures OnItsWay(s) && NoBeats(steps) ==> OnItsWay(RunSteps(codec, s, steps))
    decreases steps
  {
    if steps != [] {
      assert steps[0] in steps;
      NextKeepsInv(codec, s, steps[0]);
      if OnItsWay(s) && NoBeats(steps) {
        NextKeepsOnItsWay(codec, s, steps[0]);
      }
      RunKeepsInv(codec, Next(codec, s, steps[0]), steps[1..]);
    }
  }

  // ---------- What a crash recovers ----------

  /** What a restart finds if only the first n bytes of the log survived. */
  function CrashEntries(codec: Codec, s: System, n: nat): seq<Entry>
    requires n <= |s.wal|
  {
    Replay(codec, s.wal[..n], 0)
  }

  lemma CrashIsPrefix(codec: Codec, s: System, n: nat) returns (k: nat)
    requires Lawful(codec) && Inv(codec, s) && n <= |s.wal|
    ensures k <= |s.logged| && CrashEntries(codec, s, n) == Fresh(EntriesOf(s.logged)[..k], 0)
    ensures n == |s.wal| ==> CrashEntries(codec, s, n) == Fresh(EntriesOf(s.logged), 0)
  {
    var es := EntriesOf(s.logged);
    forall e | e in es ensures Storable(codec, e) {
      var i :| 0 <= i < |es| && es[i] == e;
      assert s.logged[i] in s.logged;
    }
    k := CountWhole(codec, es, n);
    TornWrite(codec, es, n, k, 0);
    if n == |s.wal| {
      assert s.wal[..n] == LogBytes(codec, es) + [];
      ReplayLog(codec, es, [], 0);
    }
  }

  lemma LoggedMember(s: System, k: nat, e: Entry)
    requires k <= |s.logged| && e in Fresh(EntriesOf(s.logged)[..k], 0)
    ensures e.timestamp > 0 && exists r :: r in s.logged && EntryOf(r) == e
  {
    FreshMembers(EntriesOf(s.logged)[..k], 0);
    var i :| 0 <= i < k && EntriesOf(s.logged)[i] == e;
    assert s.logged[i] in s.logged && EntryOf(s.logged[i]) == e;
  }

  /**
   For every interleaving of commits, appends and heartbeats, and for a crash that
   keeps any prefix of the log: a recovered agent is live, and never ahead of the registry.
   */
  lemma RecoveredNeverAhead(codec: Codec, steps: seq<Step>, n: nat, id: string)
    requires Lawful(codec) && AllStorable(codec, steps)
    requires var s := RunSteps(codec, INITIAL, steps); n <= |s.wal| && id in Newest(CrashEntries(codec, s, n))
    ensures var s := RunSteps(codec, INITIAL, steps);
      Has(s.live, id) && Newest(CrashEntries(codec, s, n))[id].timestamp <= Lookup(s.live, id).revision
  {
    var s := RunSteps(codec, INITIAL, steps);
    RunKeepsInv(codec, INITIAL, steps);
    var k := CrashIsPrefix(codec, s, n);
    NewestBounds(CrashEntries(codec, s, n));
    var e := Newest(CrashEntries(codec, s, n))[id];
    LoggedMember(s, k, e);
    var r :| r in s.logged && EntryOf(r) == e;
    assert Behind(s.live, r);
  }

  /** Agent and revision fix what the log stores: true in particular when accepted revisions are distinct. */
  ghost predicate RevisionFixesEntry(accepted: set<AgentRecord>) {
    forall a, b :: a in accepted && b in accepted && a.agentId == b.agentId && a.revision == b.revision ==>
      EntryOf(a) == EntryOf(b)
  }

  lemma RecoveredIsLive(codec: Codec, s: System, id: string)
    requires Inv(codec, s) && id in Newest(Fresh(EntriesOf(s.logged), 0))
    ensures var e := Newest(Fresh(EntriesOf(s.logged), 0))[id];
      && e.agentId == id && e.timestamp > 0 && Has(s.live, id) && e.timestamp <= Lookup(s.live, id).revision
      && exists r :: r in s.accepted && EntryOf(r) == e
  {
    var es := EntriesOf(s.logged);
    NewestBounds(Fresh(es, 0));
    assert es[..|s.logged|] == es;
    LoggedMember(s, |s.logged|, Newest(Fresh(es, 0))[id]);
    var r :| r in s.logged && EntryOf(r) == Newest(Fresh(es, 0))[id];
    assert r in s.accepted;
  }

  lemma LiveIsRecovered(s: System, id: string)
    requires OnItsWay(s) && s.pending == [] && Has(s.live, id) && Lookup(s.live, id).revision > 0
    ensures Lookup(s.live, id) in s.logged
    ensures var m := Newest(Fresh(EntriesOf(s.logged), 0)); id in m && m[id].timestamp >= Lookup(s.live, id).revision
  {
    var es, w := EntriesOf(s.logged), Lookup(s.live, id);
    assert w in s.logged;
    var i :| 0 <= i < |s.logged| && s.logged[i] == w;
    assert es[i] == EntryOf(w) && es[i] in es;
    FreshMembers(es, 0);
    NewestBounds(Fresh(es, 0));
    assert es[i] in Fresh(es, 0);
  }

  lemma StateAgrees(codec: Codec, s: System, id: string, m: map<string, Entry>)
    requires Inv(codec, s) && OnItsWay(s) && s.pending == [] && m == Newest(Fresh(EntriesOf(s.logged), 0))
    ensures id in m <==> Has(s.live, id) && Lookup(s.live, id).revision > 0
    ensures id in m ==> m[id].timestamp == Lookup(s.live, id).revision
    ensures id in m && RevisionFixesEntry(s.accepted) ==> m[id] == EntryOf(Lookup(s.live, id))
  {
    if id in m {
      RecoveredIsLive(codec, s, id);
    }
    if Has(s.live, id) && Lookup(s.live, id).revision > 0 {
      LiveIsRecovered(s, id);
      if RevisionFixesEntry(s.accepted) {
        FixedEntry(s, m[id], Lookup(s.live, id));
      }
    }
  }

  /**
   Once no append is pending and no heartbeat ran, the log and the registry agree:
   an agent is recovered exactly when its revision is not 0, and then at that
   revision; its persisted fields agree too if revisions fix the entries.
   */
  lemma QuiescentLogAgrees(codec: Codec, steps: seq<Step>, id: string)
    requires Lawful(codec) && AllStorable(codec, steps) && NoBeats(steps)
    requires RunSteps(codec, INITIAL, steps).pending == []
    ensures var s := RunSteps(codec, INITIAL, steps);
      var m := Newest(CrashEntries(codec, s, |s.wal|));
      && (id in m <==> Has(s.live, id) && Lookup(s.live, id).revision > 0)
      && (id in m ==> m[id].timestamp == Lookup(s.live, id).revision)
      && (id in m && RevisionFixesEntry(s.accepted) ==> m[id] == EntryOf(Lookup(s.live, id)))
  {
    var s := RunSteps(codec, INITIAL, steps);
    RunKeepsInv(codec, INITIAL, steps);
    var k := CrashIsPrefix(codec, s, |s.wal|);
    StateAgrees(codec, s, id, Newest(CrashEntries(codec, s, |s.wal|)));
  }

  lemma FixedEntry(s: System, e: Entry, w: AgentRecord)
    requires RevisionFixesEntry(s.accepted) && w in s.accepted
    requires exists r :: r in s.accepted && EntryOf(r) == e
    requires e.agentId == w.agentId && e.timestamp == w.revision
    ensures e == EntryOf(w)
  {
    var r :| r in s.accepted && EntryOf(r) == e;
  }

  lemma TieState(codec: Codec, a: AgentRecord, b: AgentRecord) returns (s: System)
    requires a.agentId == b.agentId && a.revision == b.revision && !KeyConflict(a, b)
    ensures s == RunSteps(codec, INITIAL, [Commit(a), Append(0), Commit(b), Append(0)])
    ensures s.pending == [] && s.logged == [a, b] && s.live == [b]
  {
    var s1 := Next(codec, INITIAL, Commit(a));
    var s2 := Next(codec, s1, Append(0));
    var s3 := Next(codec, s2, Commit(b));
    s := Next(codec, s3, Append(0));
    assert s1.live == [a] && s1.pending == [a] && s2.pending == [] && s2.logged == [a];
    assert s3.live == [b] && s3.pending == [b];
    var steps := [Commit(a), Append(0), Commit(b), Append(0)];
    assert steps[1..] == [Append(0), Commit(b), Append(0)];
    assert [Append(0), Commit(b), Append(0)][1..] == [Commit(b), Append(0)];
    assert [Commit(b), Append(0)][1..] == [Append(0)];
    RunOne(codec, s3, Append(0));
    assert RunSteps(codec, s2, [Commit(b), Append(0)]) == s;
  }

  lemma RunOne(codec: Codec, s: System, step: Step)
    ensures RunSteps(codec, s, [step]) == Next(codec, s, step)
  {
    assert [step][1..] == [];
  }

  lemma NewestOfTie(x: Entry, y: Entry)
    requires x.agentId == y.agentId && x.timestamp == y.timestamp > 0
    ensures Newest(Fresh([x, y], 0)) == map[x.agentId := x]
  {
    assert [x, y][1..] == [y] && [y][1..] == [];
    assert Fresh([y], 0) == [y];
    assert Fresh([x, y], 0) == [x] + [y];
    assert [] + [x] == [x];
    NewestSnoc([], x);
    NewestSnoc([x], y);
  }

  /** Equal revisions are the boundary: the registry keeps the later record, the log gives back the earlier. */
  lemma TieRecoversTheEarlier(codec: Codec, a: AgentRecord, b: AgentRecord)
    requires Lawful(codec) && Storable(codec, EntryOf(a)) && Storable(codec, EntryOf(b))
    requires a.agentId == b.agentId && a.revision == b.revision > 0 && !KeyConflict(a, b)
    ensures var s := RunSteps(codec, INITIAL, [Commit(a), Append(0), Commit(b), Append(0)]);
      && s.pending == [] && s.live == [b]
      && Newest(CrashEntries(codec, s, |s.wal|)) == map[a.agentId := EntryOf(a)]
  {
    var s := TieState(codec, a, b);
    RunKeepsInv(codec, INITIAL, [Commit(a), Append(0), Commit(b), Append(0)]);
    var k := CrashIsPrefix(codec, s, |s.wal|);
    assert EntriesOf(s.logged) == [EntryOf(a), EntryOf(b)];
    NewestOfTie(EntryOf(a), EntryOf(b));
  }
}
