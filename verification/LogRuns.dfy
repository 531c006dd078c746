/** The log over whole runs of appends and snapshot rotations. */
module LogRuns {
  import opened Bytes
  import opened Persistence
  import opened Recovery

  datatype LogOp = AppendOp(e: Entry) | RotateOp(es: seq<Entry>)

  function ApplyOp(codec: Codec, disk: Disk, op: LogOp): Disk {
    match op
    case AppendOp(e) => disk.(wal := disk.wal + RecordBytes(codec, e))
    case RotateOp(es) => Disk(Some(SnapshotBytes(codec, es)), [])
  }

  /** The disk seen as the snapshot's entries and everything appended since. */
  datatype Log = Log(base: seq<Entry>, tail: seq<Entry>)

  ghost predicate Represents(codec: Codec, disk: Disk, log: Log) {
    && disk.wal == LogBytes(codec, log.tail)
    && (forall e :: e in log.tail ==> Storable(codec, e))
    && SnapshotPart(codec, disk) == Recovered(log.base)
  }

  /** What recovery gives: the snapshot, then what was appended above its highest timestamp. */
  function Kept(log: Log): seq<Entry> {
    log.base + Fresh(log.tail, MaxTimestamp(log.base))
  }

  lemma RecoversKept(codec: Codec, disk: Disk, log: Log)
    requires Lawful(codec) && Represents(codec, disk, log)
    ensures Recover(codec, disk) == Recovered(Kept(log))
  {
    assert disk.wal == LogBytes(codec, log.tail) + [];
    ReplayLog(codec, log.tail, [], MaxTimestamp(log.base));
    assert Fresh(log.tail, MaxTimestamp(log.base)) + [] == Fresh(log.tail, MaxTimestamp(log.base));
  }

  /** The operation is within the limits, and a rotation writes the newest recoverable entries. */
  ghost predicate Allowed(codec: Codec, disk: Disk, op: LogOp) {
    match op
    case AppendOp(e) => Storable(codec, e)
    case RotateOp(es) =>
      && Recover(codec, disk).Recovered? && Newest(es) == Newest(Recover(codec, disk).entries)
      && |es| <= MAX_SNAPSHOT_RECORDS && forall e :: e in es ==> Storable(codec, e)
  }

  function StepLog(log: Log, op: LogOp): Log {
    match op
    case AppendOp(e) => log.(tail := log.tail + [e])
    case RotateOp(es) => Log(es, [])
  }

  lemma StepRepresents(codec: Codec, disk: Disk, log: Log, op: LogOp)
    requires Lawful(codec) && Represents(codec, disk, log) && Allowed(codec, disk, op)
    ensures Represents(codec, ApplyOp(codec, disk, op), StepLog(log, op))
  {
    match op
    case AppendOp(e) =>
      LogBytesConcat(codec, log.tail, [e]);
      LogBytesOne(codec, e);
    case RotateOp(es) =>
      SnapshotRoundTrip(codec, es);
  }

  /** An appended entry is recoverable exactly when its timestamp exceeds every timestamp of the snapshot. */
  lemma AppendIsDurable(codec: Codec, disk: Disk, log: Log, e: Entry)
    requires Lawful(codec) && Represents(codec, disk, log) && Storable(codec, e)
    ensures Recover(codec, disk).Recovered?
    ensures Recover(codec, ApplyOp(codec, disk, AppendOp(e))) ==
            Recovered(Recover(codec, disk).entries + if e.timestamp > MaxTimestamp(log.base) then [e] else [])
  {
    RecoversKept(codec, disk, log);
    StepRepresents(codec, disk, log, AppendOp(e));
    RecoversKept(codec, ApplyOp(codec, disk, AppendOp(e)), StepLog(log, AppendOp(e)));
    FreshConcat(log.tail, [e], MaxTimestamp(log.base));
    FreshOne(e, MaxTimestamp(log.base));
  }

  lemma FreshOne(e: Entry, after: u64)
    ensures Fresh([e], after) == if e.timestamp > after then [e] else []
  {
    assert [e][1..] == [];
  }

  // ---------- Runs ----------

  ghost predicate AllowedRun(codec: Codec, disk: Disk, ops: seq<LogOp>)
    decreases ops
  {
    ops != [] ==> Allowed(codec, disk, ops[0]) && AllowedRun(codec, ApplyOp(codec, disk, ops[0]), ops[1..])
  }

  function RunOps(codec: Codec, disk: Disk, ops: seq<LogOp>): Disk
    decreases ops
  {
    if ops == [] then disk else RunOps(codec, ApplyOp(codec, disk, ops[0]), ops[1..])
  }

  function RunLog(log: Log, ops: seq<LogOp>): Log
    decreases ops
  {
    if ops == [] then log else RunLog(StepLog(log, ops[0]), ops[1..])
  }

  /** The bytes on disk refine the abstract log over every run. */
  lemma {:induction false} RunRecovers(codec: Codec, disk: Disk, log: Log, ops: seq<LogOp>)
    requires Lawful(codec) && Represents(codec, disk, log) && AllowedRun(codec, disk, ops)
    ensures Represents(codec, RunOps(codec, disk, ops), RunLog(log, ops))
    ensures Recover(codec, RunOps(codec, disk, ops)) == Recovered(Kept(RunLog(log, ops)))
    decreases ops
  {
    if ops == [] {
      RecoversKept(codec, disk, log);
    } else {
      StepRepresents(codec, disk, log, ops[0]);
      RunRecovers(codec, ApplyOp(codec, disk, ops[0]), StepLog(log, ops[0]), ops[1..]);
    }
  }

  function Appended(ops: seq<LogOp>): seq<Entry> {
    if ops == [] then []
    else if ops[0].AppendOp? then [ops[0].e] + Appended(ops[1..])
    else Appended(ops[1..])
  }

  /** Every append of the run is above the snapshot of its time. */
  predicate AlwaysAbove(log: Log, ops: seq<LogOp>)
    decreases ops
  {
    ops != [] ==>
      && (ops[0].AppendOp? ==> ops[0].e.timestamp > MaxTimestamp(log.base))
      && AlwaysAbove(StepLog(log, ops[0]), ops[1..])
  }

  lemma KeptSnoc(log: Log, e: Entry)
    requires e.timestamp > MaxTimestamp(log.base)
    ensures Kept(StepLog(log, AppendOp(e))) == Kept(log) + [e]
  {
    FreshConcat(log.tail, [e], MaxTimestamp(log.base));
    FreshOne(e, MaxTimestamp(log.base));
  }

  lemma NewestCongruent(x: seq<Entry>, y: seq<Entry>, e: Entry)
    requires Newest(x) == Newest(y)
    ensures Newest(x + [e]) == Newest(y + [e])
  {
    NewestSnoc(x, e);
    NewestSnoc(y, e);
  }

  lemma AppendedFirst(earlier: seq<Entry>, ops: seq<LogOp>)
    requires ops != []
    ensures ops[0].AppendOp? ==> earlier + Appended(ops) == earlier + [ops[0].e] + Appended(ops[1..])
    ensures ops[0].RotateOp? ==> earlier + Appended(ops) == earlier + Appended(ops[1..])
  {
  }

  /** If every append was above the snapshot of its time, nothing is ever lost: the map of all appends is recovered. */
  lemma {:induction false} NothingLost(codec: Codec, disk: Disk, log: Log, ops: seq<LogOp>, earlier: seq<Entry>)
    requires Lawful(codec) && Represents(codec, disk, log) && AllowedRun(codec, disk, ops)
    requires AlwaysAbove(log, ops) && Newest(Kept(log)) == Newest(earlier)
    ensures Recover(codec, RunOps(codec, disk, ops)).Recovered?
    ensures Newest(Recover(codec, RunOps(codec, disk, ops)).entries) == Newest(earlier + Appended(ops))
    decreases ops
  {
    RecoversKept(codec, disk, log);
    if ops == [] {
      assert earlier + Appended(ops) == earlier;
    } else {
      var next, log' := ApplyOp(codec, disk, ops[0]), StepLog(log, ops[0]);
      StepRepresents(codec, disk, log, ops[0]);
      AppendedFirst(earlier, ops);
      match ops[0] {
        case AppendOp(e) =>
          KeptSnoc(log, e);
          NewestCongruent(Kept(log), earlier, e);
          NothingLost(codec, next, log', ops[1..], earlier + [e]);
        case RotateOp(es) =>
          assert Kept(log') == es;
          NothingLost(codec, next, log', ops[1..], earlier);
      }
    }
  }

  // ---------- The exact condition ----------

  /** The append is above the snapshot, or not newer than what is kept for its agent. */
  predicate Harmless(log: Log, e: Entry) {
    var kept := Newest(Kept(log));
    e.timestamp > MaxTimestamp(log.base) || (e.agentId in kept && e.timestamp <= kept[e.agentId].timestamp)
  }

  predicate AlwaysHarmless(log: Log, ops: seq<LogOp>)
    decreases ops
  {
    ops != [] ==> (ops[0].AppendOp? ==> Harmless(log, ops[0].e)) && AlwaysHarmless(StepLog(log, ops[0]), ops[1..])
  }

  /** At every moment of the run, a crash recovers the newest of everything appended so far. */
  ghost predicate AlwaysRecovers(codec: Codec, disk: Disk, ops: seq<LogOp>, earlier: seq<Entry>)
    decreases ops
  {
    && Recover(codec, disk).Recovered? && Newest(Recover(codec, disk).entries) == Newest(earlier)
    && (ops != [] ==>
          AlwaysRecovers(codec, ApplyOp(codec, disk, ops[0]), ops[1..],
                         if ops[0].AppendOp? then earlier + [ops[0].e] else earlier))
  }

  lemma NewerChanges(m: map<string, Entry>, e: Entry)
    ensures Newer(m, e) == m <==> e.agentId in m && (e.timestamp <= m[e.agentId].timestamp || m[e.agentId] == e)
  {
    if e.agentId !in m {
      assert e.agentId in Newer(m, e);
    }
  }

  lemma KeptAppend(log: Log, e: Entry)
    ensures Kept(StepLog(log, AppendOp(e))) == Kept(log) + if e.timestamp > MaxTimestamp(log.base) then [e] else []
  {
    FreshConcat(log.tail, [e], MaxTimestamp(log.base));
    FreshOne(e, MaxTimestamp(log.base));
    assert log.base + (Fresh(log.tail, MaxTimestamp(log.base)) + Fresh([e], MaxTimestamp(log.base)))
        == log.base + Fresh(log.tail, MaxTimestamp(log.base)) + Fresh([e], MaxTimestamp(log.base));
  }

  lemma AppendHarmlessIff(log: Log, earlier: seq<Entry>, e: Entry)
    requires Newest(Kept(log)) == Newest(earlier)
    ensures Newest(Kept(StepLog(log, AppendOp(e)))) == Newest(earlier + [e]) <==> Harmless(log, e)
  {
    KeptAppend(log, e);
    NewestSnoc(Kept(log), e);
    NewestSnoc(earlier, e);
    NewerChanges(Newest(earlier), e);
    assert Kept(log) + [] == Kept(log);
  }

  /**
   Nothing is ever lost, at any moment of the run, if and only if every append is above
   the snapshot of its time or not newer than what is kept for its agent.
   */
  lemma {:induction false} NothingLostIff(codec: Codec, disk: Disk, log: Log, ops: seq<LogOp>, earlier: seq<Entry>)
    requires Lawful(codec) && Represents(codec, disk, log) && AllowedRun(codec, disk, ops)
    requires Newest(Kept(log)) == Newest(earlier)
    ensures AlwaysRecovers(codec, disk, ops, earlier) <==> AlwaysHarmless(log, ops)
    decreases ops
  {
    RecoversKept(codec, disk, log);
    if ops != [] {
      var next, log' := ApplyOp(codec, disk, ops[0]), StepLog(log, ops[0]);
      StepRepresents(codec, disk, log, ops[0]);
      RecoversKept(codec, next, log');
      match ops[0] {
        case AppendOp(e) =>
          AppendHarmlessIff(log, earlier, e);
          if Harmless(log, e) {
            NothingLostIff(codec, next, log', ops[1..], earlier + [e]);
          }
        case RotateOp(es) =>
          assert Kept(log') == es;
          NothingLostIff(codec, next, log', ops[1..], earlier);
      }
    }
  }
}
