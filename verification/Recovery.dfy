/** What recovery gives back: torn and damaged logs, arbitrary bytes, snapshot rotation. */
module Recovery {
  import opened Bytes
  import opened Crc32
  import opened Persistence

  /** The codec takes the entry and its payload is within the size limit. */
  predicate Storable(codec: Codec, e: Entry) {
    codec.serialize(e).Some? && |codec.serialize(e).value| <= MAX_ENTRY_SIZE
  }

  /** The entries above a timestamp, in order. */
  function Fresh(es: seq<Entry>, after: u64): seq<Entry> {
    if es == [] then []
    else if es[0].timestamp > after then [es[0]] + Fresh(es[1..], after)
    else Fresh(es[1..], after)
  }

  lemma {:induction false} FreshConcat(x: seq<Entry>, y: seq<Entry>, after: u64)
    ensures Fresh(x + y, after) == Fresh(x, after) + Fresh(y, after)
  {
    if x == [] {
      assert x + y == y;
    } else {
      assert (x + y)[1..] == x[1..] + y;
      FreshConcat(x[1..], y, after);
    }
  }

  lemma {:induction false} FreshNone(es: seq<Entry>, after: u64)
    requires forall e :: e in es ==> e.timestamp <= after
    ensures Fresh(es, after) == []
  {
    if es != [] {
      assert es[0] in es;
      FreshNone(es[1..], after);
    }
  }

  lemma {:induction false} FreshMembers(es: seq<Entry>, after: u64)
    ensures forall e :: e in Fresh(es, after) <==> e in es && e.timestamp > after
  {
    if es != [] {
      FreshMembers(es[1..], after);
      assert es == [es[0]] + es[1..];
    }
  }

  // ---------- One record at the front ----------

  /** A framed payload with a given checksum field, in front of anything. */
  function Laid(payload: seq<byte>, checksum: u32): seq<byte>
    requires |payload| <= MAX_ENTRY_SIZE
  {
    Le32(|payload|) + Le32(checksum) + payload
  }

  lemma LaidIsWhole(payload: seq<byte>, checksum: u32, rest: seq<byte>)
    requires |payload| <= MAX_ENTRY_SIZE
    ensures var all := Laid(payload, checksum) + rest;
      && WholeRecord(all) && !OversizeRecord(all)
      && PayloadOf(all) == payload && AfterRecord(all) == rest && FromLe(all[4..8]) == checksum
  {
    var all := Laid(payload, checksum) + rest;
    assert all[..4] == Le32(|payload|) && all[4..8] == Le32(checksum);
    Le32RoundTrip(|payload|);
    Le32RoundTrip(checksum);
    assert all[8..8 + |payload|] == payload && all[8 + |payload|..] == rest;
  }

  lemma RecordIsLaid(codec: Codec, e: Entry)
    requires Storable(codec, e)
    ensures var payload := codec.serialize(e).value; RecordBytes(codec, e) == Laid(payload, codec.checksum(payload))
  {
    var payload := codec.serialize(e).value;
    assert payload[..|payload|] == payload;
  }

  lemma RecordIsWhole(codec: Codec, e: Entry, rest: seq<byte>)
    requires Lawful(codec) && Storable(codec, e)
    ensures var all := RecordBytes(codec, e) + rest;
      WholeRecord(all) && !OversizeRecord(all) && EntryAt(codec, all) == Some(e) && AfterRecord(all) == rest
  {
    var payload := codec.serialize(e).value;
    RecordIsLaid(codec, e);
    LaidIsWhole(payload, codec.checksum(payload), rest);
  }

  lemma ReplayRecord(codec: Codec, e: Entry, rest: seq<byte>, after: u64)
    requires Lawful(codec) && Storable(codec, e)
    ensures Replay(codec, RecordBytes(codec, e) + rest, after) == Fresh([e], after) + Replay(codec, rest, after)
  {
    RecordIsWhole(codec, e, rest);
  }

  /** Part of a record is nothing to the replay. */
  lemma ReplayTorn(codec: Codec, e: Entry, n: nat, after: u64)
    requires Storable(codec, e) && n < |RecordBytes(codec, e)|
    ensures Replay(codec, RecordBytes(codec, e)[..n], after) == []
  {
    var payload, part := codec.serialize(e).value, RecordBytes(codec, e)[..n];
    RecordIsLaid(codec, e);
    if n >= 8 {
      assert part[..4] == Le32(|payload|);
      Le32RoundTrip(|payload|);
    }
  }

  // ---------- Whole logs ----------

  lemma LogBytesFirst(codec: Codec, es: seq<Entry>, rest: seq<byte>)
    requires es != []
    ensures LogBytes(codec, es) + rest == RecordBytes(codec, es[0]) + (LogBytes(codec, es[1..]) + rest)
  {
  }

  lemma FreshFirst(es: seq<Entry>, after: u64)
    requires es != []
    ensures Fresh(es, after) == Fresh([es[0]], after) + Fresh(es[1..], after)
  {
    var one := [es[0]];
    assert one[0] == es[0] && one[1..] == [];
    assert Fresh(one[1..], after) == [];
    assert Fresh(one, after) == if es[0].timestamp > after then [es[0]] else [];
  }

  lemma {:induction false} ReplayLog(codec: Codec, es: seq<Entry>, rest: seq<byte>, after: u64)
    requires Lawful(codec) && forall e :: e in es ==> Storable(codec, e)
    ensures Replay(codec, LogBytes(codec, es) + rest, after) == Fresh(es, after) + Replay(codec, rest, after)
  {
    if es == [] {
      assert LogBytes(codec, es) + rest == rest;
    } else {
      LogBytesFirst(codec, es, rest);
      ReplayRecord(codec, es[0], LogBytes(codec, es[1..]) + rest, after);
      ReplayLog(codec, es[1..], rest, after);
      FreshFirst(es, after);
    }
  }

  lemma {:induction false} LogBytesConcat(codec: Codec, x: seq<Entry>, y: seq<Entry>)
    ensures LogBytes(codec, x + y) == LogBytes(codec, x) + LogBytes(codec, y)
  {
    if x == [] {
      assert x + y == y;
    } else {
      assert (x + y)[1..] == x[1..] + y;
      LogBytesConcat(codec, x[1..], y);
    }
  }

  /** `k` entries of the log lie wholly within its first `n` bytes. */
  predicate WhollyWithin(codec: Codec, es: seq<Entry>, n: nat, k: nat) {
    && k <= |es|
    && |LogBytes(codec, es[..k])| <= n
    && (k < |es| ==> n < |LogBytes(codec, es[..k + 1])|)
  }

  lemma {:induction false} CountWhole(codec: Codec, es: seq<Entry>, n: nat) returns (k: nat)
    requires n <= |LogBytes(codec, es)|
    ensures WhollyWithin(codec, es, n, k)
  {
    k := |es|;
    assert es[..k] == es;
    while k > 0 && n < |LogBytes(codec, es[..k])|
      invariant k <= |es|
      invariant k < |es| ==> n < |LogBytes(codec, es[..k + 1])|
    {
      k := k - 1;
    }
    assert es[..0] == [];
  }

  lemma LogSplit(codec: Codec, es: seq<Entry>, k: nat)
    requires k < |es|
    ensures LogBytes(codec, es) == LogBytes(codec, es[..k]) + (RecordBytes(codec, es[k]) + LogBytes(codec, es[k + 1..]))
    ensures LogBytes(codec, es[..k + 1]) == LogBytes(codec, es[..k]) + RecordBytes(codec, es[k])
  {
    assert es == es[..k] + es[k..] && es[..k + 1] == es[..k] + [es[k]];
    LogBytesConcat(codec, es[..k], es[k..]);
    LogBytesConcat(codec, es[..k], [es[k]]);
    LogBytesOne(codec, es[k]);
    assert es[k..][1..] == es[k + 1..];
  }

  lemma PrefixOfThree(a: seq<byte>, b: seq<byte>, c: seq<byte>, n: nat)
    requires |a| <= n <= |a| + |b|
    ensures (a + (b + c))[..n] == a + b[..n - |a|]
  {
  }

  /** Torn write: whatever prefix of the log survives, exactly its whole records come back, in append order. */
  lemma TornWrite(codec: Codec, es: seq<Entry>, n: nat, k: nat, after: u64)
    requires Lawful(codec) && forall e :: e in es ==> Storable(codec, e)
    requires n <= |LogBytes(codec, es)| && WhollyWithin(codec, es, n, k)
    ensures Replay(codec, LogBytes(codec, es)[..n], after) == Fresh(es[..k], after)
  {
    if k == |es| {
      assert es[..k] == es && LogBytes(codec, es)[..n] == LogBytes(codec, es) + [];
      ReplayLog(codec, es, [], after);
    } else {
      var whole, torn := LogBytes(codec, es[..k]), RecordBytes(codec, es[k]);
      assert es[k] in es;
      LogSplit(codec, es, k);
      PrefixOfThree(whole, torn, LogBytes(codec, es[k + 1..]), n);
      ReplayTorn(codec, es[k], n - |whole|, after);
      ReplayLog(codec, es[..k], torn[..n - |whole|], after);
    }
  }

  lemma LogBytesOne(codec: Codec, e: Entry)
    ensures LogBytes(codec, [e]) == RecordBytes(codec, e)
  {
    assert [e][1..] == [];
  }

  /** A record whose payload no longer matches its checksum is skipped. */
  lemma SkipMismatch(codec: Codec, payload: seq<byte>, checksum: u32, rest: seq<byte>, after: u64)
    requires |payload| <= MAX_ENTRY_SIZE && codec.checksum(payload) != checksum
    ensures Replay(codec, Laid(payload, checksum) + rest, after) == Replay(codec, rest, after)
  {
    LaidIsWhole(payload, checksum, rest);
  }

  lemma ReplayAround(codec: Codec, xs: seq<Entry>, middle: seq<byte>, ys: seq<Entry>, after: u64)
    requires Lawful(codec) && forall x :: x in xs || x in ys ==> Storable(codec, x)
    requires Replay(codec, middle + LogBytes(codec, ys), after) == Replay(codec, LogBytes(codec, ys), after)
    ensures Replay(codec, LogBytes(codec, xs) + middle + LogBytes(codec, ys), after) == Fresh(xs + ys, after)
  {
    var front, tail := LogBytes(codec, xs), LogBytes(codec, ys);
    RegroupBytes(front, middle, tail);
    ReplayLog(codec, xs, middle + tail, after);
    ReplayWholeLog(codec, ys, after);
    FreshConcat(xs, ys, after);
  }

  lemma RegroupBytes(x: seq<byte>, y: seq<byte>, z: seq<byte>)
    ensures x + y + z == x + (y + z)
  {
  }

  lemma ReplayWholeLog(codec: Codec, es: seq<Entry>, after: u64)
    requires Lawful(codec) && forall e :: e in es ==> Storable(codec, e)
    ensures Replay(codec, LogBytes(codec, es), after) == Fresh(es, after)
  {
    var log := LogBytes(codec, es);
    ReplayLog(codec, es, [], after);
    ReplayNothing(codec, after);
    assert log + [] == log;
  }

  lemma ReplayNothing(codec: Codec, after: u64)
    ensures Replay(codec, [], after) == []
  {
  }

  /** Damage of at most 32 neighbouring bits in one payload loses that entry and no other. */
  lemma DamagedPayload(
    codec: Codec, xs: seq<Entry>, e: Entry, ys: seq<Entry>, damaged: seq<byte>, k: nat, after: u64)
    requires Lawful(codec) && UsesCrc32(codec)
    requires Storable(codec, e) && forall x :: x in xs || x in ys ==> Storable(codec, x)
    requires damaged != codec.serialize(e).value && BurstApart(codec.serialize(e).value, damaged, k)
    ensures var payload := codec.serialize(e).value;
      Replay(codec, LogBytes(codec, xs) + Laid(damaged, codec.checksum(payload)) + LogBytes(codec, ys), after)
      == Fresh(xs + ys, after)
  {
    var payload := codec.serialize(e).value;
    DetectsBurst(payload, damaged, k);
    assert codec.checksum(damaged) == Crc(damaged) && codec.checksum(payload) == Crc(payload);
    SkipMismatch(codec, damaged, codec.checksum(payload), LogBytes(codec, ys), after);
    ReplayAround(codec, xs, Laid(damaged, codec.checksum(payload)), ys, after);
  }

  // ---------- Arbitrary bytes ----------

  /** A stretch of a file that holds a record: eight header bytes and a payload whose checksum agrees. */
  datatype Slot = Slot(start: nat, end: nat)

  ghost predicate SlotHolds(codec: Codec, bytes: seq<byte>, slot: Slot, e: Entry) {
    && 8 <= slot.start <= slot.end <= |bytes|
    && slot.end - slot.start <= MAX_ENTRY_SIZE
    && FromLe(bytes[slot.start - 8..slot.start - 4]) == slot.end - slot.start
    && FromLe(bytes[slot.start - 4..slot.start]) == codec.checksum(bytes[slot.start..slot.end])
    && codec.parse(bytes[slot.start..slot.end]) == Some(e)
  }

  /** The entries come from slots that follow each other without overlap, headers included, from `low` on. */
  ghost predicate FromSlots(codec: Codec, bytes: seq<byte>, low: nat, slots: seq<Slot>, es: seq<Entry>) {
    && |slots| == |es|
    && (forall i :: 0 <= i < |es| ==> SlotHolds(codec, bytes, slots[i], es[i]) && low + 8 <= slots[i].start)
    && (forall i :: 0 < i < |es| ==> slots[i - 1].end + 8 <= slots[i].start)
  }

  lemma SlotShift(codec: Codec, bytes: seq<byte>, pos: nat, e: Entry)
    requires pos <= |bytes| && WholeRecord(bytes[pos..]) && EntryAt(codec, bytes[pos..]) == Some(e)
    ensures SlotHolds(codec, bytes, Slot(pos + 8, pos + 8 + |PayloadOf(bytes[pos..])|), e)
  {
    var rest := bytes[pos..];
    var n := |PayloadOf(rest)|;
    assert bytes[pos..pos + 4] == rest[..4] && bytes[pos + 4..pos + 8] == rest[4..8];
    assert bytes[pos + 8..pos + 8 + n] == PayloadOf(rest);
  }

  lemma ConsSlot(codec: Codec, bytes: seq<byte>, low: nat, slot: Slot, e: Entry, slots: seq<Slot>, es: seq<Entry>)
    requires FromSlots(codec, bytes, slot.end, slots, es)
    requires SlotHolds(codec, bytes, slot, e) && low + 8 <= slot.start
    ensures FromSlots(codec, bytes, low, [slot] + slots, [e] + es)
  {
    var s, t := [slot] + slots, [e] + es;
    forall i | 0 <= i < |t| ensures SlotHolds(codec, bytes, s[i], t[i]) && low + 8 <= s[i].start {
      if i > 0 {
        assert s[i] == slots[i - 1] && t[i] == es[i - 1];
      }
    }
    forall i | 0 < i < |t| ensures s[i - 1].end + 8 <= s[i].start {
      assert s[i] == slots[i - 1];
      if i > 1 {
        assert s[i - 1] == slots[i - 2];
      }
    }
  }

  lemma LowerSlots(codec: Codec, bytes: seq<byte>, low: nat, high: nat, slots: seq<Slot>, es: seq<Entry>)
    requires FromSlots(codec, bytes, high, slots, es) && low <= high
    ensures FromSlots(codec, bytes, low, slots, es)
  {
  }

  /** On any bytes, every replayed entry is the parse of a checksum-matching slice; the slices are disjoint and in order. */
  lemma {:induction false} ReplayFromSlots(codec: Codec, bytes: seq<byte>, pos: nat, after: u64) returns (slots: seq<Slot>)
    requires pos <= |bytes|
    ensures FromSlots(codec, bytes, pos, slots, Replay(codec, bytes[pos..], after))
    decreases |bytes| - pos
  {
    var rest := bytes[pos..];
    if OversizeRecord(rest) {
      assert bytes[pos + 8..] == rest[8..];
      slots := ReplayFromSlots(codec, bytes, pos + 8, after);
      LowerSlots(codec, bytes, pos, pos + 8, slots, Replay(codec, rest, after));
    } else if !WholeRecord(rest) {
      slots := [];
    } else {
      var next := pos + 8 + |PayloadOf(rest)|;
      assert bytes[next..] == AfterRecord(rest);
      var more := Replay(codec, bytes[next..], after);
      slots := ReplayFromSlots(codec, bytes, next, after);
      var read := EntryAt(codec, rest);
      if read.Some? && read.value.timestamp > after {
        SlotShift(codec, bytes, pos, read.value);
        ConsSlot(codec, bytes, pos, Slot(pos + 8, next), read.value, slots, more);
        slots := [Slot(pos + 8, next)] + slots;
      } else {
        LowerSlots(codec, bytes, pos, next, slots, more);
      }
    }
  }

  /** The same of a snapshot that is not refused. */
  lemma {:induction false} RecordsFromSlots(codec: Codec, bytes: seq<byte>, pos: nat, count: nat) returns (slots: seq<Slot>)
    requires pos <= |bytes| && ReadRecords(codec, bytes[pos..], count).Recovered?
    ensures FromSlots(codec, bytes, pos, slots, ReadRecords(codec, bytes[pos..], count).entries)
    decreases count
  {
    var rest := bytes[pos..];
    if count == 0 || !WholeRecord(rest) {
      slots := [];
    } else {
      var next := pos + 8 + |PayloadOf(rest)|;
      assert bytes[next..] == AfterRecord(rest);
      slots := RecordsFromSlots(codec, bytes, next, count - 1);
      var more := ReadRecords(codec, bytes[next..], count - 1).entries;
      var read := EntryAt(codec, rest);
      if read.Some? {
        SlotShift(codec, bytes, pos, read.value);
        ConsSlot(codec, bytes, pos, Slot(pos + 8, next), read.value, slots, more);
        slots := [Slot(pos + 8, next)] + slots;
      } else {
        LowerSlots(codec, bytes, pos, next, slots, more);
      }
    }
  }

  /** Recovery of arbitrary files invents nothing: first the snapshot's slices, then the log's. */
  lemma RecoverInventsNothing(codec: Codec, disk: Disk) returns (inSnapshot: seq<Slot>, inWal: seq<Slot>)
    requires Recover(codec, disk).Recovered?
    ensures var base := SnapshotPart(codec, disk).entries;
      var replayed := Replay(codec, disk.wal, MaxTimestamp(base));
      && Recover(codec, disk).entries == base + replayed
      && (disk.snapshot.Some? ==> FromSlots(codec, disk.snapshot.value, 4, inSnapshot, base))
      && (disk.snapshot.None? ==> base == [])
      && FromSlots(codec, disk.wal, 0, inWal, replayed)
  {
    var base := SnapshotPart(codec, disk).entries;
    assert disk.wal[0..] == disk.wal;
    inWal := ReplayFromSlots(codec, disk.wal, 0, MaxTimestamp(base));
    inSnapshot := [];
    if disk.snapshot.Some? && |disk.snapshot.value| >= 4 {
      inSnapshot := RecordsFromSlots(codec, disk.snapshot.value, 4, FromLe(disk.snapshot.value[..4]));
    }
  }

  // ---------- Rotation ----------

  /** The newest entry of each agent, the first of equals: what loading keeps. */
  function Newest(es: seq<Entry>): map<string, Entry> {
    if es == [] then map[]
    else Newer(Newest(es[..|es| - 1]), es[|es| - 1])
  }

  function Newer(m: map<string, Entry>, e: Entry): map<string, Entry> {
    if e.agentId !in m || e.timestamp > m[e.agentId].timestamp then m[e.agentId := e] else m
  }

  lemma NewestSnoc(es: seq<Entry>, e: Entry)
    ensures Newest(es + [e]) == Newer(Newest(es), e)
  {
    assert (es + [e])[..|es|] == es;
  }

  lemma {:induction false} NewestBounds(es: seq<Entry>)
    ensures forall e :: e in es ==> e.agentId in Newest(es) && e.timestamp <= Newest(es)[e.agentId].timestamp
    ensures forall id :: id in Newest(es) ==> Newest(es)[id] in es && Newest(es)[id].agentId == id
  {
    if es != [] {
      NewestBounds(es[..|es| - 1]);
      assert es == es[..|es| - 1] + [es[|es| - 1]];
    }
  }

  lemma SameNewestSameMaximum(x: seq<Entry>, y: seq<Entry>)
    requires Newest(x) == Newest(y)
    ensures MaxTimestamp(x) <= MaxTimestamp(y)
  {
    NewestBounds(x);
    NewestBounds(y);
    if MaxTimestamp(x) != 0 {
      var e :| e in x && e.timestamp == MaxTimestamp(x);
      assert Newest(y)[e.agentId] in y;
    }
  }

  lemma {:induction false} ReadLog(codec: Codec, es: seq<Entry>)
    requires Lawful(codec) && forall e :: e in es ==> Storable(codec, e)
    ensures ReadRecords(codec, LogBytes(codec, es), |es|) == Recovered(es)
  {
    if es != [] {
      RecordIsWhole(codec, es[0], LogBytes(codec, es[1..]));
      ReadLog(codec, es[1..]);
      assert es == [es[0]] + es[1..];
    }
  }

  /** A snapshot within the limits reads back as written. */
  lemma SnapshotRoundTrip(codec: Codec, es: seq<Entry>)
    requires Lawful(codec) && |es| <= MAX_SNAPSHOT_RECORDS
    requires forall e :: e in es ==> Storable(codec, e)
    ensures ReadSnapshot(codec, SnapshotBytes(codec, es)) == Recovered(es)
  {
    var bytes := SnapshotBytes(codec, es);
    assert bytes[..4] == Le32(|es|) && bytes[4..] == LogBytes(codec, es);
    Le32RoundTrip(|es|);
    ReadLog(codec, es);
  }

  /** Everything the log can yield is among what it yields above a lower mark, or below that mark. */
  lemma {:induction false} ReplayAbove(codec: Codec, rest: seq<byte>, low: u64, high: u64)
    requires low <= high
    ensures Replay(codec, rest, high) == Fresh(Replay(codec, rest, low), high)
    decreases |rest|
  {
    if OversizeRecord(rest) {
      ReplayAbove(codec, rest[8..], low, high);
    } else if WholeRecord(rest) {
      ReplayAbove(codec, AfterRecord(rest), low, high);
      var more := Replay(codec, AfterRecord(rest), low);
      if EntryAt(codec, rest).Some? && EntryAt(codec, rest).value.timestamp > low {
        assert ([EntryAt(codec, rest).value] + more)[1..] == more;
      }
    }
  }

  lemma MaximumCovers(x: seq<Entry>, y: seq<Entry>)
    ensures MaxTimestamp(x) <= MaxTimestamp(x + y) && forall e :: e in y ==> e.timestamp <= MaxTimestamp(x + y)
  {
    if MaxTimestamp(x) != 0 {
      var e :| e in x && e.timestamp == MaxTimestamp(x);
      assert e in x + y;
    }
    assert forall e :: e in y ==> e in x + y;
  }

  /** Once the new snapshot is in place the old log has nothing newer to say. */
  lemma OldLogIsStale(codec: Codec, disk: Disk, es: seq<Entry>)
    requires Recover(codec, disk).Recovered? && Newest(es) == Newest(Recover(codec, disk).entries)
    ensures Replay(codec, disk.wal, MaxTimestamp(es)) == []
  {
    var base := SnapshotPart(codec, disk).entries;
    var low, high := MaxTimestamp(base), MaxTimestamp(es);
    var replayed := Replay(codec, disk.wal, low);
    MaximumCovers(base, replayed);
    SameNewestSameMaximum(base + replayed, es);
    ReplayAbove(codec, disk.wal, low, high);
    FreshNone(replayed, high);
  }

  /**
   Snapshot rotation is crash-safe.  Whatever is on disk and not refused, if the new
   snapshot holds the newest entry of each recoverable agent, a crash before the
   rename, between rename and truncation, or after truncation recovers the same map.
   */
  lemma RotationIsCrashSafe(codec: Codec, disk: Disk, es: seq<Entry>)
    requires Lawful(codec) && Recover(codec, disk).Recovered?
    requires Newest(es) == Newest(Recover(codec, disk).entries)
    requires |es| <= MAX_SNAPSHOT_RECORDS && forall e :: e in es ==> Storable(codec, e)
    ensures var renamed := disk.(snapshot := Some(SnapshotBytes(codec, es)));
      var truncated := renamed.(wal := []);
      && Recover(codec, renamed) == Recovered(es)
      && Recover(codec, truncated) == Recovered(es)
      && Newest(Recover(codec, disk).entries) == Newest(Recover(codec, renamed).entries)
      && Newest(Recover(codec, disk).entries) == Newest(Recover(codec, truncated).entries)
  {
    SnapshotRoundTrip(codec, es);
    OldLogIsStale(codec, disk, es);
    RecoverSnapshotOnly(codec, es, disk.wal);
    RecoverSnapshotOnly(codec, es, []);
  }

  lemma RecoverSnapshotOnly(codec: Codec, es: seq<Entry>, wal: seq<byte>)
    requires ReadSnapshot(codec, SnapshotBytes(codec, es)) == Recovered(es)
    requires Replay(codec, wal, MaxTimestamp(es)) == []
    ensures Recover(codec, Disk(Some(SnapshotBytes(codec, es)), wal)) == Recovered(es)
  {
    assert es + [] == es;
  }

  /**
   The rename matters: if it fails and the log is truncated all the same, the
   recovered map survives exactly when the log had nothing to replay.
   */
  lemma FailedRenameLosesLog(codec: Codec, disk: Disk)
    requires Recover(codec, disk).Recovered?
    ensures var after := Recover(codec, disk.(wal := []));
      && after == SnapshotPart(codec, disk)
      && (Newest(after.entries) == Newest(Recover(codec, disk).entries) <==>
          Replay(codec, disk.wal, MaxTimestamp(after.entries)) == [])
  {
    var base := SnapshotPart(codec, disk).entries;
    var replayed := Replay(codec, disk.wal, MaxTimestamp(base));
    assert base + [] == base;
    if replayed != [] {
      var e := replayed[0];
      assert e in base + replayed;
      NewestBounds(base + replayed);
      ReplayAbove(codec, disk.wal, MaxTimestamp(base), MaxTimestamp(base));
      FreshMembers(replayed, MaxTimestamp(base));
      assert e.timestamp > MaxTimestamp(base);
      if Newest(base) == Newest(base + replayed) {
        SameNewestSameMaximum(base + replayed, base);
      }
    }
  }
}
