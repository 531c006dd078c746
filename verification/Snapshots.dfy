/** The limits of the files in plain numbers, their byte order, and snapshots that are torn, damaged or too long. */
module Snapshots {
  import opened Bytes
  import opened Crc32
  import opened Persistence
  import opened Recovery

  // ---------- Byte order ----------

  lemma LittleEndian(n: u32)
    ensures Le32(n) == [n % 256, n / 256 % 256, n / 65_536 % 256, n / 16_777_216]
  {
    assert n / 256 / 256 == n / 65_536 && n / 65_536 / 256 == n / 16_777_216;
  }

  /** A record on disk: size and checksum, low bytes first, and the payload. */
  lemma RecordLayout(codec: Codec, e: Entry)
    requires codec.serialize(e).Some? && |codec.serialize(e).value| < 4_294_967_296
    ensures var payload := codec.serialize(e).value;
      var n, c := |payload|, codec.checksum(payload);
      RecordBytes(codec, e) ==
        [n % 256, n / 256 % 256, n / 65_536 % 256, n / 16_777_216]
        + [c % 256, c / 256 % 256, c / 65_536 % 256, c / 16_777_216]
        + payload
  {
    var payload := codec.serialize(e).value;
    FramedWhole(codec, payload);
    LittleEndian(|payload|);
    LittleEndian(codec.checksum(payload));
  }

  lemma FramedWhole(codec: Codec, payload: seq<byte>)
    requires |payload| < 4_294_967_296
    ensures Framed(codec, payload) == Le32(|payload|) + Le32(codec.checksum(payload)) + payload
  {
    assert payload[..|payload|] == payload;
  }

  // ---------- Limits ----------

  /** The codec takes the entry, and its payload is at most ten mebibytes. */
  predicate TenMebibytes(codec: Codec, e: Entry) {
    codec.serialize(e).Some? && |codec.serialize(e).value| <= 10_485_760
  }

  /** Up to a million entries in the snapshot, and any number in the log, come back. */
  lemma RecoversWithinLimits(codec: Codec, es: seq<Entry>, ts: seq<Entry>)
    requires Lawful(codec) && |es| <= 1_000_000
    requires forall e :: e in es || e in ts ==> TenMebibytes(codec, e)
    ensures Recover(codec, Disk(Some(SnapshotBytes(codec, es)), LogBytes(codec, ts)))
            == Recovered(es + Fresh(ts, MaxTimestamp(es)))
  {
    SnapshotRoundTrip(codec, es);
    ReplayWholeLog(codec, ts, MaxTimestamp(es));
  }

  /** A snapshot that announces more records is refused. */
  lemma TooManyRefused(codec: Codec, rest: seq<byte>)
    ensures ReadSnapshot(codec, Le32(1_000_001) + rest).Refused?
  {
    var bytes := Le32(1_000_001) + rest;
    assert bytes[..4] == Le32(1_000_001);
    Le32RoundTrip(1_000_001);
  }

  /** So is one with a record that announces more bytes. */
  lemma TooLargeRefused(codec: Codec, count: u32, rest: seq<byte>)
    requires count > 0
    ensures ReadSnapshot(codec, Le32(count) + (Le32(10_485_761) + rest)).Refused?
  {
    var record := Le32(10_485_761) + rest;
    var bytes := Le32(count) + record;
    assert bytes[..4] == Le32(count) && bytes[4..] == record && record[..4] == Le32(10_485_761);
    Le32RoundTrip(count);
    Le32RoundTrip(10_485_761);
  }

  /** In the log the eight header bytes of such a record are skipped. */
  lemma TooLargeSkipped(codec: Codec, checksum: seq<byte>, rest: seq<byte>, after: u64)
    requires |checksum| == 4
    ensures Replay(codec, Le32(10_485_761) + checksum + rest, after) == Replay(codec, rest, after)
  {
    var all := Le32(10_485_761) + checksum + rest;
    assert all[..4] == Le32(10_485_761) && all[8..] == rest;
    Le32RoundTrip(10_485_761);
  }

  // ---------- Snapshots that are not whole ----------

  lemma ReadFirst(codec: Codec, e: Entry, rest: seq<byte>, count: nat)
    requires Lawful(codec) && Storable(codec, e) && count > 0
    ensures ReadRecords(codec, RecordBytes(codec, e) + rest, count) == Prepend([e], ReadRecords(codec, rest, count - 1))
  {
    RecordIsWhole(codec, e, rest);
  }

  lemma {:induction false} ReadFront(codec: Codec, es: seq<Entry>, rest: seq<byte>, more: nat, count: nat)
    requires Lawful(codec) && (forall e :: e in es ==> Storable(codec, e)) && count == |es| + more
    ensures ReadRecords(codec, LogBytes(codec, es) + rest, count) == Prepend(es, ReadRecords(codec, rest, more))
    decreases es
  {
    if es == [] {
      assert LogBytes(codec, es) + rest == rest;
      PrependNothing(ReadRecords(codec, rest, more));
    } else {
      assert es[0] in es;
      ReadFront(codec, es[1..], rest, more, count - 1);
      ReadFrontStep(codec, es, LogBytes(codec, es[1..]) + rest, rest, count, ReadRecords(codec, rest, more));
    }
  }

  lemma ReadFrontStep(codec: Codec, es: seq<Entry>, tail: seq<byte>, rest: seq<byte>, count: nat, end: Recovered)
    requires Lawful(codec) && es != [] && Storable(codec, es[0]) && count > 0
    requires tail == LogBytes(codec, es[1..]) + rest && ReadRecords(codec, tail, count - 1) == Prepend(es[1..], end)
    ensures ReadRecords(codec, LogBytes(codec, es) + rest, count) == Prepend(es, end)
  {
    LogBytesFirst(codec, es, rest);
    ReadFirst(codec, es[0], tail, count);
    PrependFirst(es, end);
  }

  lemma PrependNothing(r: Recovered)
    ensures Prepend([], r) == r
  {
  }

  lemma PrependFirst(es: seq<Entry>, r: Recovered)
    requires es != []
    ensures Prepend(es, r) == Prepend([es[0]], Prepend(es[1..], r))
  {
    assert es == [es[0]] + es[1..];
    if r.Recovered? {
      assert [es[0]] + (es[1..] + r.entries) == es + r.entries;
    }
  }

  lemma PrependEnd(es: seq<Entry>)
    ensures Prepend(es, Recovered([])) == Recovered(es)
  {
    assert es + [] == es;
  }

  lemma SnapshotParts(codec: Codec, count: nat, log: seq<byte>)
    requires count <= MAX_SNAPSHOT_RECORDS
    ensures ReadSnapshot(codec, Le32(count) + log) == ReadRecords(codec, log, count)
  {
    var bytes := Le32(count) + log;
    assert bytes[..4] == Le32(count) && bytes[4..] == log;
    Le32RoundTrip(count);
  }

  lemma ReadEnd(codec: Codec, extra: seq<byte>)
    ensures ReadRecords(codec, extra, 0) == if extra == [] then Recovered([]) else Refused("trailing bytes")
  {
  }

  /** A byte too many refuses the snapshot. */
  lemma TrailingRefused(codec: Codec, es: seq<Entry>, extra: seq<byte>)
    requires Lawful(codec) && |es| <= MAX_SNAPSHOT_RECORDS && forall e :: e in es ==> Storable(codec, e)
    ensures ReadSnapshot(codec, Le32(|es|) + (LogBytes(codec, es) + extra)).Refused? <==> extra != []
  {
    SnapshotParts(codec, |es|, LogBytes(codec, es) + extra);
    ReadFront(codec, es, extra, 0, |es|);
    ReadEnd(codec, extra);
  }

  lemma TornIsNotWhole(codec: Codec, e: Entry, n: nat)
    requires Storable(codec, e) && n < |RecordBytes(codec, e)|
    ensures var part := RecordBytes(codec, e)[..n];
      !WholeRecord(part) && (|part| >= 4 ==> FromLe(part[..4]) <= MAX_ENTRY_SIZE)
  {
    var payload, part := codec.serialize(e).value, RecordBytes(codec, e)[..n];
    RecordIsLaid(codec, e);
    if n >= 4 {
      assert part[..4] == Le32(|payload|);
      Le32RoundTrip(|payload|);
    }
  }

  lemma ReadTorn(codec: Codec, part: seq<byte>, count: nat)
    requires !WholeRecord(part) && (|part| >= 4 ==> FromLe(part[..4]) <= MAX_ENTRY_SIZE) && count > 0
    ensures ReadRecords(codec, part, count) == Recovered([])
  {
  }

  /** A snapshot that ends inside a record gives back the records before it. */
  lemma TornSnapshot(codec: Codec, es: seq<Entry>, e: Entry, n: nat, count: nat)
    requires Lawful(codec) && |es| < count <= MAX_SNAPSHOT_RECORDS && forall x :: x in es ==> Storable(codec, x)
    requires Storable(codec, e) && n < |RecordBytes(codec, e)|
    ensures ReadSnapshot(codec, Le32(count) + (LogBytes(codec, es) + RecordBytes(codec, e)[..n])) == Recovered(es)
  {
    var part, more := RecordBytes(codec, e)[..n], count - |es|;
    SnapshotParts(codec, count, LogBytes(codec, es) + part);
    ReadFront(codec, es, part, more, count);
    TornIsNotWhole(codec, e, n);
    ReadTorn(codec, part, more);
    PrependEnd(es);
  }

  lemma SkipDamaged(codec: Codec, payload: seq<byte>, checksum: u32, rest: seq<byte>, count: nat)
    requires |payload| <= MAX_ENTRY_SIZE && codec.checksum(payload) != checksum && count > 0
    ensures ReadRecords(codec, Laid(payload, checksum) + rest, count) == ReadRecords(codec, rest, count - 1)
  {
    LaidIsWhole(payload, checksum, rest);
  }

  lemma ChecksumDiffers(codec: Codec, payload: seq<byte>, damaged: seq<byte>, k: nat)
    requires UsesCrc32(codec) && damaged != payload && BurstApart(payload, damaged, k)
    ensures codec.checksum(damaged) != codec.checksum(payload)
  {
    DetectsBurst(payload, damaged, k);
    assert codec.checksum(damaged) == Crc(damaged) && codec.checksum(payload) == Crc(payload);
  }

  /** A snapshot with one damaged payload gives back the other entries. */
  lemma DamagedSnapshot(codec: Codec, xs: seq<Entry>, e: Entry, ys: seq<Entry>, damaged: seq<byte>, k: nat, count: nat)
    requires Lawful(codec) && UsesCrc32(codec) && count == |xs| + 1 + |ys| <= MAX_SNAPSHOT_RECORDS
    requires Storable(codec, e) && forall x :: x in xs || x in ys ==> Storable(codec, x)
    requires damaged != codec.serialize(e).value && BurstApart(codec.serialize(e).value, damaged, k)
    ensures var record := Laid(damaged, codec.checksum(codec.serialize(e).value));
      ReadSnapshot(codec, Le32(count) + (LogBytes(codec, xs) + (record + LogBytes(codec, ys)))) == Recovered(xs + ys)
  {
    var payload, more := codec.serialize(e).value, count - |xs|;
    ChecksumDiffers(codec, payload, damaged, k);
    ReadAround(codec, xs, damaged, codec.checksum(payload), ys, more, count);
    SnapshotParts(codec, count, LogBytes(codec, xs) + (Laid(damaged, codec.checksum(payload)) + LogBytes(codec, ys)));
  }

  lemma ReadAround(codec: Codec, xs: seq<Entry>, payload: seq<byte>, checksum: u32, ys: seq<Entry>, more: nat, count: nat)
    requires Lawful(codec) && forall x :: x in xs || x in ys ==> Storable(codec, x)
    requires |payload| <= MAX_ENTRY_SIZE && codec.checksum(payload) != checksum
    requires more == |ys| + 1 && count == |xs| + more
    ensures ReadRecords(codec, LogBytes(codec, xs) + (Laid(payload, checksum) + LogBytes(codec, ys)), count) == Recovered(xs + ys)
  {
    var tail := LogBytes(codec, ys);
    ReadFront(codec, xs, Laid(payload, checksum) + tail, more, count);
    SkipDamaged(codec, payload, checksum, tail, more);
    ReadLog(codec, ys);
  }
}
