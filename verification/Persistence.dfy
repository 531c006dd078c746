/**
 The durable log: a write-ahead log and a snapshot as byte strings, each record a
 little-endian length, a CRC-32 and a payload.  Protobuf is an arbitrary codec.
 */
module Persistence {
  import opened Bytes
  import opened Crc32

  datatype Entry = Entry(
    agentId: string,
    capability: string,
    endpoint: string,
    timestamp: u64,
    publicKey: seq<byte>,
    signature: seq<byte>)

  /** The file format: serialising may fail, parsing may refuse, and every payload has a checksum. */
  datatype Codec = Codec(
    serialize: Entry -> Option<seq<byte>>,
    parse: seq<byte> -> Option<Entry>,
    checksum: seq<byte> -> u32)

  ghost predicate Lawful(codec: Codec) {
    forall e :: codec.serialize(e).Some? ==> codec.parse(codec.serialize(e).value) == Some(e)
  }

  ghost predicate UsesCrc32(codec: Codec) {
    forall payload :: codec.checksum(payload) == Crc(payload)
  }

  const MAX_ENTRY_SIZE: nat := 10 * 1024 * 1024
  const MAX_SNAPSHOT_RECORDS: nat := 1_000_000

  /** The two files; a missing log reads like an empty one. */
  datatype Disk = Disk(snapshot: Option<seq<byte>>, wal: seq<byte>)

  // ---------- Writing ----------

  /** Length, checksum and payload; the length field and the bytes written keep the low 32 bits of the size. */
  function Framed(codec: Codec, payload: seq<byte>): seq<byte> {
    var size := |payload| % 0x1_0000_0000;
    Le32(size) + Le32(codec.checksum(payload)) + payload[..size]
  }

  function RecordBytes(codec: Codec, e: Entry): seq<byte> {
    match codec.serialize(e)
    case None => []
    case Some(payload) => Framed(codec, payload)
  }

  function LogBytes(codec: Codec, es: seq<Entry>): seq<byte> {
    if es == [] then [] else RecordBytes(codec, es[0]) + LogBytes(codec, es[1..])
  }

  function SnapshotBytes(codec: Codec, es: seq<Entry>): seq<byte> {
    Le32(|es| % 0x1_0000_0000) + LogBytes(codec, es)
  }

  // ---------- Reading ----------

  /** A record at the front of `rest` whose payload is complete and not too long. */
  predicate WholeRecord(rest: seq<byte>) {
    |rest| >= 8 && FromLe(rest[..4]) <= MAX_ENTRY_SIZE && 8 + FromLe(rest[..4]) <= |rest|
  }

  function PayloadOf(rest: seq<byte>): seq<byte>
    requires WholeRecord(rest)
  {
    rest[8..8 + FromLe(rest[..4])]
  }

  function AfterRecord(rest: seq<byte>): (tail: seq<byte>)
    requires WholeRecord(rest)
    ensures |tail| <= |rest| - 8
  {
    rest[8 + FromLe(rest[..4])..]
  }

  /** The entry of a whole record, unless the checksum or the parser refuses it. */
  function EntryAt(codec: Codec, rest: seq<byte>): Option<Entry>
    requires WholeRecord(rest)
  {
    if codec.checksum(PayloadOf(rest)) == FromLe(rest[4..8]) then codec.parse(PayloadOf(rest)) else None
  }

  predicate OversizeRecord(rest: seq<byte>) {
    |rest| >= 8 && FromLe(rest[..4]) > MAX_ENTRY_SIZE
  }

  /** The log entries above a timestamp. */
  function Replay(codec: Codec, rest: seq<byte>, after: u64): seq<Entry>
    decreases |rest|
  {
    if OversizeRecord(rest) then Replay(codec, rest[8..], after)
    else if !WholeRecord(rest) then []
    else
      var more := Replay(codec, AfterRecord(rest), after);
      match EntryAt(codec, rest)
      case None => more
      case Some(e) => if e.timestamp <= after then more else [e] + more
  }

  datatype Recovered = Recovered(entries: seq<Entry>) | Refused(reason: string)

  /** Up to `count` snapshot records; a torn record ends the reading, a leftover byte after the last refuses the file. */
  function ReadRecords(codec: Codec, rest: seq<byte>, count: nat): Recovered
    decreases count
  {
    if count == 0 then
      if rest == [] then Recovered([]) else Refused("trailing bytes")
    else if |rest| >= 4 && FromLe(rest[..4]) > MAX_ENTRY_SIZE then Refused("entry size")
    else if !WholeRecord(rest) then Recovered([])
    else
      var more := ReadRecords(codec, AfterRecord(rest), count - 1);
      if more.Refused? then more
      else
        match EntryAt(codec, rest)
        case None => more
        case Some(e) => Recovered([e] + more.entries)
  }

  /** A header shorter than four bytes still gives a count, and then no record can be read. */
  function ReadSnapshot(codec: Codec, bytes: seq<byte>): Recovered {
    var header := if |bytes| < 4 then bytes else bytes[..4];
    if FromLe(header) > MAX_SNAPSHOT_RECORDS then Refused("record count")
    else if |bytes| < 4 then Recovered([])
    else ReadRecords(codec, bytes[4..], FromLe(header))
  }

  function MaxTimestamp(es: seq<Entry>): (m: u64)
    ensures forall e :: e in es ==> e.timestamp <= m
    ensures m == 0 || exists e :: e in es && e.timestamp == m
  {
    if es == [] then 0
    else
      var m := MaxTimestamp(es[1..]);
      assert forall e :: e in es ==> e == es[0] || e in es[1..];
      if es[0].timestamp > m then es[0].timestamp else m
  }

  function SnapshotPart(codec: Codec, disk: Disk): Recovered {
    match disk.snapshot
    case None => Recovered([])
    case Some(bytes) => ReadSnapshot(codec, bytes)
  }

  function Recover(codec: Codec, disk: Disk): Recovered {
    var base := SnapshotPart(codec, disk);
    if base.Refused? then base
    else Recovered(base.entries + Replay(codec, disk.wal, MaxTimestamp(base.entries)))
  }

  // ---------- The service ----------

  class PersistenceService {
    const codec: Codec
    var disk: Disk
    var walOpen: bool

    ghost predicate Valid() { UsesCrc32(codec) }

    constructor (codec: Codec, disk: Disk, opens: bool)
      requires UsesCrc32(codec)
      ensures Valid()
      ensures this.codec == codec && this.disk == disk && walOpen == opens
    {
      this.codec, this.disk, walOpen := codec, disk, opens;
    }

    method EncodeRecord(e: Entry) returns (bytes: seq<byte>)
      requires Valid()
      ensures bytes == RecordBytes(codec, e)
    {
      var serialized := codec.serialize(e);
      if serialized.None? {
        return [];
      }
      var payload := serialized.value;
      var size := |payload| % 0x1_0000_0000;
      var checksum := ComputeCrc32(payload);
      bytes := Le32(size);
      bytes := bytes + Le32(checksum);
      bytes := bytes + payload[..size];
    }

    method AppendEntry(e: Entry)
      requires Valid()
      modifies this`disk
      ensures disk == if walOpen then old(disk).(wal := old(disk.wal) + RecordBytes(codec, e)) else old(disk)
    {
      if !walOpen {
        return;
      }
      var written := EncodeRecord(e);
      disk := disk.(wal := disk.wal + written);
    }

    method EncodeSnapshot(es: seq<Entry>) returns (bytes: seq<byte>)
      requires Valid()
      ensures bytes == SnapshotBytes(codec, es)
    {
      bytes := Le32(|es| % 0x1_0000_0000);
      for i := 0 to |es|
        invariant bytes + LogBytes(codec, es[i..]) == SnapshotBytes(codec, es)
      {
        var written := EncodeRecord(es[i]);
        LogBytesStep(codec, es, i, bytes);
        bytes := bytes + written;
      }
    }

    /** The atomic rename of the finished temporary file over the snapshot. */
    method RenameSnapshot(bytes: seq<byte>, renames: bool)
      modifies this`disk
      ensures disk == if renames then old(disk).(snapshot := Some(bytes)) else old(disk)
    {
      if renames {
        disk := disk.(snapshot := Some(bytes));
      }
    }

    method TruncateWal(truncates: bool)
      modifies this`disk
      ensures disk == if truncates then old(disk).(wal := []) else old(disk)
    {
      if truncates {
        disk := disk.(wal := []);
      }
    }

    /** The log is truncated whether or not the rename succeeded. */
    method CreateSnapshot(es: seq<Entry>, tmpOpens: bool, renames: bool, truncates: bool, reopens: bool)
      requires Valid()
      modifies this`disk, this`walOpen
      ensures walOpen == reopens
      ensures !tmpOpens ==> disk == old(disk)
      ensures tmpOpens ==> disk == Disk(
                if renames then Some(SnapshotBytes(codec, es)) else old(disk.snapshot),
                if truncates then [] else old(disk.wal))
    {
      walOpen := false;
      if !tmpOpens {
        walOpen := reopens;
        return;
      }
      var bytes := EncodeSnapshot(es);
      RenameSnapshot(bytes, renames);
      TruncateWal(truncates);
      walOpen := reopens;
    }

    /** Read one whole record: compare the checksum, then parse. */
    method ReadRecord(rest: seq<byte>) returns (e: Option<Entry>)
      requires Valid() && WholeRecord(rest)
      ensures e == EntryAt(codec, rest)
    {
      var payload := PayloadOf(rest);
      var checksum := ComputeCrc32(payload);
      e := if checksum == FromLe(rest[4..8]) then codec.parse(payload) else None;
    }

    method ReadAll(start: seq<byte>, total: nat) returns (result: Recovered)
      requires Valid()
      ensures result == ReadRecords(codec, start, total)
    {
      var entries: seq<Entry> := [];
      var rest, left: nat := start, total;
      while left > 0
        invariant ReadRecords(codec, start, total) == Prepend(entries, ReadRecords(codec, rest, left))
      {
        if |rest| >= 4 && FromLe(rest[..4]) > MAX_ENTRY_SIZE {
          return Refused("entry size");
        }
        if !WholeRecord(rest) {
          return Recovered(entries);
        }
        var read := ReadRecord(rest);
        ReadStep(codec, rest, left, entries);
        if read.Some? {
          entries := entries + [read.value];
        }
        rest, left := AfterRecord(rest), left - 1;
      }
      result := if rest != [] then Refused("trailing bytes") else Recovered(entries);
    }

    method RecoverSnapshot(bytes: seq<byte>) returns (result: Recovered)
      requires Valid()
      ensures result == ReadSnapshot(codec, bytes)
    {
      var total := FromLe(if |bytes| < 4 then bytes else bytes[..4]);
      if total > MAX_SNAPSHOT_RECORDS {
        return Refused("record count");
      }
      if |bytes| < 4 {
        return Recovered([]);
      }
      result := ReadAll(bytes[4..], total);
    }

    method ReplayWal(after: u64) returns (entries: seq<Entry>)
      requires Valid()
      ensures entries == Replay(codec, disk.wal, after)
    {
      entries := [];
      var rest := disk.wal;
      while OversizeRecord(rest) || WholeRecord(rest)
        invariant entries + Replay(codec, rest, after) == Replay(codec, disk.wal, after)
        decreases |rest|
      {
        if OversizeRecord(rest) {
          rest := rest[8..];
          continue;
        }
        var read := ReadRecord(rest);
        ReplayStep(codec, rest, after, entries);
        if read.Some? && read.value.timestamp > after {
          entries := entries + [read.value];
        }
        rest := AfterRecord(rest);
      }
    }

    method RecoverAll() returns (result: Recovered)
      requires Valid()
      ensures result == Recover(codec, disk)
    {
      var base := Recovered([]);
      if disk.snapshot.Some? {
        base := RecoverSnapshot(disk.snapshot.value);
      }
      if base.Refused? {
        return base;
      }
      var replayed := ReplayWal(MaxTimestamp(base.entries));
      result := Recovered(base.entries + replayed);
    }
  }

  lemma LogBytesStep(codec: Codec, es: seq<Entry>, i: nat, bytes: seq<byte>)
    requires i < |es|
    ensures bytes + LogBytes(codec, es[i..]) == bytes + RecordBytes(codec, es[i]) + LogBytes(codec, es[i + 1..])
  {
    assert es[i..][0] == es[i] && es[i..][1..] == es[i + 1..];
  }

  function Prepend(es: seq<Entry>, r: Recovered): Recovered {
    if r.Refused? then r else Recovered(es + r.entries)
  }

  /** What one round of the replay loop adds. */
  function Replayed(read: Option<Entry>, after: u64): seq<Entry> {
    if read.Some? && read.value.timestamp > after then [read.value] else []
  }

  lemma ReplayStep(codec: Codec, rest: seq<byte>, after: u64, es: seq<Entry>)
    requires WholeRecord(rest) && !OversizeRecord(rest)
    ensures es + Replay(codec, rest, after)
            == es + Replayed(EntryAt(codec, rest), after) + Replay(codec, AfterRecord(rest), after)
  {
    var added, more := Replayed(EntryAt(codec, rest), after), Replay(codec, AfterRecord(rest), after);
    assert Replay(codec, rest, after) == added + more;
    assert es + (added + more) == es + added + more;
  }

  lemma ReadStep(codec: Codec, rest: seq<byte>, left: nat, es: seq<Entry>)
    requires left > 0 && WholeRecord(rest)
    ensures var read := EntryAt(codec, rest);
      Prepend(es, ReadRecords(codec, rest, left))
      == Prepend(if read.Some? then es + [read.value] else es, ReadRecords(codec, AfterRecord(rest), left - 1))
  {
    var more := ReadRecords(codec, AfterRecord(rest), left - 1);
    var read := EntryAt(codec, rest);
    if more.Recovered? && read.Some? {
      assert es + ([read.value] + more.entries) == es + [read.value] + more.entries;
    }
  }
}
