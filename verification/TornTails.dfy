/** What appends after a torn record become: the log is not cut at the tear before it is written again. */
module TornTails {
  import opened Bytes
  import opened Crc32
  import opened Persistence
  import opened Recovery

  /** The end of a log that holds no whole record and does not announce an oversize one. */
  predicate TornTail(torn: seq<byte>) {
    !WholeRecord(torn) && !OversizeRecord(torn)
  }

  /** How many bytes of the announced record are missing from a tail with a whole header. */
  function Missing(torn: seq<byte>): (m: nat)
    requires |torn| >= 8 && TornTail(torn)
    ensures m > 0
  {
    8 + FromLe(torn[..4]) - |torn|
  }

  // ---------- Putting bytes behind a tail ----------

  lemma HeaderStays(torn: seq<byte>, later: seq<byte>)
    requires |torn| >= 8
    ensures (torn + later)[..4] == torn[..4] && (torn + later)[4..8] == torn[4..8]
  {
  }

  lemma SplitLater(torn: seq<byte>, later: seq<byte>, m: nat)
    requires m <= |later|
    ensures torn + later == torn + later[..m] + later[m..]
  {
  }

  /** A record followed by anything is the same record, and the rest follows. */
  lemma RecordThenRest(codec: Codec, record: seq<byte>, rest: seq<byte>)
    requires WholeRecord(record) && |record| == 8 + FromLe(record[..4])
    ensures var all := record + rest;
      && WholeRecord(all) && !OversizeRecord(all)
      && EntryAt(codec, all) == EntryAt(codec, record) && AfterRecord(all) == rest
  {
    var all, n := record + rest, FromLe(record[..4]);
    HeaderStays(record, rest);
    assert all[8..8 + n] == record[8..8 + n] && all[8 + n..] == rest;
  }

  lemma ReplayRecordThenRest(codec: Codec, record: seq<byte>, rest: seq<byte>, after: u64)
    requires WholeRecord(record) && |record| == 8 + FromLe(record[..4])
    ensures Replay(codec, record + rest, after) == Replayed(EntryAt(codec, record), after) + Replay(codec, rest, after)
  {
    RecordThenRest(codec, record, rest);
    ReplayStep(codec, record + rest, after, []);
    var added, more := Replayed(EntryAt(codec, record), after), Replay(codec, rest, after);
    assert [] + Replay(codec, record + rest, after) == Replay(codec, record + rest, after);
    assert [] + added + more == added + more;
  }

  lemma FilledIsWhole(torn: seq<byte>, fill: seq<byte>)
    requires |torn| >= 8 && TornTail(torn) && |fill| == Missing(torn)
    ensures WholeRecord(torn + fill) && |torn + fill| == 8 + FromLe((torn + fill)[..4])
  {
    HeaderStays(torn, fill);
  }

  /**
   Behind a tail with a whole header, nothing is recovered until the missing bytes
   are filled.  The first bytes written later fill them; the result counts as one
   record, and reading goes on after the fill, wherever in a later record that is.
   */
  lemma TornTailSwallows(codec: Codec, torn: seq<byte>, later: seq<byte>, after: u64)
    requires |torn| >= 8 && TornTail(torn)
    ensures var m := Missing(torn);
      && (|later| < m ==> Replay(codec, torn + later, after) == [])
      && (|later| >= m ==>
            && WholeRecord(torn + later[..m])
            && Replay(codec, torn + later, after)
               == Replayed(EntryAt(codec, torn + later[..m]), after) + Replay(codec, later[m..], after))
  {
    var m := Missing(torn);
    HeaderStays(torn, later);
    if |later| >= m {
      FilledIsWhole(torn, later[..m]);
      SplitLater(torn, later, m);
      ReplayRecordThenRest(codec, torn + later[..m], later[m..], after);
    }
  }

  /**
   A tail without a whole header swallows the bytes that complete the header.  The
   header so made up decides: too large a size is skipped, a size of 0 is a record
   of its own, and any other makes a longer tail, to which `TornTailSwallows` applies.
   */
  lemma ShortTailSwallows(codec: Codec, torn: seq<byte>, later: seq<byte>, after: u64)
    requires |torn| < 8
    ensures var k := 8 - |torn|;
      && (|later| < k ==> Replay(codec, torn + later, after) == [])
      && (|later| >= k ==>
            var header, rest := torn + later[..k], later[k..];
            && |header| == 8
            && (OversizeRecord(header) ==> Replay(codec, torn + later, after) == Replay(codec, rest, after))
            && (WholeRecord(header) ==>
                  Replay(codec, torn + later, after)
                  == Replayed(EntryAt(codec, header), after) + Replay(codec, rest, after))
            && (TornTail(header) ==> Replay(codec, torn + later, after) == Replay(codec, header + rest, after)))
  {
    var k := 8 - |torn|;
    if |later| >= k {
      var header, rest := torn + later[..k], later[k..];
      SplitLater(torn, later, k);
      HeaderStays(header, rest);
      if OversizeRecord(header) {
        assert (header + rest)[8..] == rest;
      } else if WholeRecord(header) {
        ReplayRecordThenRest(codec, header, rest, after);
      }
    }
  }

  // ---------- A torn append ----------

  lemma TornRecordMisses(codec: Codec, e: Entry, torn: seq<byte>, end: seq<byte>)
    requires Storable(codec, e) && RecordBytes(codec, e) == torn + end && |torn| >= 8 && end != []
    ensures TornTail(torn) && Missing(torn) == |end|
  {
    var payload := codec.serialize(e).value;
    RecordIsLaid(codec, e);
    HeaderStays(torn, end);
    assert (torn + end)[..4] == Le32(|payload|);
    Le32RoundTrip(|payload|);
  }

  /** A torn record, filled, is the header of the original before a payload with another end. */
  lemma FilledIsLaid(payload: seq<byte>, checksum: u32, n: nat, fill: seq<byte>)
    requires |payload| <= MAX_ENTRY_SIZE && 8 <= n <= 8 + |payload| && |fill| == 8 + |payload| - n
    ensures |payload[..n - 8] + fill| == |payload|
    ensures Laid(payload, checksum)[..n] + fill == Laid(payload[..n - 8] + fill, checksum)
  {
  }

  lemma EntryOfLaid(codec: Codec, payload: seq<byte>, checksum: u32)
    requires |payload| <= MAX_ENTRY_SIZE
    ensures WholeRecord(Laid(payload, checksum))
    ensures EntryAt(codec, Laid(payload, checksum)) == if codec.checksum(payload) == checksum then codec.parse(payload) else None
  {
    LaidIsWhole(payload, checksum, []);
    assert Laid(payload, checksum) + [] == Laid(payload, checksum);
  }

  lemma OtherEndOtherChecksum(codec: Codec, payload: seq<byte>, n: nat, fill: seq<byte>)
    requires UsesCrc32(codec) && n <= |payload| && |fill| == |payload| - n <= 4 && fill != payload[n..]
    ensures codec.checksum(payload[..n] + fill) != codec.checksum(payload)
  {
    var front, end := payload[..n], payload[n..];
    DetectsFourBytes(front, fill, end, []);
    assert front + fill + [] == front + fill && front + end + [] == payload;
    assert codec.checksum(front + fill) == Crc(front + fill) && codec.checksum(payload) == Crc(payload);
  }

  /**
   A record torn in its last four bytes and then written over: the entry comes back
   exactly when the bytes that follow are the missing ones; otherwise it is dropped,
   and the bytes that filled it are lost to whatever was appended.
   */
  lemma TornEndFilled(codec: Codec, e: Entry, torn: seq<byte>, end: seq<byte>, later: seq<byte>, after: u64)
    requires Lawful(codec) && UsesCrc32(codec) && Storable(codec, e)
    requires RecordBytes(codec, e) == torn + end && |torn| >= 8 && 0 < |end| <= 4 && |later| >= |end|
    ensures Replay(codec, torn + later, after)
            == (if later[..|end|] == end then Fresh([e], after) else []) + Replay(codec, later[|end|..], after)
  {
    TornRecordMisses(codec, e, torn, end);
    TornTailSwallows(codec, torn, later, after);
    FilledEntry(codec, e, torn, end, later[..|end|], after);
  }

  lemma FilledEntry(codec: Codec, e: Entry, torn: seq<byte>, end: seq<byte>, fill: seq<byte>, after: u64)
    requires Lawful(codec) && UsesCrc32(codec) && Storable(codec, e)
    requires RecordBytes(codec, e) == torn + end && |torn| >= 8 && |fill| == |end| <= 4
    ensures WholeRecord(torn + fill)
    ensures Replayed(EntryAt(codec, torn + fill), after) == if fill == end then Fresh([e], after) else []
  {
    var payload, n := codec.serialize(e).value, |torn|;
    RecordIsLaid(codec, e);
    assert torn == (torn + end)[..n] && end == (torn + end)[n..];
    FilledIsLaid(payload, codec.checksum(payload), n, fill);
    EntryOfLaid(codec, payload[..n - 8] + fill, codec.checksum(payload));
    FillDecides(codec, e, n, fill, after);
  }

  lemma EndOfRecord(payload: seq<byte>, checksum: u32, n: nat)
    requires |payload| <= MAX_ENTRY_SIZE && 8 <= n <= 8 + |payload|
    ensures Laid(payload, checksum)[n..] == payload[n - 8..]
  {
  }

  lemma FillDecides(codec: Codec, e: Entry, n: nat, fill: seq<byte>, after: u64)
    requires Lawful(codec) && UsesCrc32(codec) && Storable(codec, e)
    requires 8 <= n <= |RecordBytes(codec, e)| <= n + 4 && |fill| == |RecordBytes(codec, e)| - n
    ensures var payload := codec.serialize(e).value;
      |RecordBytes(codec, e)| == 8 + |payload| &&
      var filled := payload[..n - 8] + fill;
      Replayed(if codec.checksum(filled) == codec.checksum(payload) then codec.parse(filled) else None, after)
      == if fill == RecordBytes(codec, e)[n..] then Fresh([e], after) else []
  {
    var payload := codec.serialize(e).value;
    RecordIsLaid(codec, e);
    EndOfRecord(payload, codec.checksum(payload), n);
    if fill == payload[n - 8..] {
      assert payload[..n - 8] + fill == payload;
      assert [e][1..] == [];
    } else {
      OtherEndOtherChecksum(codec, payload, n - 8, fill);
    }
  }
}
