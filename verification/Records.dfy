/** Agent records and their metadata, an ordered map from key to value. */
module Records {
  import opened Bytes

  /** Key-value pairs in strictly increasing key order, as a `std::map` iterates. */
  type Metadata = seq<(string, string)>

  datatype AgentRecord = AgentRecord(
    agentId: string,
    nodeId: string,
    endpoint: string,
    metadata: Metadata,
    revision: u64,
    expiresAt: int,
    publicKeyHex: string,
    signatureHex: string)

  /** A default-constructed record, at a given time. */
  function EmptyRecord(now: int): AgentRecord {
    AgentRecord("", "", "", [], 0, now, "", "")
  }

  /** Equal in every field but the expiry, which is local to a node. */
  predicate SameButExpiry(a: AgentRecord, b: AgentRecord) {
    a.(expiresAt := 0) == b.(expiresAt := 0)
  }

  // ---------- Key order ----------

  predicate Less(a: string, b: string) {
    if b == [] then false
    else if a == [] then true
    else a[0] < b[0] || (a[0] == b[0] && Less(a[1..], b[1..]))
  }

  lemma {:induction false} LessIrreflexive(a: string)
    ensures !Less(a, a)
  {
    if a != [] {
      LessIrreflexive(a[1..]);
    }
  }

  lemma {:induction false} LessTransitive(a: string, b: string, c: string)
    requires Less(a, b) && Less(b, c)
    ensures Less(a, c)
  {
    if a != [] && a[0] == b[0] == c[0] {
      LessTransitive(a[1..], b[1..], c[1..]);
    }
  }

  lemma {:induction false} LessTotal(a: string, b: string)
    ensures a == b || Less(a, b) || Less(b, a)
  {
    if a != [] && b != [] && a[0] == b[0] {
      LessTotal(a[1..], b[1..]);
      assert a == [a[0]] + a[1..] && b == [b[0]] + b[1..];
    }
  }

  // ---------- The ordered map ----------

  ghost predicate SortedMetadata(m: Metadata) {
    forall i, j :: 0 <= i < j < |m| ==> Less(m[i].0, m[j].0)
  }

  /** `metadata[key] = value`. */
  function Put(m: Metadata, k: string, v: string): Metadata {
    if m == [] then [(k, v)]
    else if k == m[0].0 then [(k, v)] + m[1..]
    else if Less(k, m[0].0) then [(k, v)] + m
    else [m[0]] + Put(m[1..], k, v)
  }

  function Get(m: Metadata, k: string): Option<string> {
    if m == [] then None else if m[0].0 == k then Some(m[0].1) else Get(m[1..], k)
  }

  lemma {:induction false} PutKeys(m: Metadata, k: string, v: string, p: (string, string))
    requires p in Put(m, k, v)
    ensures p == (k, v) || p in m
  {
    if m != [] && k != m[0].0 && !Less(k, m[0].0) && p != m[0] {
      PutKeys(m[1..], k, v, p);
    }
  }

  lemma {:induction false} PutSorted(m: Metadata, k: string, v: string)
    requires SortedMetadata(m)
    ensures SortedMetadata(Put(m, k, v))
  {
    if m == [] || k == m[0].0 {
    } else if Less(k, m[0].0) {
      forall j | 0 < j < |m| ensures Less(k, m[j].0) { LessTransitive(k, m[0].0, m[j].0); }
    } else {
      LessTotal(k, m[0].0);
      PutSorted(m[1..], k, v);
      var rest := Put(m[1..], k, v);
      forall j | 0 <= j < |rest| ensures Less(m[0].0, rest[j].0) {
        assert rest[j] in rest;
        PutKeys(m[1..], k, v, rest[j]);
      }
    }
  }

  lemma {:induction false} GetPut(m: Metadata, k: string, v: string, q: string)
    ensures Get(Put(m, k, v), q) == if q == k then Some(v) else Get(m, q)
  {
    if m != [] && k != m[0].0 && !Less(k, m[0].0) {
      GetPut(m[1..], k, v, q);
    } else if m != [] && k != m[0].0 {
      assert ([(k, v)] + m)[1..] == m;
    }
  }

  /** A key above all others goes to the end. */
  lemma {:induction false} PutLast(m: Metadata, k: string, v: string)
    requires forall i :: 0 <= i < |m| ==> Less(m[i].0, k)
    ensures Put(m, k, v) == m + [(k, v)]
  {
    if m != [] {
      LessIrreflexive(k);
      if Less(k, m[0].0) {
        LessTransitive(k, m[0].0, k);
      }
      PutLast(m[1..], k, v);
    }
  }

  lemma {:induction false} GetAbsent(m: Metadata, k: string)
    requires forall i :: 0 <= i < |m| ==> m[i].0 != k
    ensures Get(m, k) == None
  {
    if m != [] {
      GetAbsent(m[1..], k);
    }
  }

  lemma GetBelow(m: Metadata, k: string)
    requires SortedMetadata(m) && m != []
    requires k == m[0].0 || Less(k, m[0].0)
    ensures Get(m[1..], k) == None
    ensures k != m[0].0 ==> Get(m, k) == None
  {
    forall i | 0 < i < |m| ensures m[i].0 != k {
      if m[i].0 == k {
        LessIrreflexive(k);
        if k != m[0].0 {
          LessTransitive(m[0].0, k, m[0].0);
          LessIrreflexive(m[0].0);
        }
      }
    }
    GetAbsent(m[1..], k);
  }

  lemma HeadsAgree(m: Metadata, n: Metadata)
    requires SortedMetadata(m) && SortedMetadata(n) && m != [] && n != []
    requires Get(m, m[0].0) == Get(n, m[0].0)
    requires Get(m, n[0].0) == Get(n, n[0].0)
    ensures m[0] == n[0]
  {
    var a, b := m[0].0, n[0].0;
    LessTotal(a, b);
    if Less(a, b) {
      GetBelow(n, a);
    }
    if Less(b, a) {
      GetBelow(m, b);
    }
  }

  /** Two ordered maps with the same look-ups are the same list. */
  lemma {:induction false} MetadataExtensional(m: Metadata, n: Metadata)
    requires SortedMetadata(m) && SortedMetadata(n)
    requires forall k :: Get(m, k) == Get(n, k)
    ensures m == n
  {
    assert m != [] ==> Get(m, m[0].0) == Get(n, m[0].0);
    assert n != [] ==> Get(m, n[0].0) == Get(n, n[0].0);
    if m != [] && n != [] {
      HeadsAgree(m, n);
      forall k ensures Get(m[1..], k) == Get(n[1..], k) {
        assert Get(m, k) == Get(n, k);
        if k == m[0].0 {
          GetBelow(m, k);
          GetBelow(n, k);
        }
      }
      MetadataExtensional(m[1..], n[1..]);
      assert m == [m[0]] + m[1..] && n == [n[0]] + n[1..];
    }
  }

  // ---------- Sequences of insertions ----------

  function PutAll(m: Metadata, pairs: seq<(string, string)>): Metadata
    decreases pairs
  {
    if pairs == [] then m else PutAll(Put(m, pairs[0].0, pairs[0].1), pairs[1..])
  }

  /** The value a list of insertions leaves behind for a key. */
  function LastValue(pairs: seq<(string, string)>, k: string, before: Option<string>): Option<string>
    decreases pairs
  {
    if pairs == [] then before
    else LastValue(pairs[1..], k, if pairs[0].0 == k then Some(pairs[0].1) else before)
  }

  lemma {:induction false} PutAllLookup(m: Metadata, pairs: seq<(string, string)>, k: string)
    ensures Get(PutAll(m, pairs), k) == LastValue(pairs, k, Get(m, k))
    decreases pairs
  {
    if pairs != [] {
      GetPut(m, pairs[0].0, pairs[0].1, k);
      PutAllLookup(Put(m, pairs[0].0, pairs[0].1), pairs[1..], k);
    }
  }

  lemma {:induction false} PutAllSorted(m: Metadata, pairs: seq<(string, string)>)
    requires SortedMetadata(m)
    ensures SortedMetadata(PutAll(m, pairs))
    decreases pairs
  {
    if pairs != [] {
      PutSorted(m, pairs[0].0, pairs[0].1);
      PutAllSorted(Put(m, pairs[0].0, pairs[0].1), pairs[1..]);
    }
  }

  /** The order of insertion leaves no trace: only the last value of each key matters. */
  lemma InsertionOrderIrrelevant(p: seq<(string, string)>, q: seq<(string, string)>)
    requires forall k :: LastValue(p, k, None) == LastValue(q, k, None)
    ensures PutAll([], p) == PutAll([], q)
  {
    PutAllSorted([], p);
    PutAllSorted([], q);
    forall k ensures Get(PutAll([], p), k) == Get(PutAll([], q), k) {
      PutAllLookup([], p, k);
      PutAllLookup([], q, k);
    }
    MetadataExtensional(PutAll([], p), PutAll([], q));
  }

  /** Inserting the entries of an ordered map in order rebuilds it. */
  lemma {:induction false} PutAllRebuilds(done: Metadata, rest: Metadata)
    requires SortedMetadata(done + rest)
    ensures PutAll(done, rest) == done + rest
    decreases rest
  {
    if rest == [] {
      assert done + rest == done;
    } else {
      var m := done + rest;
      forall i | 0 <= i < |done| ensures Less(done[i].0, rest[0].0) {
        assert m[i] == done[i] && m[|done|] == rest[0];
      }
      PutLast(done, rest[0].0, rest[0].1);
      assert done + [rest[0]] + rest[1..] == m;
      PutAllRebuilds(done + [rest[0]], rest[1..]);
    }
  }
}
