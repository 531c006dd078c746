/** A merge with an identity service as a plain merge of fewer records. */
module MergeFilter {
  import opened Bytes
  import opened Records
  import opened Crypto
  import opened Identity
  import opened Registry
  import opened MergeCells
  import opened MergeOrder

  function AdmittedOnly(identity: Option<Verifier>, store: TrustStore, list: seq<AgentRecord>): seq<AgentRecord> {
    if list == [] then []
    else (if Admitted(identity, store, list[0]) then [list[0]] else []) + AdmittedOnly(identity, store, list[1..])
  }

  /** No two signed records of an agent that is not trusted yet bring different keys. */
  ghost predicate Uncontested(identity: Option<Verifier>, base: TrustStore, s: set<AgentRecord>) {
    forall p, q :: p in s && q in s && Signed(identity, p) && Signed(identity, q) ==>
      p.agentId == q.agentId && p.agentId !in base ==> KeyOf(p) == KeyOf(q)
  }

  ghost predicate PinnedBy(identity: Option<Verifier>, s: set<AgentRecord>, id: string, key: seq<byte>) {
    exists q :: q in s && q.agentId == id && Signed(identity, q) && KeyOf(q) == key
  }

  /** The store has grown from `base` by keys of signed records of `s`. */
  ghost predicate GrownBy(identity: Option<Verifier>, base: TrustStore, store: TrustStore, s: set<AgentRecord>) {
    KeysKept(base, store) && forall id :: id in store && id !in base ==> PinnedBy(identity, s, id, store[id])
  }

  /** Uncontested, what the check says does not depend on what was merged before. */
  lemma AdmissionStable(identity: Option<Verifier>, base: TrustStore, store: TrustStore, s: set<AgentRecord>, r: AgentRecord)
    requires GrownBy(identity, base, store, s) && Uncontested(identity, base, s) && r in s
    ensures Admitted(identity, store, r) <==> Admitted(identity, base, r)
  {
    if identity.Some? && r.agentId in store && r.agentId !in base {
      assert PinnedBy(identity, s, r.agentId, store[r.agentId]);
      var q :| q in s && q.agentId == r.agentId && Signed(identity, q) && KeyOf(q) == store[r.agentId];
    }
  }

  lemma MergeOneGrows(identity: Option<Verifier>, base: TrustStore, st: MergeState, s: set<AgentRecord>, r: AgentRecord)
    requires GrownBy(identity, base, st.store, s) && r in s
    ensures GrownBy(identity, base, MergeOne(identity, st, r).store, s)
  {
    var store := MergeOne(identity, st, r).store;
    if identity.Some? {
      CheckPins(identity.value, st.store, r);
    }
    forall id | id in store && id !in base ensures PinnedBy(identity, s, id, store[id]) {
      if id in st.store {
        assert PinnedBy(identity, s, id, st.store[id]);
      }
    }
  }

  lemma UpsertAllFirst(records: seq<AgentRecord>, first: AgentRecord, rest: seq<AgentRecord>)
    ensures UpsertAll(records, [first] + rest) == UpsertAll(Upserted(records, first), rest)
  {
    assert ([first] + rest)[1..] == rest;
  }

  lemma MergeFilterStep(identity: Option<Verifier>, base: TrustStore, st: MergeState, s: set<AgentRecord>,
                        r: AgentRecord, rest: seq<AgentRecord>)
    requires GrownBy(identity, base, st.store, s) && Uncontested(identity, base, s) && r in s
    ensures GrownBy(identity, base, MergeOne(identity, st, r).store, s)
    ensures UpsertAll(MergeOne(identity, st, r).records, rest)
            == UpsertAll(st.records, (if Admitted(identity, base, r) then [r] else []) + rest)
  {
    AdmissionStable(identity, base, st.store, s, r);
    MergeOneGrows(identity, base, st, s, r);
    MergeOnePasses(identity, st, r);
    UpsertAllFirst(st.records, r, rest);
    assert [] + rest == rest;
  }

  /** Uncontested, a checked merge is the plain merge of the records that the first store admits. */
  lemma {:induction false} MergeIsFiltered(
    identity: Option<Verifier>, base: TrustStore, st: MergeState, s: set<AgentRecord>, list: seq<AgentRecord>)
    requires GrownBy(identity, base, st.store, s) && Uncontested(identity, base, s) && Elements(list) <= s
    ensures MergeAll(identity, st, list).records == UpsertAll(st.records, AdmittedOnly(identity, base, list))
    decreases list
  {
    if list != [] {
      assert list[0] in Elements(list);
      assert forall r :: r in list[1..] ==> r in Elements(list);
      MergeFilterStep(identity, base, st, s, list[0], AdmittedOnly(identity, base, list[1..]));
      MergeIsFiltered(identity, base, MergeOne(identity, st, list[0]), s, list[1..]);
    }
  }
}
