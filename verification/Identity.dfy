/** The trust store: the first key seen with a valid signature is the agent's key from then on. */
module Identity {
  import opened Bytes
  import opened Records
  import opened Crypto

  type TrustStore = map<string, seq<byte>>

  datatype Checked = Checked(status: SignatureStatus, store: TrustStore)

  /** Verify a record's signature and, if valid, compare or pin its key. */
  function CheckRecord(verifier: Verifier, store: TrustStore, r: AgentRecord): Checked {
    var status := SignatureStatusOf(verifier, r);
    if status != Valid then Checked(status, store)
    else
      var key := Unhex(r.publicKeyHex);
      if key == [] then Checked(Invalid, store)
      else if r.agentId !in store then Checked(Valid, store[r.agentId := key])
      else if store[r.agentId] != key then Checked(Invalid, store)
      else Checked(Valid, store)
  }

  /** Every key of the old store is in the new one, unchanged. */
  ghost predicate KeysKept(before: TrustStore, after: TrustStore) {
    forall id :: id in before ==> id in after && after[id] == before[id]
  }

  /** A check never changes a trusted key, and a valid record's key is the trusted one. */
  lemma CheckPins(verifier: Verifier, store: TrustStore, r: AgentRecord)
    ensures var c := CheckRecord(verifier, store, r);
      && KeysKept(store, c.store)
      && (c.status == Valid ==> r.agentId in c.store && c.store[r.agentId] == Unhex(r.publicKeyHex))
      && (c.status != Valid ==> c.store == store)
  {
  }

  class IdentityService {
    const verifier: Verifier
    var trustStore: TrustStore

    constructor (verifier: Verifier)
      ensures this.verifier == verifier && trustStore == map[]
    {
      this.verifier := verifier;
      trustStore := map[];
    }

    method VerifyAndRegister(r: AgentRecord) returns (status: SignatureStatus)
      modifies this
      ensures Checked(status, trustStore) == CheckRecord(verifier, old(trustStore), r)
      ensures KeysKept(old(trustStore), trustStore)
    {
      status := SignatureStatusOf(verifier, r);
      if status != Valid {
        return;
      }
      var publicKey := DecodeHex(r.publicKeyHex);
      if publicKey == [] {
        return Invalid;
      }
      if r.agentId !in trustStore {
        trustStore := trustStore[r.agentId := publicKey];
        return Valid;
      }
      if trustStore[r.agentId] != publicKey {
        return Invalid;
      }
      return Valid;
    }
  }
}
