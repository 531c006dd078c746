/**
 What a merge does to one agent: the record that is held for it and the key that is
 pinned for it, and nothing else, decide what happens to its next record.
 */
module MergeCells {
  import opened Bytes
  import opened Records
  import opened Crypto
  import opened Identity
  import opened Registry

  /** The held record and the trusted key of one agent. */
  datatype Cell = Cell(held: Option<AgentRecord>, pin: Option<seq<byte>>)

  function CellAt(s: MergeState, id: string): Cell {
    Cell(if Has(s.records, id) then Some(Lookup(s.records, id)) else None,
         PinOf(s.store, id))
  }

  /** With an identity service: the signature is valid, so that the key is pinned or compared. */
  predicate Signed(identity: Option<Verifier>, r: AgentRecord) {
    identity.Some? && SignatureStatusOf(identity.value, r) == Valid
  }

  /** With an identity service: the signature is there and not valid. */
  predicate Barred(identity: Option<Verifier>, r: AgentRecord) {
    identity.Some? && SignatureStatusOf(identity.value, r) !in {Valid, Missing}
  }

  function KeyOf(r: AgentRecord): seq<byte> {
    Unhex(r.publicKeyHex)
  }

  /** The identity check lets the record through to the registry. */
  predicate Passes(identity: Option<Verifier>, pin: Option<seq<byte>>, r: AgentRecord) {
    !Barred(identity, r) && (Signed(identity, r) && pin.Some? ==> pin.value == KeyOf(r))
  }

  /** The same with a whole trust store. */
  predicate Admitted(identity: Option<Verifier>, store: TrustStore, r: AgentRecord) {
    Passes(identity, PinOf(store, r.agentId), r)
  }

  function Take(held: Option<AgentRecord>, r: AgentRecord): Option<AgentRecord> {
    if held.None? || Supersedes(r, held.value) then Some(r) else held
  }

  function StepCell(identity: Option<Verifier>, cell: Cell, r: AgentRecord): Cell {
    if !Passes(identity, cell.pin, r) then cell
    else Cell(Take(cell.held, r), if Signed(identity, r) then Some(KeyOf(r)) else cell.pin)
  }

  /** Only the agent's own records count. */
  function FoldCell(identity: Option<Verifier>, cell: Cell, list: seq<AgentRecord>, id: string): Cell
    decreases list
  {
    if list == [] then cell
    else FoldCell(identity, if list[0].agentId == id then StepCell(identity, cell, list[0]) else cell, list[1..], id)
  }

  // ---------- The merge is these steps ----------

  lemma StoreStep(identity: Option<Verifier>, s: MergeState, r: AgentRecord, id: string)
    ensures CellAt(MergeOne(identity, s, r), id).pin ==
            if r.agentId == id then StepCell(identity, CellAt(s, id), r).pin else CellAt(s, id).pin
  {
    if identity.Some? {
      CheckedPin(identity.value, s.store, r, id);
    }
  }

  function PinOf(store: TrustStore, id: string): Option<seq<byte>> {
    if id in store then Some(store[id]) else None
  }

  lemma CheckedPin(verifier: Verifier, store: TrustStore, r: AgentRecord, id: string)
    ensures PinOf(CheckRecord(verifier, store, r).store, id) ==
            if r.agentId == id && Passes(Some(verifier), PinOf(store, id), r) && Signed(Some(verifier), r)
            then Some(KeyOf(r)) else PinOf(store, id)
  {
  }

  lemma HeldStep(identity: Option<Verifier>, s: MergeState, r: AgentRecord, id: string)
    requires UniqueIds(s.records)
    ensures UniqueIds(MergeOne(identity, s, r).records)
    ensures CellAt(MergeOne(identity, s, r), id).held ==
            if r.agentId == id then StepCell(identity, CellAt(s, id), r).held else CellAt(s, id).held
  {
    UpsertKeepsUnique(s.records, r);
    UpsertLookup(s.records, r, id);
    MergeOnePasses(identity, s, r);
  }

  lemma MergeOnePasses(identity: Option<Verifier>, s: MergeState, r: AgentRecord)
    ensures MergeOne(identity, s, r).records ==
            if Passes(identity, CellAt(s, r.agentId).pin, r) then Upserted(s.records, r) else s.records
  {
  }

  /** What a merge makes of one agent is the fold of its own records. */
  lemma {:induction false} MergeIsFold(identity: Option<Verifier>, s: MergeState, list: seq<AgentRecord>, id: string)
    requires UniqueIds(s.records)
    ensures CellAt(MergeAll(identity, s, list), id) == FoldCell(identity, CellAt(s, id), list, id)
    ensures UniqueIds(MergeAll(identity, s, list).records)
    decreases list
  {
    if list != [] {
      StoreStep(identity, s, list[0], id);
      HeldStep(identity, s, list[0], id);
      MergeIsFold(identity, MergeOne(identity, s, list[0]), list[1..], id);
    }
  }

  // ---------- Folds ----------

  lemma {:induction false} FoldConcat(identity: Option<Verifier>, cell: Cell, x: seq<AgentRecord>, y: seq<AgentRecord>, id: string)
    ensures FoldCell(identity, cell, x + y, id) == FoldCell(identity, FoldCell(identity, cell, x, id), y, id)
    decreases x
  {
    if x == [] {
      assert x + y == y;
    } else {
      assert (x + y)[0] == x[0] && (x + y)[1..] == x[1..] + y;
      FoldConcat(identity, if x[0].agentId == id then StepCell(identity, cell, x[0]) else cell, x[1..], y, id);
    }
  }

  lemma FoldOne(identity: Option<Verifier>, cell: Cell, r: AgentRecord)
    ensures FoldCell(identity, cell, [r], r.agentId) == StepCell(identity, cell, r)
  {
    var next := StepCell(identity, cell, r);
    assert [r][1..] == [];
    assert FoldCell(identity, next, [], r.agentId) == next;
  }

  /** A pinned key stays. */
  lemma {:induction false} PinStays(identity: Option<Verifier>, cell: Cell, list: seq<AgentRecord>, id: string)
    requires cell.pin.Some?
    ensures FoldCell(identity, cell, list, id).pin == cell.pin
    decreases list
  {
    if list != [] {
      PinStays(identity, if list[0].agentId == id then StepCell(identity, cell, list[0]) else cell, list[1..], id);
    }
  }

  /** A record that is not held and does not come, or never passes, is not held in the end. */
  lemma {:induction false} NeverHeld(identity: Option<Verifier>, cell: Cell, list: seq<AgentRecord>, id: string, f: AgentRecord)
    requires cell.held != Some(f)
    requires f !in list || (Signed(identity, f) && cell.pin.Some? && cell.pin.value != KeyOf(f))
    ensures FoldCell(identity, cell, list, id).held != Some(f)
    decreases list
  {
    if list != [] {
      var next := if list[0].agentId == id then StepCell(identity, cell, list[0]) else cell;
      assert next.held != Some(f);
      NeverHeld(identity, next, list[1..], id, f);
    }
  }
}
