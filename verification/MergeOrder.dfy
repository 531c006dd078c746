/** When the order of a merge matters, and when it does not. */
module MergeOrder {
  import opened Bytes
  import opened Records
  import opened Crypto
  import opened Registry
  import opened MergeCells

  ghost function Elements(s: seq<AgentRecord>): set<AgentRecord> {
    set r | r in s
  }

  // ---------- The condition ----------

  /** The listed records of an agent that pass the identity check at the start. */
  ghost function Admissible(identity: Option<Verifier>, start: Cell, listed: set<AgentRecord>, id: string): set<AgentRecord> {
    set r | r in listed && r.agentId == id && Passes(identity, start.pin, r)
  }

  /** Two signed records compete for being pinned. */
  ghost predicate Contested(identity: Option<Verifier>, start: Cell, a: set<AgentRecord>) {
    start.pin.None? && exists p, q :: p in a && q in a && Signed(identity, p) && Signed(identity, q) && KeyOf(p) != KeyOf(q)
  }

  /** An unkeyed record lies between two revisions: it lets go of the stored key. */
  ghost predicate Bridged(a: set<AgentRecord>, low: u64, high: u64) {
    exists e :: e in a && e.publicKeyHex == "" && low <= e.revision <= high
  }

  /** Some order brings the agent to hold `s` on the way. */
  ghost predicate Reach(held: Option<AgentRecord>, a: set<AgentRecord>, s: AgentRecord) {
    || held == Some(s)
    || (s in a && (held.Some? ==>
          s.revision >= held.value.revision
          && (KeyConflict(held.value, s) ==> Bridged(a, held.value.revision, s.revision))))
  }

  /**
   `f` is the end whatever the order: nothing replaces it, it replaces everything that
   can be held before it, and if keys compete for being pinned it does not need one.
   */
  ghost predicate Final(identity: Option<Verifier>, start: Cell, a: set<AgentRecord>, f: AgentRecord) {
    && (start.held == Some(f) || f in a)
    && (forall q :: q in a && q != f ==> !Supersedes(q, f))
    && (forall s :: Reach(start.held, a, s) ==> Supersedes(f, s))
    && (Contested(identity, start, a) ==> start.held == Some(f) || !Signed(identity, f))
  }

  ghost predicate Settled(identity: Option<Verifier>, start: Cell, a: set<AgentRecord>) {
    a != {} ==> exists f :: Final(identity, start, a, f)
  }

  /** Every list with the same records, in any order and with any repeats, leaves the agent the same. */
  ghost predicate CellOrderFree(identity: Option<Verifier>, start: Cell, xs: seq<AgentRecord>, id: string) {
    forall ys :: Elements(ys) == Elements(xs) ==>
      FoldCell(identity, start, ys, id).held == FoldCell(identity, start, xs, id).held
  }

  // ---------- Settled agents ----------

  lemma ReachStep(held: Option<AgentRecord>, a: set<AgentRecord>, s: AgentRecord, r: AgentRecord)
    requires Reach(held, a, s) && r in a && Supersedes(r, s)
    ensures Reach(held, a, r)
  {
    if held.Some? && KeyConflict(held.value, r) && held != Some(s) {
      if s.publicKeyHex == "" {
        assert Bridged(a, held.value.revision, r.revision);
      } else {
        assert KeyConflict(held.value, s);
        var e :| e in a && e.publicKeyHex == "" && held.value.revision <= e.revision <= s.revision;
      }
    }
  }

  /** The key pinned on the way is the one pinned at the start, or that of a signed record. */
  ghost predicate PinFrom(identity: Option<Verifier>, start: Cell, a: set<AgentRecord>, pin: Option<seq<byte>>) {
    || pin == start.pin
    || (start.pin.None? && pin.Some? && exists q :: q in a && Signed(identity, q) && KeyOf(q) == pin.value)
  }

  /** What holds of the agent's cell on the way, with `seen` the records so far. */
  ghost predicate OnTheWay(identity: Option<Verifier>, start: Cell, a: set<AgentRecord>, cell: Cell) {
    && PinFrom(identity, start, a, cell.pin)
    && (cell.held.None? ==> start.held.None?)
    && (cell.held.Some? ==> Reach(start.held, a, cell.held.value))
  }

  lemma PassesOnTheWay(identity: Option<Verifier>, start: Cell, listed: set<AgentRecord>, id: string, cell: Cell, r: AgentRecord)
    requires var a := Admissible(identity, start, listed, id); OnTheWay(identity, start, a, cell)
    requires r in listed && r.agentId == id && Passes(identity, cell.pin, r)
    ensures r in Admissible(identity, start, listed, id)
  {
  }

  lemma StepOnTheWay(identity: Option<Verifier>, start: Cell, listed: set<AgentRecord>, id: string, cell: Cell, r: AgentRecord)
    requires OnTheWay(identity, start, Admissible(identity, start, listed, id), cell) && r in listed && r.agentId == id
    ensures OnTheWay(identity, start, Admissible(identity, start, listed, id), StepCell(identity, cell, r))
  {
    var a := Admissible(identity, start, listed, id);
    if Passes(identity, cell.pin, r) {
      PassesOnTheWay(identity, start, listed, id, cell, r);
      PinOnTheWay(identity, start, a, cell.pin, r);
      if cell.held.Some? && Supersedes(r, cell.held.value) {
        ReachStep(start.held, a, cell.held.value, r);
      }
    }
  }

  lemma PinOnTheWay(identity: Option<Verifier>, start: Cell, a: set<AgentRecord>, pin: Option<seq<byte>>, r: AgentRecord)
    requires PinFrom(identity, start, a, pin) && r in a && Passes(identity, pin, r)
    ensures PinFrom(identity, start, a, if Signed(identity, r) then Some(KeyOf(r)) else pin)
  {
  }

  /** A record that is final passes the identity check whenever it comes. */
  lemma FinalPasses(identity: Option<Verifier>, start: Cell, listed: set<AgentRecord>, id: string, cell: Cell, f: AgentRecord)
    requires var a := Admissible(identity, start, listed, id);
      OnTheWay(identity, start, a, cell) && Final(identity, start, a, f) && f in a && start.held != Some(f)
    ensures Passes(identity, cell.pin, f)
  {
    var a := Admissible(identity, start, listed, id);
    if Signed(identity, f) && cell.pin != start.pin {
      var q :| q in a && Signed(identity, q) && KeyOf(q) == cell.pin.value;
      assert !Contested(identity, start, a);
    }
  }

  /** Once the final record has come, or if it was there from the start, it is held. */
  ghost predicate Arrived(start: Cell, cell: Cell, f: AgentRecord, seen: bool) {
    seen || start.held == Some(f) ==> cell.held == Some(f)
  }

  lemma StepArrives(identity: Option<Verifier>, start: Cell, listed: set<AgentRecord>, id: string, cell: Cell, r: AgentRecord,
                    f: AgentRecord, seen: bool)
    requires var a := Admissible(identity, start, listed, id);
      OnTheWay(identity, start, a, cell) && Final(identity, start, a, f)
    requires r in listed && r.agentId == id && Arrived(start, cell, f, seen)
    ensures Arrived(start, StepCell(identity, cell, r), f, seen || (r == f && f in Admissible(identity, start, listed, id)))
  {
    var a := Admissible(identity, start, listed, id);
    if r == f && f in a && start.held != Some(f) {
      FinalPasses(identity, start, listed, id, cell, f);
    } else if (seen || start.held == Some(f)) && r != f && Passes(identity, cell.pin, r) {
      PassesOnTheWay(identity, start, listed, id, cell, r);
    }
  }

  lemma {:induction false} FoldArrives(identity: Option<Verifier>, start: Cell, listed: set<AgentRecord>, id: string, cell: Cell,
                                       list: seq<AgentRecord>, f: AgentRecord, seen: bool)
    requires var a := Admissible(identity, start, listed, id);
      OnTheWay(identity, start, a, cell) && Final(identity, start, a, f)
    requires Elements(list) <= listed && Arrived(start, cell, f, seen)
    ensures Arrived(start, FoldCell(identity, cell, list, id), f,
                    seen || (f in list && f in Admissible(identity, start, listed, id)))
    decreases list
  {
    if list != [] {
      var r, rest := list[0], list[1..];
      assert r in Elements(list);
      assert forall q :: q in rest ==> q in Elements(list);
      assert list == [r] + rest;
      if r.agentId == id {
        StepOnTheWay(identity, start, listed, id, cell, r);
        StepArrives(identity, start, listed, id, cell, r, f, seen);
        FoldArrives(identity, start, listed, id, StepCell(identity, cell, r), rest, f,
                    seen || (r == f && f in Admissible(identity, start, listed, id)));
      } else {
        FoldArrives(identity, start, listed, id, cell, rest, f, seen);
      }
    }
  }

  lemma {:induction false} FoldOnTheWay(identity: Option<Verifier>, start: Cell, listed: set<AgentRecord>, id: string, cell: Cell,
                                        list: seq<AgentRecord>)
    requires OnTheWay(identity, start, Admissible(identity, start, listed, id), cell) && Elements(list) <= listed
    ensures OnTheWay(identity, start, Admissible(identity, start, listed, id), FoldCell(identity, cell, list, id))
    decreases list
  {
    if list != [] {
      var r, rest := list[0], list[1..];
      assert r in Elements(list);
      assert forall q :: q in rest ==> q in Elements(list);
      if r.agentId == id {
        StepOnTheWay(identity, start, listed, id, cell, r);
        FoldOnTheWay(identity, start, listed, id, StepCell(identity, cell, r), rest);
      } else {
        FoldOnTheWay(identity, start, listed, id, cell, rest);
      }
    }
  }

  /** With a final record, every order ends with it. */
  lemma FinalIsEnd(identity: Option<Verifier>, start: Cell, ys: seq<AgentRecord>, id: string, f: AgentRecord)
    requires Final(identity, start, Admissible(identity, start, Elements(ys), id), f)
    ensures FoldCell(identity, start, ys, id).held == Some(f)
  {
    FoldArrives(identity, start, Elements(ys), id, start, ys, f, false);
  }

  /** Where nothing is admissible, nothing happens. */
  lemma NothingIsEnd(identity: Option<Verifier>, start: Cell, ys: seq<AgentRecord>, id: string)
    requires Admissible(identity, start, Elements(ys), id) == {}
    ensures FoldCell(identity, start, ys, id).held == start.held
  {
    FoldOnTheWay(identity, start, Elements(ys), id, start, ys);
  }

  lemma SettledIsOrderFree(identity: Option<Verifier>, start: Cell, xs: seq<AgentRecord>, id: string)
    requires Settled(identity, start, Admissible(identity, start, Elements(xs), id))
    ensures CellOrderFree(identity, start, xs, id)
  {
    var a := Admissible(identity, start, Elements(xs), id);
    forall ys | Elements(ys) == Elements(xs)
      ensures FoldCell(identity, start, ys, id).held == FoldCell(identity, start, xs, id).held
    {
      if a == {} {
        NothingIsEnd(identity, start, xs, id);
        NothingIsEnd(identity, start, ys, id);
      } else {
        var f :| Final(identity, start, a, f);
        FinalIsEnd(identity, start, xs, id, f);
        FinalIsEnd(identity, start, ys, id, f);
      }
    }
  }

  // ---------- Order-free agents are settled ----------

  lemma SameEnd(identity: Option<Verifier>, start: Cell, xs: seq<AgentRecord>, ys: seq<AgentRecord>, id: string)
    requires CellOrderFree(identity, start, xs, id) && Elements(ys) == Elements(xs)
    ensures FoldCell(identity, start, ys, id).held == FoldCell(identity, start, xs, id).held
  {
  }

  lemma FrontAdds(x: seq<AgentRecord>, ys: seq<AgentRecord>)
    requires Elements(x) <= Elements(ys)
    ensures Elements(x + ys) == Elements(ys) && Elements(ys + x) == Elements(ys)
  {
    forall r ensures r in x + ys <==> r in Elements(ys) {
      assert r in x ==> r in Elements(x);
    }
    forall r ensures r in ys + x <==> r in Elements(ys) {
      assert r in x ==> r in Elements(x);
    }
  }

  lemma StepPasses(identity: Option<Verifier>, start: Cell, listed: set<AgentRecord>, id: string, q: AgentRecord)
    requires q in Admissible(identity, start, listed, id)
    ensures var cell := StepCell(identity, start, q);
      && cell.held == Take(start.held, q) && (Signed(identity, q) ==> cell.pin == Some(KeyOf(q)))
      && Passes(identity, cell.pin, q)
  {
  }

  /** Coming first and once more at the end, an admissible record passes at the end. */
  lemma LastPasses(identity: Option<Verifier>, start: Cell, xs: seq<AgentRecord>, id: string, q: AgentRecord)
    requires q in Admissible(identity, start, Elements(xs), id)
    ensures Passes(identity, FoldCell(identity, start, [q] + xs, id).pin, q)
  {
    FoldConcat(identity, start, [q], xs, id);
    FoldOne(identity, start, q);
    StepPasses(identity, start, Elements(xs), id, q);
    if Signed(identity, q) {
      PinStays(identity, StepCell(identity, start, q), xs, id);
    }
  }

  /** Nothing admissible replaces the end. */
  lemma EndIsNotReplaced(identity: Option<Verifier>, start: Cell, xs: seq<AgentRecord>, id: string, f: AgentRecord, q: AgentRecord)
    requires CellOrderFree(identity, start, xs, id) && FoldCell(identity, start, xs, id).held == Some(f)
    requires q in Admissible(identity, start, Elements(xs), id) && q != f
    ensures !Supersedes(q, f)
  {
    FrontAdds([q], xs);
    FrontAdds([q], [q] + xs);
    SameEnd(identity, start, xs, [q] + xs, id);
    SameEnd(identity, start, xs, [q] + xs + [q], id);
    LastPasses(identity, start, xs, id, q);
    FoldConcat(identity, start, [q] + xs, [q], id);
    FoldOne(identity, FoldCell(identity, start, [q] + xs, id), q);
  }

  lemma UnkeyedPasses(identity: Option<Verifier>, pin: Option<seq<byte>>, e: AgentRecord)
    requires e.publicKeyHex == ""
    ensures Passes(identity, pin, e) && !Signed(identity, e)
  {
  }

  /** What can be held is held after at most two of the listed records. */
  lemma ReachedBy(identity: Option<Verifier>, start: Cell, listed: set<AgentRecord>, id: string, s: AgentRecord)
    returns (p: seq<AgentRecord>)
    requires Reach(start.held, Admissible(identity, start, listed, id), s)
    ensures Elements(p) <= listed && FoldCell(identity, start, p, id).held == Some(s)
  {
    var a := Admissible(identity, start, listed, id);
    if start.held == Some(s) {
      p := [];
    } else if start.held.Some? && KeyConflict(start.held.value, s) {
      var e :| e in a && e.publicKeyHex == "" && start.held.value.revision <= e.revision <= s.revision;
      p := [e] + [s];
      UnkeyedPasses(identity, start.pin, e);
      FoldConcat(identity, start, [e], [s], id);
      FoldOne(identity, start, e);
      FoldOne(identity, StepCell(identity, start, e), s);
    } else {
      p := [s];
      FoldOne(identity, start, s);
    }
  }

  function Without(list: seq<AgentRecord>, f: AgentRecord): (rest: seq<AgentRecord>)
    ensures f !in rest
    ensures forall r :: r in rest ==> r in list
    ensures forall r :: r in list && r != f ==> r in rest
  {
    if list == [] then []
    else if list[0] == f then Without(list[1..], f)
    else [list[0]] + Without(list[1..], f)
  }

  lemma FirstThenWithout(p: seq<AgentRecord>, f: AgentRecord, xs: seq<AgentRecord>)
    requires Elements(p) <= Elements(xs) && f in xs
    ensures Elements(p + [f] + Without(xs, f)) == Elements(xs)
  {
    forall r ensures r in p + [f] + Without(xs, f) <==> r in xs {
      assert r in p ==> r in Elements(p);
    }
  }

  /** The end replaces everything that can be held before it. */
  lemma EndReplaces(identity: Option<Verifier>, start: Cell, xs: seq<AgentRecord>, id: string, f: AgentRecord, s: AgentRecord)
    requires CellOrderFree(identity, start, xs, id) && FoldCell(identity, start, xs, id).held == Some(f)
    requires f in xs && f.agentId == id && Reach(start.held, Admissible(identity, start, Elements(xs), id), s)
    ensures Supersedes(f, s)
  {
    var p := ReachedBy(identity, start, Elements(xs), id, s);
    var cell, rest := FoldCell(identity, start, p, id), Without(xs, f);
    FirstThenWithout(p, f, xs);
    SameEnd(identity, start, xs, p + [f] + rest, id);
    FoldConcat(identity, start, p + [f], rest, id);
    FoldConcat(identity, start, p, [f], id);
    FoldOne(identity, cell, f);
    if !Supersedes(f, s) {
      assert StepCell(identity, cell, f).held == Some(s) && s != f;
      NeverHeld(identity, StepCell(identity, cell, f), rest, id, f);
    }
  }

  /** If the stored record is the end, nothing else can be held. */
  lemma StoredEndReplaces(held: AgentRecord, a: set<AgentRecord>, s: AgentRecord)
    requires forall q :: q in a && q != held ==> !Supersedes(q, held)
    requires Reach(Some(held), a, s)
    ensures Supersedes(held, s)
  {
    if s != held && KeyConflict(held, s) {
      var e :| e in a && e.publicKeyHex == "" && held.revision <= e.revision <= s.revision;
      assert Supersedes(e, held);
    }
  }

  /** Where keys compete for being pinned, the end does not need one. */
  lemma ContestedEnd(identity: Option<Verifier>, start: Cell, xs: seq<AgentRecord>, id: string, f: AgentRecord)
    requires CellOrderFree(identity, start, xs, id) && FoldCell(identity, start, xs, id).held == Some(f)
    requires Contested(identity, start, Admissible(identity, start, Elements(xs), id)) && start.held != Some(f)
    ensures !Signed(identity, f)
  {
    var a := Admissible(identity, start, Elements(xs), id);
    var p, q :| p in a && q in a && Signed(identity, p) && Signed(identity, q) && KeyOf(p) != KeyOf(q);
    var b := if KeyOf(p) == KeyOf(f) then q else p;
    FrontAdds([b], xs);
    SameEnd(identity, start, xs, [b] + xs, id);
    FoldConcat(identity, start, [b], xs, id);
    FoldOne(identity, start, b);
    StepPasses(identity, start, Elements(xs), id, b);
    if Signed(identity, f) {
      assert StepCell(identity, start, b).held != Some(f);
      NeverHeld(identity, StepCell(identity, start, b), xs, id, f);
    }
  }

  lemma SomethingHeld(identity: Option<Verifier>, start: Cell, xs: seq<AgentRecord>, id: string)
    requires CellOrderFree(identity, start, xs, id) && Admissible(identity, start, Elements(xs), id) != {}
    ensures FoldCell(identity, start, xs, id).held.Some?
  {
    var q :| q in Admissible(identity, start, Elements(xs), id);
    FrontAdds([q], xs);
    SameEnd(identity, start, xs, [q] + xs, id);
    FoldConcat(identity, start, [q], xs, id);
    FoldOne(identity, start, q);
    HeldStays(identity, StepCell(identity, start, q), xs, id);
  }

  lemma {:induction false} HeldStays(identity: Option<Verifier>, cell: Cell, list: seq<AgentRecord>, id: string)
    requires cell.held.Some?
    ensures FoldCell(identity, cell, list, id).held.Some?
    decreases list
  {
    if list != [] {
      HeldStays(identity, if list[0].agentId == id then StepCell(identity, cell, list[0]) else cell, list[1..], id);
    }
  }

  lemma EndIsFinal(identity: Option<Verifier>, start: Cell, xs: seq<AgentRecord>, id: string, f: AgentRecord)
    requires CellOrderFree(identity, start, xs, id) && FoldCell(identity, start, xs, id).held == Some(f)
    ensures Final(identity, start, Admissible(identity, start, Elements(xs), id), f)
  {
    var a := Admissible(identity, start, Elements(xs), id);
    FoldOnTheWay(identity, start, Elements(xs), id, start, xs);
    forall q | q in a && q != f ensures !Supersedes(q, f) { EndIsNotReplaced(identity, start, xs, id, f, q); }
    forall s | Reach(start.held, a, s) ensures Supersedes(f, s) {
      if start.held == Some(f) {
        StoredEndReplaces(f, a, s);
      } else {
        EndReplaces(identity, start, xs, id, f, s);
      }
    }
    if Contested(identity, start, a) && start.held != Some(f) {
      ContestedEnd(identity, start, xs, id, f);
    }
  }

  lemma CellOrderFreeIff(identity: Option<Verifier>, start: Cell, xs: seq<AgentRecord>, id: string)
    ensures CellOrderFree(identity, start, xs, id) <==> Settled(identity, start, Admissible(identity, start, Elements(xs), id))
  {
    if Settled(identity, start, Admissible(identity, start, Elements(xs), id)) {
      SettledIsOrderFree(identity, start, xs, id);
    } else if CellOrderFree(identity, start, xs, id) {
      SomethingHeld(identity, start, xs, id);
      EndIsFinal(identity, start, xs, id, FoldCell(identity, start, xs, id).held.value);
    }
  }

  // ---------- The merge ----------

  ghost function MergedView(identity: Option<Verifier>, start: MergeState, list: seq<AgentRecord>): map<string, AgentRecord> {
    View(MergeAll(identity, start, list).records)
  }

  /** Every list with the same records, in any order and with any repeats, merges into the same map. */
  ghost predicate OrderFree(identity: Option<Verifier>, start: MergeState, xs: seq<AgentRecord>) {
    forall ys :: Elements(ys) == Elements(xs) ==> MergedView(identity, start, ys) == MergedView(identity, start, xs)
  }

  /** The agent's held record and pinned key at the start, and its admissible records in the list, settle it. */
  ghost predicate AgentSettled(identity: Option<Verifier>, start: MergeState, xs: seq<AgentRecord>, id: string) {
    Settled(identity, CellAt(start, id), Admissible(identity, CellAt(start, id), Elements(xs), id))
  }

  lemma ViewIsFold(identity: Option<Verifier>, start: MergeState, list: seq<AgentRecord>, id: string)
    requires UniqueIds(start.records)
    ensures var v, held := MergedView(identity, start, list), FoldCell(identity, CellAt(start, id), list, id).held;
      (id in v <==> held.Some?) && (id in v ==> v[id] == held.value)
  {
    MergeIsFold(identity, start, list, id);
    ViewKeys(MergeAll(identity, start, list).records, id);
  }

  lemma OrderFreeCells(identity: Option<Verifier>, start: MergeState, xs: seq<AgentRecord>, id: string)
    requires UniqueIds(start.records) && OrderFree(identity, start, xs)
    ensures CellOrderFree(identity, CellAt(start, id), xs, id)
  {
    forall ys | Elements(ys) == Elements(xs)
      ensures FoldCell(identity, CellAt(start, id), ys, id).held == FoldCell(identity, CellAt(start, id), xs, id).held
    {
      ViewIsFold(identity, start, xs, id);
      ViewIsFold(identity, start, ys, id);
      assert MergedView(identity, start, ys) == MergedView(identity, start, xs);
    }
  }

  lemma CellsOrderFree(identity: Option<Verifier>, start: MergeState, xs: seq<AgentRecord>, ys: seq<AgentRecord>)
    requires UniqueIds(start.records) && Elements(ys) == Elements(xs)
    requires forall id :: CellOrderFree(identity, CellAt(start, id), xs, id)
    ensures MergedView(identity, start, ys) == MergedView(identity, start, xs)
  {
    var v, w := MergedView(identity, start, ys), MergedView(identity, start, xs);
    forall id
      ensures id in v <==> id in w
      ensures id in v ==> v[id] == w[id]
    {
      SameEnd(identity, CellAt(start, id), xs, ys, id);
      ViewIsFold(identity, start, xs, id);
      ViewIsFold(identity, start, ys, id);
    }
  }

  /**
   From any registry and trust store, with or without an identity service, whatever
   keys the records show: the order of a merge does not matter if and only if every
   agent is settled.
   */
  lemma MergeOrderFreeIff(identity: Option<Verifier>, start: MergeState, xs: seq<AgentRecord>)
    requires UniqueIds(start.records)
    ensures OrderFree(identity, start, xs) <==> forall id :: AgentSettled(identity, start, xs, id)
  {
    if OrderFree(identity, start, xs) {
      forall id ensures AgentSettled(identity, start, xs, id) {
        OrderFreeCells(identity, start, xs, id);
        CellOrderFreeIff(identity, CellAt(start, id), xs, id);
      }
    }
    if forall id :: AgentSettled(identity, start, xs, id) {
      forall id ensures CellOrderFree(identity, CellAt(start, id), xs, id) {
        assert AgentSettled(identity, start, xs, id);
        CellOrderFreeIff(identity, CellAt(start, id), xs, id);
      }
      forall ys | Elements(ys) == Elements(xs) ensures MergedView(identity, start, ys) == MergedView(identity, start, xs) {
        CellsOrderFree(identity, start, xs, ys);
      }
    }
  }

  // ---------- Special cases ----------

  /** One record of the agent is newer than all its others and conflicts with none of them in key. */
  ghost predicate Dominated(xs: seq<AgentRecord>, id: string) {
    exists w :: w in xs && w.agentId == id && Dominates(xs, w)
  }

  ghost predicate Dominates(xs: seq<AgentRecord>, w: AgentRecord) {
    forall q :: q in xs && q.agentId == w.agentId && q != w ==> q.revision < w.revision && !KeyConflict(q, w)
  }

  /** For an agent that is not there yet, and without an identity service, the condition is short. */
  lemma NewAgentSettledIff(start: MergeState, xs: seq<AgentRecord>, id: string)
    requires !Has(start.records, id)
    ensures AgentSettled(None, start, xs, id) <==> ((exists r :: r in xs && r.agentId == id) ==> Dominated(xs, id))
  {
    var cell := CellAt(start, id);
    var a := Admissible(None, cell, Elements(xs), id);
    assert forall r :: r in a <==> r in xs && r.agentId == id;
    forall f ensures Final(None, cell, a, f) <==> f in xs && f.agentId == id && Dominates(xs, f) {
      NewAgentFinal(cell, xs, id, f, a);
    }
  }

  lemma NewAgentFinal(cell: Cell, xs: seq<AgentRecord>, id: string, f: AgentRecord, a: set<AgentRecord>)
    requires cell.held.None? && forall r :: r in a <==> r in xs && r.agentId == id
    ensures Final(None, cell, a, f) <==> f in xs && f.agentId == id && Dominates(xs, f)
  {
    if f in a && Final(None, cell, a, f) {
      forall q | q in xs && q.agentId == id && q != f ensures q.revision < f.revision && !KeyConflict(q, f) {
        assert Reach(cell.held, a, q);
      }
    }
    if f in a && Dominates(xs, f) {
      forall s | Reach(cell.held, a, s) ensures Supersedes(f, s) {
        assert s in a;
      }
    }
  }

  /** No agent shows two keys. */
  ghost predicate OneKeyEach(s: set<AgentRecord>) {
    forall a, b :: a in s && b in s && a.agentId == b.agentId ==> !KeyConflict(a, b)
  }

  /** Agent and revision fix the record. */
  ghost predicate RevisionFixesRecord(s: set<AgentRecord>) {
    forall a, b :: a in s && b in s && a.agentId == b.agentId && a.revision == b.revision ==> a == b
  }

  lemma {:induction false} TopOf(a: set<AgentRecord>) returns (top: AgentRecord)
    requires a != {}
    ensures top in a && forall q :: q in a ==> q.revision <= top.revision
    decreases |a|
  {
    top :| top in a;
    if a != {top} {
      var other := TopOf(a - {top});
      if other.revision > top.revision {
        top := other;
      }
    }
  }

  lemma TopIsFinal(identity: Option<Verifier>, cell: Cell, a: set<AgentRecord>, id: string, top: AgentRecord)
    requires forall q :: q in a ==> q.agentId == id
    requires cell.held.Some? ==> cell.held.value.agentId == id
    requires OneKeyEach(if cell.held.Some? then a + {cell.held.value} else a) && RevisionFixesRecord(a)
    requires top in a && forall q :: q in a ==> q.revision <= top.revision
    ensures Settled(identity, cell, a)
  {
    var all := if cell.held.Some? then a + {cell.held.value} else a;
    var f := if cell.held.Some? && cell.held.value.revision > top.revision then cell.held.value else top;
    forall q | q in a && q != f ensures !Supersedes(q, f) {
      assert q.revision == top.revision ==> q == top;
    }
    forall s | Reach(cell.held, a, s) ensures Supersedes(f, s) {
      assert s in all && f in all;
    }
    forall p, q | p in a && q in a && Signed(identity, p) && Signed(identity, q) ensures KeyOf(p) == KeyOf(q) {
      assert p in all && q in all && !KeyConflict(p, q);
    }
    assert Final(identity, cell, a, f);
  }

  lemma CoherentAgentSettled(identity: Option<Verifier>, start: MergeState, xs: seq<AgentRecord>, id: string)
    requires OneKeyEach(Elements(start.records) + Elements(xs)) && RevisionFixesRecord(Elements(xs))
    ensures AgentSettled(identity, start, xs, id)
  {
    var cell := CellAt(start, id);
    var a := Admissible(identity, cell, Elements(xs), id);
    if a != {} {
      var top := TopOf(a);
      var all := if cell.held.Some? then a + {cell.held.value} else a;
      if cell.held.Some? {
        assert cell.held.value in start.records;
      }
      assert all <= Elements(start.records) + Elements(xs);
      TopIsFinal(identity, cell, a, id, top);
    }
  }

  /** In particular the order does not matter where agent and revision fix the record and no agent shows two keys. */
  lemma MergeOrderIrrelevant(identity: Option<Verifier>, start: MergeState, xs: seq<AgentRecord>, ys: seq<AgentRecord>)
    requires UniqueIds(start.records) && Elements(xs) == Elements(ys)
    requires OneKeyEach(Elements(start.records) + Elements(xs)) && RevisionFixesRecord(Elements(xs))
    ensures View(MergeAll(identity, start, xs).records) == View(MergeAll(identity, start, ys).records)
  {
    forall id ensures AgentSettled(identity, start, xs, id) { CoherentAgentSettled(identity, start, xs, id); }
    MergeOrderFreeIff(identity, start, xs);
    assert MergedView(identity, start, ys) == MergedView(identity, start, xs);
  }

  // ---------- Two records, keys included ----------

  /** Two records of an agent that is not there yet commute unless they tie or conflict in key. */
  lemma PairCommutesIff(start: MergeState, a: AgentRecord, b: AgentRecord)
    requires UniqueIds(start.records) && !Has(start.records, a.agentId) && a.agentId == b.agentId
    ensures View(MergeAll(None, start, [a, b]).records) == View(MergeAll(None, start, [b, a]).records) <==>
            a == b || (a.revision != b.revision && !KeyConflict(a, b))
  {
    var m, id := View(start.records), a.agentId;
    var first, second := if Supersedes(b, a) then b else a, if Supersedes(a, b) then a else b;
    PairView(start, a, b);
    PairView(start, b, a);
    assert m[id := first][id] == first && m[id := second][id] == second;
    assert first == second <==> a == b || (a.revision != b.revision && !KeyConflict(a, b));
  }

  lemma MergeTwo(start: MergeState, a: AgentRecord, b: AgentRecord)
    ensures MergeAll(None, start, [a, b]).records == Upserted(Upserted(start.records, a), b)
  {
    var one := MergeOne(None, start, a);
    assert [a, b][1..] == [b] && [b][1..] == [];
    assert MergeAll(None, one, [b]) == MergeOne(None, one, b);
  }

  lemma PairView(start: MergeState, a: AgentRecord, b: AgentRecord)
    requires UniqueIds(start.records) && !Has(start.records, a.agentId) && a.agentId == b.agentId
    ensures View(MergeAll(None, start, [a, b]).records)
            == View(start.records)[a.agentId := if Supersedes(b, a) then b else a]
  {
    var one := Upserted(start.records, a);
    MergeTwo(start, a, b);
    UpsertKeepsUnique(start.records, a);
    UpsertRefines(start.records, a);
    UpsertRefines(one, b);
    ViewKeys(start.records, a.agentId);
    MapPair(View(start.records), a, b);
  }

  lemma MapPair(m: map<string, AgentRecord>, a: AgentRecord, b: AgentRecord)
    requires a.agentId !in m && a.agentId == b.agentId
    ensures MapUpsert(MapUpsert(m, a), b) == m[a.agentId := if Supersedes(b, a) then b else a]
  {
  }
}
