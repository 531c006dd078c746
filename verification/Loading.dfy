/** Loading recovered records into the registry at start-up. */
module Loading {
  import opened Records
  import opened Registry

  lemma {:induction false} LoadedAllSnoc(records: seq<AgentRecord>, list: seq<AgentRecord>, r: AgentRecord, farFuture: int)
    ensures LoadedAll(records, list + [r], farFuture) == Loaded(LoadedAll(records, list, farFuture), r, farFuture)
    decreases list
  {
    if list == [] {
      assert list + [r] == [r] && [r][1..] == [];
      assert LoadedAll(Loaded(records, r, farFuture), [], farFuture) == Loaded(records, r, farFuture);
    } else {
      assert (list + [r])[1..] == list[1..] + [r];
      LoadedAllSnoc(Loaded(records, list[0], farFuture), list[1..], r, farFuture);
    }
  }

  lemma {:induction false} LoadedAllUnique(records: seq<AgentRecord>, list: seq<AgentRecord>, farFuture: int)
    requires UniqueIds(records)
    ensures UniqueIds(LoadedAll(records, list, farFuture))
    decreases list
  {
    if list != [] {
      LoadKeepsUnique(records, list[0], farFuture);
      LoadedAllUnique(Loaded(records, list[0], farFuture), list[1..], farFuture);
    }
  }

  /** `w` is where the list first attains the highest revision of its agent. */
  ghost predicate FirstMaximum(list: seq<AgentRecord>, w: nat) {
    && w < |list|
    && (forall j :: 0 <= j < |list| && list[j].agentId == list[w].agentId ==> list[j].revision <= list[w].revision)
    && (forall j :: 0 <= j < w && list[j].agentId == list[w].agentId ==> list[j].revision < list[w].revision)
  }

  /** The record the load stores for the winner at `w`: far-future expiry only if it is the agent's first. */
  function Stored(list: seq<AgentRecord>, w: nat, farFuture: int): AgentRecord
    requires w < |list|
  {
    if Position(list, list[w].agentId) == w then list[w].(expiresAt := farFuture) else list[w]
  }

  lemma PositionByFirst(records: seq<AgentRecord>, id: string, i: nat)
    requires i <= |records|
    requires i < |records| ==> records[i].agentId == id
    requires forall j :: 0 <= j < i ==> records[j].agentId != id
    ensures Position(records, id) == i
  {
  }

  lemma PositionOfPrefix(list: seq<AgentRecord>, r: AgentRecord, id: string)
    ensures Has(list, id) ==> Position(list + [r], id) == Position(list, id)
    ensures !Has(list, id) ==> Position(list + [r], id) == if r.agentId == id then |list| else |list| + 1
  {
    assert forall i :: 0 <= i < |list| ==> (list + [r])[i] == list[i];
    PositionByFirst(list + [r], id,
      if Has(list, id) then Position(list, id) else if r.agentId == id then |list| else |list| + 1);
  }

  function LoadWinner(records: seq<AgentRecord>, r: AgentRecord, farFuture: int): AgentRecord {
    if !Has(records, r.agentId) then r.(expiresAt := farFuture)
    else if r.revision > Lookup(records, r.agentId).revision then r
    else Lookup(records, r.agentId)
  }

  lemma LoadedLookup(records: seq<AgentRecord>, r: AgentRecord, farFuture: int, id: string)
    requires UniqueIds(records)
    ensures var after := Loaded(records, r, farFuture);
      && (Has(after, id) <==> id == r.agentId || Has(records, id))
      && (id != r.agentId && Has(records, id) ==> Lookup(after, id) == Lookup(records, id))
      && (id == r.agentId ==> Lookup(after, id) == LoadWinner(records, r, farFuture))
  {
    LoadKeepsUnique(records, r, farFuture);
    var after := Loaded(records, r, farFuture);
    if Has(records, id) {
      var i := Position(records, id);
      assert after[i].agentId == id;
      PositionIs(after, i);
    } else if id == r.agentId {
      assert after[|records|].agentId == id;
      PositionIs(after, |records|);
    }
  }

  /** The same winner in a longer list, if the new record does not beat it. */
  lemma MaximumKept(front: seq<AgentRecord>, r: AgentRecord, v: nat, farFuture: int)
    requires FirstMaximum(front, v)
    requires r.agentId == front[v].agentId ==> r.revision <= front[v].revision
    ensures FirstMaximum(front + [r], v) && Stored(front + [r], v, farFuture) == Stored(front, v, farFuture)
  {
    assert (front + [r])[v] == front[v];
    HasIff(front, front[v].agentId);
    PositionOfPrefix(front, r, front[v].agentId);
  }

  /** The new record wins if it is the first of its agent or beats the old winner. */
  lemma MaximumMoves(front: seq<AgentRecord>, r: AgentRecord, farFuture: int)
    requires forall j :: 0 <= j < |front| && front[j].agentId == r.agentId ==> front[j].revision < r.revision
    ensures FirstMaximum(front + [r], |front|)
    ensures Stored(front + [r], |front|, farFuture) == if Has(front, r.agentId) then r else r.(expiresAt := farFuture)
  {
    PositionOfPrefix(front, r, r.agentId);
  }

  lemma {:induction false} LoadKeepsMaximum(list: seq<AgentRecord>, farFuture: int, id: string) returns (w: nat)
    ensures Has(LoadedAll([], list, farFuture), id) <==> Has(list, id)
    ensures Has(list, id) ==>
      && FirstMaximum(list, w) && list[w].agentId == id
      && Lookup(LoadedAll([], list, farFuture), id) == Stored(list, w, farFuture)
  {
    if list == [] {
      w := 0;
    } else {
      var front, r := list[..|list| - 1], list[|list| - 1];
      assert list == front + [r];
      LoadedAllSnoc([], front, r, farFuture);
      LoadedAllUnique([], front, farFuture);
      w := LoadKeepsMaximum(front, farFuture, id);
      LoadedLookup(LoadedAll([], front, farFuture), r, farFuture, id);
      PositionOfPrefix(front, r, id);
      if r.agentId == id && (!Has(front, id) || r.revision > front[w].revision) {
        MaximumMoves(front, r, farFuture);
        w := |front|;
      } else if Has(front, id) {
        MaximumKept(front, r, w, farFuture);
      }
    }
  }

  /**
   Loading any list into an empty registry keeps, for each agent, the first record
   with its highest revision; there is only one such.
   */
  lemma LoadKeepsFirstMaximum(list: seq<AgentRecord>, farFuture: int, id: string) returns (w: nat)
    ensures Has(LoadedAll([], list, farFuture), id) <==> Has(list, id)
    ensures Has(list, id) ==>
      && FirstMaximum(list, w) && list[w].agentId == id
      && (forall v: nat :: FirstMaximum(list, v) && list[v].agentId == id ==> v == w)
      && Lookup(LoadedAll([], list, farFuture), id) == Stored(list, w, farFuture)
  {
    w := LoadKeepsMaximum(list, farFuture, id);
  }

  /**
   A recovered agent survives the next purge exactly when no later record of the
   log raised its revision: a raised record keeps the expiry it was built with.
   */
  lemma RecoveredSurvivesPurge(list: seq<AgentRecord>, farFuture: int, now: int, id: string)
    requires Has(list, id) && now < farFuture
    requires forall r :: r in list ==> r.expiresAt <= now
    ensures Has(Purged(LoadedAll([], list, farFuture), now), id) <==>
            forall r :: r in list && r.agentId == id ==> r.revision <= Lookup(list, id).revision
  {
    var loaded, first := LoadedAll([], list, farFuture), Position(list, id);
    var w := LoadKeepsFirstMaximum(list, farFuture, id);
    LoadedAllUnique([], list, farFuture);
    PurgeRefines(loaded, now);
    ViewKeys(loaded, id);
    ViewKeys(Purged(loaded, now), id);
    assert list[w] in list;
    if forall r :: r in list && r.agentId == id ==> r.revision <= Lookup(list, id).revision {
      assert first == w;
    }
  }
}
