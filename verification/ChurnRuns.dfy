/** Whole runs of the churn simulator. */
module ChurnRuns {
  import opened Text
  import opened Churn

  ghost predicate Distinct(cluster: seq<SimNode>) {
    forall i, j :: 0 <= i < j < |cluster| ==> cluster[i] != cluster[j]
  }

  ghost function Tables(cluster: seq<SimNode>): (ts: seq<Table>)
    reads cluster
    ensures |ts| == |cluster| && forall i :: 0 <= i < |cluster| ==> ts[i] == cluster[i].registry
  {
    seq(|cluster|, i requires 0 <= i < |cluster| reads cluster => cluster[i].registry)
  }

  // ---------- What holds of a run ----------

  ghost predicate Grows(a: Ledger, b: Ledger) {
    forall id :: id in a ==> id in b && b[id] == a[id]
  }

  lemma GoodGrows(m: Table, a: Ledger, b: Ledger, time: int)
    requires Good(m, a, time) && Grows(a, b)
    ensures Good(m, b, time)
  {
    forall id | id in m ensures OnTime(m, id, b, time) { assert OnTime(m, id, a, time); }
  }

  ghost predicate AllGood(ts: seq<Table>, ledger: Ledger, time: int) {
    forall i :: 0 <= i < |ts| ==> Good(ts[i], ledger, time)
  }

  lemma AllGoodGrows(ts: seq<Table>, a: Ledger, b: Ledger, time: int)
    requires AllGood(ts, a, time) && Grows(a, b)
    ensures AllGood(ts, b, time)
  {
    forall i | 0 <= i < |ts| ensures Good(ts[i], b, time) { GoodGrows(ts[i], a, b, time); }
  }

  ghost predicate AllAdvance(before: seq<Table>, after: seq<Table>) {
    |before| == |after| && forall i :: 0 <= i < |before| ==> Advances(before[i], after[i])
  }

  /** `history` holds the tables at every round boundary. */
  ghost predicate GoodAt(history: seq<seq<Table>>, ledger: Ledger, k: nat)
    requires k < |history|
  {
    AllGood(history[k], ledger, k)
  }

  ghost predicate AdvanceAt(history: seq<seq<Table>>, k: nat)
    requires k + 1 < |history|
  {
    AllAdvance(history[k], history[k + 1])
  }

  ghost predicate Kept(history: seq<seq<Table>>, ledger: Ledger) {
    && (forall k :: 0 <= k < |history| ==> GoodAt(history, ledger, k))
    && (forall k :: 0 <= k < |history| - 1 ==> AdvanceAt(history, k))
  }

  lemma KeptSnoc(history: seq<seq<Table>>, a: Ledger, b: Ledger, next: seq<Table>)
    requires history != [] && Kept(history, a) && Grows(a, b)
    requires AllGood(next, b, |history|) && AllAdvance(history[|history| - 1], next)
    ensures Kept(history + [next], b)
  {
    var more := history + [next];
    forall k | 0 <= k < |more| ensures GoodAt(more, b, k) {
      if k < |history| {
        assert GoodAt(history, a, k);
        AllGoodGrows(history[k], a, b, k);
      }
    }
    forall k | 0 <= k < |more| - 1 ensures AdvanceAt(more, k) {
      if k + 1 < |history| {
        assert AdvanceAt(history, k);
      }
    }
  }

  /** The nodes that hold an agent agree on its revision and on its positive time left. */
  ghost predicate CopiesAgree(ts: seq<Table>) {
    forall i, j, id :: 0 <= i < |ts| && 0 <= j < |ts| && id in ts[i] && id in ts[j] ==>
      ts[i][id] == ts[j][id] && ts[i][id].ttl > 0
  }

  /** The agent left this node in the round after boundary `k`. */
  ghost predicate Expires(history: seq<seq<Table>>, k: nat, i: nat, id: string) {
    && k + 1 < |history| && i < |history[k]| && i < |history[k + 1]|
    && id in history[k][i] && id !in history[k + 1][i]
  }

  ghost predicate Present(history: seq<seq<Table>>, l: nat, j: nat, id: string) {
    l < |history| && j < |history[l]| && id in history[l][j]
  }

  lemma CopiesAgreeAt(history: seq<seq<Table>>, ledger: Ledger, k: nat)
    requires Kept(history, ledger) && k < |history|
    ensures CopiesAgree(history[k])
  {
    assert GoodAt(history, ledger, k);
    var ts: seq<Table> := history[k];
    forall i: nat, j: nat, id: string | i < |ts| && j < |ts| && id in ts[i] && id in ts[j]
      ensures ts[i][id] == ts[j][id] && ts[i][id].ttl > 0
    {
      assert OnTime(ts[i], id, ledger, k) && OnTime(ts[j], id, ledger, k);
    }
  }

  lemma ExpiryIsDeadline(history: seq<seq<Table>>, ledger: Ledger, k: nat, i: nat, id: string)
    requires Kept(history, ledger) && Expires(history, k, i, id)
    ensures id in ledger && ledger[id].deadline == k + 1
  {
    assert GoodAt(history, ledger, k) && AdvanceAt(history, k);
    assert Good(history[k][i], ledger, k) && Advances(history[k][i], history[k + 1][i]);
    assert OnTime(history[k][i], id, ledger, k);
  }

  lemma PresenceIsBeforeDeadline(history: seq<seq<Table>>, ledger: Ledger, l: nat, j: nat, id: string)
    requires Kept(history, ledger) && Present(history, l, j, id)
    ensures id in ledger && ledger[id].deadline > l
  {
    assert GoodAt(history, ledger, l);
    assert Good(history[l][j], ledger, l);
    assert OnTime(history[l][j], id, ledger, l);
  }

  /**
   An agent leaves a node exactly when the time left that any node showed for it, at
   any boundary, has passed.
   */
  lemma ExpiresOnTime(history: seq<seq<Table>>, ledger: Ledger, k: nat, i: nat, id: string, m: nat, j: nat)
    requires Kept(history, ledger) && Present(history, m, j, id)
    requires Present(history, k, i, id) && k + 1 < |history|
    ensures Expires(history, k, i, id) <==> m + history[m][j][id].ttl == k + 1
  {
    DeadlineShown(history, ledger, m, j, id);
    assert AdvanceAt(history, k);
    if Expires(history, k, i, id) {
      ExpiryIsDeadline(history, ledger, k, i, id);
    } else {
      PresenceIsBeforeDeadline(history, ledger, k + 1, i, id);
    }
  }

  lemma DeadlineShown(history: seq<seq<Table>>, ledger: Ledger, m: nat, j: nat, id: string)
    requires Kept(history, ledger) && Present(history, m, j, id)
    ensures id in ledger && ledger[id].deadline == m + history[m][j][id].ttl
  {
    assert GoodAt(history, ledger, m);
    assert Good(history[m][j], ledger, m);
    assert OnTime(history[m][j], id, ledger, m);
  }

  /** An agent that has expired on one node is on no node at that boundary or at any later one. */
  lemma ExpiredIsGone(history: seq<seq<Table>>, ledger: Ledger, k: nat, i: nat, id: string, l: nat, j: nat)
    requires Kept(history, ledger) && Expires(history, k, i, id) && l > k
    ensures !Present(history, l, j, id)
  {
    if Present(history, l, j, id) {
      ExpiryIsDeadline(history, ledger, k, i, id);
      PresenceIsBeforeDeadline(history, ledger, l, j, id);
    }
  }

  // ---------- What a run does ----------

  /** The seed agent `j` is on its node, as registered. */
  ghost predicate SeedAt(ts: seq<Table>, j: nat)
    requires ts != []
  {
    var id := "agent-" + Decimal(j);
    && id in ts[j % |ts|]
    && ts[j % |ts|][id].agentId == id && ts[j % |ts|][id].revision == j + 1 && 4 <= ts[j % |ts|][id].ttl <= 12
  }

  ghost predicate SeedOn(nodes: nat, i: nat, id: string, agents: nat)
    requires nodes > 0
  {
    exists j :: 0 <= j < agents && j % nodes == i && id == "agent-" + Decimal(j)
  }

  /** The nodes hold the seed agents, dealt out in turn, and no others. */
  ghost predicate Seeded(ts: seq<Table>, agents: nat) {
    && ts != []
    && (forall j: nat :: j < agents ==> SeedAt(ts, j))
    && (forall i: nat, id :: i < |ts| && id in ts[i] ==> SeedOn(|ts|, i, id, agents))
  }

  /** A node ticks, and perhaps the agent of the next revision joins it. */
  ghost predicate NodeTicks(before: Table, after: Table, revision: nat, next: nat) {
    || (next == revision && after == Ticked(before))
    || (next == revision + 1 && exists ttl :: 4 <= ttl <= 12 && after == Joined(before, next, ttl))
  }

  ghost function Joined(before: Table, revision: nat, ttl: int): Table {
    var id := "agent-new-" + Decimal(revision);
    Ticked(before)[id := SimAgent(id, revision, ttl)]
  }

  ghost predicate TickAt(before: seq<Table>, after: seq<Table>, revisions: seq<nat>, i: nat)
    requires i < |before| && i < |after| && i + 1 < |revisions|
  {
    NodeTicks(before[i], after[i], revisions[i], revisions[i + 1])
  }

  /** One node of two tells the other what it has above its highest revision, 32 agents at most, and the others rest. */
  ghost predicate GossipBetween(now: seq<Table>, next: seq<Table>, l: nat, r: nat, toRight: seq<SimAgent>, toLeft: seq<SimAgent>) {
    && l < |now| && r < |now| && l != r && |next| == |now|
    && Gossiped(now[l], now[r], 32, toRight, toLeft, next[l], next[r])
    && next == now[l := next[l]][r := next[r]]
  }

  ghost predicate OneGossip(now: seq<Table>, next: seq<Table>) {
    exists l: nat, r: nat, toRight, toLeft :: GossipBetween(now, next, l, r, toRight, toLeft)
  }

  ghost predicate GossipAt(chain: seq<seq<Table>>, g: nat)
    requires g + 1 < |chain|
  {
    OneGossip(chain[g], chain[g + 1])
  }

  /** What happened in a round: the revisions handed out, the tables after the ticks, and after each gossip. */
  datatype Trace = Trace(revisions: seq<nat>, ticked: seq<Table>, chain: seq<seq<Table>>)

  ghost predicate TickPhase(before: seq<Table>, trace: Trace) {
    && |trace.ticked| == |before| && |trace.revisions| == |before| + 1
    && forall i :: 0 <= i < |before| ==> TickAt(before, trace.ticked, trace.revisions, i)
  }

  ghost predicate Chained(first: seq<Table>, chain: seq<seq<Table>>, last: seq<Table>) {
    && chain != [] && chain[0] == first && chain[|chain| - 1] == last
    && forall g :: 0 <= g < |chain| - 1 ==> GossipAt(chain, g)
  }

  /** Every node ticks in turn, and then twice as many pairs gossip as there are nodes. */
  ghost predicate IsRound(before: seq<Table>, trace: Trace, after: seq<Table>) {
    TickPhase(before, trace) && |trace.chain| == 2 * |before| + 1 && Chained(trace.ticked, trace.chain, after)
  }

  ghost predicate RoundAt(history: seq<seq<Table>>, traces: seq<Trace>, k: nat)
    requires k < |traces| && k + 1 < |history|
  {
    IsRound(history[k], traces[k], history[k + 1])
  }

  /** The revision reached after the first rounds. */
  function Reached(agents: nat, traces: seq<Trace>): nat {
    if traces == [] || traces[|traces| - 1].revisions == [] then agents
    else traces[|traces| - 1].revisions[|traces[|traces| - 1].revisions| - 1]
  }

  /** Each round goes on with the revision the one before has reached. */
  ghost predicate GoesOn(agents: nat, traces: seq<Trace>, k: nat)
    requires k < |traces|
  {
    traces[k].revisions != [] && traces[k].revisions[0] == Reached(agents, traces[..k])
  }

  // ---------- The phases ----------

  ghost predicate AllValid(cluster: seq<SimNode>)
    reads cluster
  {
    forall i :: 0 <= i < |cluster| ==> cluster[i].Valid()
  }

  function NodeName(index: nat): string {
    "node-" + Decimal(index)
  }

  method BuildNodes(nodes: nat) returns (cluster: seq<SimNode>)
    ensures |cluster| == nodes && Distinct(cluster) && AllValid(cluster)
    ensures forall i :: 0 <= i < nodes ==> fresh(cluster[i]) && cluster[i].registry == map[]
    ensures forall i :: 0 <= i < nodes ==> cluster[i].nodeId == NodeName(i)
  {
    cluster := [];
    for index := 0 to nodes
      invariant |cluster| == index && Distinct(cluster) && AllValid(cluster)
      invariant forall i :: 0 <= i < index ==> fresh(cluster[i]) && cluster[i].registry == map[]
      invariant forall i :: 0 <= i < index ==> cluster[i].nodeId == NodeName(i)
    {
      var node := new SimNode(NodeName(index));
      cluster := cluster + [node];
    }
  }

  ghost predicate OnlySeeds(ledger: Ledger, seeds: nat) {
    forall id :: id in ledger ==> exists i :: 0 <= i < seeds && id == SeedName(i)
  }

  lemma NewEntryGrows(ledger: Ledger, id: string, birth: Birth)
    requires id !in ledger
    ensures Grows(ledger, ledger[id := birth])
  {
  }

  lemma UnknownIsAbsent(m: Table, ledger: Ledger, time: int, id: string)
    requires Good(m, ledger, time) && id !in ledger
    ensures id !in m
  {
  }

  /** A new agent enters the ledger and one node; the other nodes stay good. */
  method Join(cluster: seq<SimNode>, n: nat, a: SimAgent, ghost ledger: Ledger, ghost time: int) returns (ghost entered: Ledger)
    requires n < |cluster| && Distinct(cluster) && AllValid(cluster)
    requires a.agentId !in ledger && a.ttl > 0 && Good(cluster[n].registry, ledger, time)
    modifies cluster[n]
    ensures AllValid(cluster)
    ensures entered == ledger[a.agentId := Birth(a.revision, time + a.ttl)] && Grows(ledger, entered)
    ensures Good(cluster[n].registry, entered, time) && Extends(old(cluster[n].registry), cluster[n].registry)
    ensures cluster[n].registry == old(cluster[n].registry)[a.agentId := a]
  {
    entered := ledger[a.agentId := Birth(a.revision, time + a.ttl)];
    NewEntryGrows(ledger, a.agentId, Birth(a.revision, time + a.ttl));
    GoodGrows(cluster[n].registry, ledger, entered, time);
    RegisterGood(cluster[n].registry, entered, time, a);
    UnknownIsAbsent(cluster[n].registry, ledger, time, a.agentId);
    cluster[n].Register(a);
  }

  method SeedAgents(cluster: seq<SimNode>, agents: nat) returns (revision: nat, ghost ledger: Ledger)
    requires cluster != [] && Distinct(cluster) && AllValid(cluster)
    requires forall i :: 0 <= i < |cluster| ==> cluster[i].registry == map[]
    modifies cluster
    ensures AllValid(cluster) && revision == agents
    ensures AllGood(Tables(cluster), ledger, 0) && OnlySeeds(ledger, agents)
    ensures Seeded(Tables(cluster), agents)
  {
    revision, ledger := 0, map[];
    for index := 0 to agents
      invariant AllValid(cluster) && revision == index
      invariant AllGood(Tables(cluster), ledger, 0) && OnlySeeds(ledger, index)
      invariant Seeded(Tables(cluster), index)
    {
      revision := revision + 1;
      var ttl :| 4 <= ttl <= 12;
      SeedNameIsNew(ledger, index);
      ghost var before, known := Tables(cluster), ledger;
      ledger := Join(cluster, index % |cluster|, SimAgent(SeedName(index), revision, ttl), ledger, 0);
      OthersStayGood(before, Tables(cluster), index % |cluster|, known, ledger, 0);
      SeedStep(before, Tables(cluster), index, SimAgent(SeedName(index), revision, ttl));
    }
  }

  lemma SeedStays(before: seq<Table>, after: seq<Table>, n: nat, a: SimAgent, j: nat)
    requires before != [] && |after| == |before| && n < |before| && SeedAt(before, j)
    requires after == before[n := before[n][a.agentId := a]] && a.agentId != SeedName(j)
    ensures SeedAt(after, j)
  {
  }

  lemma SeedOnMore(nodes: nat, i: nat, id: string, agents: nat)
    requires nodes > 0 && SeedOn(nodes, i, id, agents)
    ensures SeedOn(nodes, i, id, agents + 1)
  {
  }

  lemma SeedStep(before: seq<Table>, after: seq<Table>, index: nat, a: SimAgent)
    requires Seeded(before, index) && |after| == |before|
    requires a.agentId == SeedName(index) && a.revision == index + 1 && 4 <= a.ttl <= 12
    requires after == before[index % |before| := before[index % |before|][a.agentId := a]]
    ensures Seeded(after, index + 1)
  {
    var n := index % |before|;
    forall j: nat | j < index + 1 ensures SeedAt(after, j) {
      if j < index {
        if SeedName(j) == SeedName(index) {
          SeedNameInjective(j, index);
        }
        SeedStays(before, after, n, a, j);
      }
    }
    forall i: nat, id | i < |after| && id in after[i] ensures SeedOn(|after|, i, id, index + 1) {
      if id in before[i] {
        SeedOnMore(|before|, i, id, index);
      }
    }
  }

  lemma OthersStayGood(before: seq<Table>, after: seq<Table>, n: nat, a: Ledger, b: Ledger, time: int)
    requires |before| == |after| && n < |after| && AllGood(before, a, time) && Grows(a, b)
    requires after == before[n := after[n]] && Good(after[n], b, time)
    ensures AllGood(after, b, time)
  {
    AllGoodGrows(before, a, b, time);
  }

  /** Mid-tick: the first `n` nodes have ticked. */
  ghost predicate Ticking(before: seq<Table>, now: seq<Table>, n: nat, ledger: Ledger, time: int) {
    && |before| == |now| && n <= |now|
    && (forall i :: 0 <= i < n ==> Good(now[i], ledger, time + 1) && Advances(before[i], now[i]))
    && (forall i :: n <= i < |now| ==> now[i] == before[i] && Good(now[i], ledger, time))
  }

  lemma TickingStep(before: seq<Table>, now: seq<Table>, n: nat, a: Ledger, b: Ledger, time: int, next: seq<Table>)
    requires Ticking(before, now, n, a, time) && n < |now| == |next| && Grows(a, b)
    requires next == now[n := next[n]] && Good(next[n], b, time + 1) && Advances(now[n], next[n])
    ensures Ticking(before, next, n + 1, b, time)
  {
    forall i | 0 <= i < n + 1 ensures Good(next[i], b, time + 1) && Advances(before[i], next[i]) {
      if i < n {
        GoodGrows(now[i], a, b, time + 1);
      }
    }
    forall i | n + 1 <= i < |next| ensures next[i] == before[i] && Good(next[i], b, time) {
      GoodGrows(now[i], a, b, time);
    }
  }

  lemma AdvanceThenExtend(m: Table, n: Table, p: Table)
    requires Advances(m, n) && Extends(n, p)
    ensures Advances(m, p)
  {
  }

  lemma CoinChurn(ledger: Ledger, seeds: nat, revision: nat, birth: Birth)
    requires AllCoined(ledger, seeds, revision)
    ensures AllCoined(ledger[ChurnName(revision + 1) := birth], seeds, revision + 1)
  {
    forall id | id in ledger ensures Coined(id, seeds, revision + 1) { assert Coined(id, seeds, revision); }
    assert Coined(ChurnName(revision + 1), seeds, revision + 1);
  }

  /** One node ticks, and perhaps gets a new agent. */
  method TickNode(cluster: seq<SimNode>, n: nat, before: nat, ghost seeds: nat, ghost ledger: Ledger, ghost time: int)
    returns (revision: nat, ghost entered: Ledger)
    requires n < |cluster| && Distinct(cluster) && AllValid(cluster)
    requires Good(cluster[n].registry, ledger, time) && AllCoined(ledger, seeds, before)
    modifies cluster[n]
    ensures AllValid(cluster)
    ensures Grows(ledger, entered) && AllCoined(entered, seeds, revision)
    ensures Good(cluster[n].registry, entered, time + 1) && Advances(old(cluster[n].registry), cluster[n].registry)
    ensures NodeTicks(old(cluster[n].registry), cluster[n].registry, before, revision)
  {
    TickIsGood(cluster[n].registry, ledger, time);
    cluster[n].Tick();
    revision, entered := before, ledger;
    var joins: bool := *;
    if joins {
      revision := revision + 1;
      var ttl :| 4 <= ttl <= 12;
      ChurnNameIsNew(ledger, seeds, before);
      CoinChurn(ledger, seeds, before, Birth(revision, time + 1 + ttl));
      ghost var ticked := cluster[n].registry;
      entered := Join(cluster, n, SimAgent(ChurnName(revision), revision, ttl), ledger, time + 1);
      AdvanceThenExtend(old(cluster[n].registry), ticked, cluster[n].registry);
      assert cluster[n].registry == Joined(old(cluster[n].registry), revision, ttl);
    }
  }

  method TickAll(cluster: seq<SimNode>, start: nat, ghost seeds: nat, ghost known: Ledger, ghost time: int)
    returns (revision: nat, ghost ledger: Ledger, ghost revisions: seq<nat>)
    requires Distinct(cluster) && AllValid(cluster)
    requires AllGood(Tables(cluster), known, time) && AllCoined(known, seeds, start)
    modifies cluster
    ensures AllValid(cluster)
    ensures Grows(known, ledger) && AllCoined(ledger, seeds, revision)
    ensures AllGood(Tables(cluster), ledger, time + 1) && AllAdvance(old(Tables(cluster)), Tables(cluster))
    ensures revisions != [] && revisions[0] == start && revisions[|revisions| - 1] == revision
    ensures TickPhase(old(Tables(cluster)), Trace(revisions, Tables(cluster), []))
  {
    revision, ledger, revisions := start, known, [start];
    ghost var before := Tables(cluster);
    for n := 0 to |cluster|
      invariant AllValid(cluster)
      invariant Grows(known, ledger) && AllCoined(ledger, seeds, revision)
      invariant Ticking(before, Tables(cluster), n, ledger, time)
      invariant |revisions| == n + 1 && revisions[0] == start && revisions[n] == revision
      invariant TicksSoFar(before, Tables(cluster), revisions, n)
    {
      ghost var now, entered := Tables(cluster), ledger;
      revision, entered := TickNode(cluster, n, revision, seeds, ledger, time);
      TickingStep(before, now, n, ledger, entered, time, Tables(cluster));
      TicksStep(before, now, revisions, n, Tables(cluster), revision);
      ledger, revisions := entered, revisions + [revision];
    }
  }

  ghost predicate TicksSoFar(before: seq<Table>, now: seq<Table>, revisions: seq<nat>, n: nat) {
    && |before| == |now| && n <= |now| && |revisions| == n + 1
    && forall i :: 0 <= i < n ==> TickAt(before, now, revisions, i)
  }

  lemma TicksStep(before: seq<Table>, now: seq<Table>, revisions: seq<nat>, n: nat, next: seq<Table>, revision: nat)
    requires TicksSoFar(before, now, revisions, n) && n < |now| == |next| && next == now[n := next[n]]
    requires NodeTicks(before[n], next[n], revisions[n], revision)
    ensures TicksSoFar(before, next, revisions + [revision], n + 1)
  {
    var more := revisions + [revision];
    forall i | 0 <= i < n + 1 ensures TickAt(before, next, more, i) {
      if i < n {
        assert TickAt(before, now, revisions, i);
      }
    }
  }

  ghost predicate AllExtend(before: seq<Table>, after: seq<Table>) {
    |before| == |after| && forall i :: 0 <= i < |before| ==> Extends(before[i], after[i])
  }

  lemma GossipStep(before: seq<Table>, now: seq<Table>, l: nat, r: nat, next: seq<Table>, ledger: Ledger, time: int)
    requires AllExtend(before, now) && l < |now| && r < |now| && l != r && |next| == |now|
    requires AllGood(now, ledger, time) && next == now[l := next[l]][r := next[r]]
    requires Good(next[l], ledger, time) && Good(next[r], ledger, time)
    requires Extends(now[l], next[l]) && Extends(now[r], next[r])
    ensures AllGood(next, ledger, time) && AllExtend(before, next)
  {
    forall i | 0 <= i < |next| ensures Good(next[i], ledger, time) && Extends(before[i], next[i]) {
      assert Good(now[i], ledger, time) && Extends(before[i], now[i]);
    }
  }

  method GossipPair(cluster: seq<SimNode>, l: nat, r: nat, limit: nat, ghost ledger: Ledger, ghost time: int)
    requires l < |cluster| && r < |cluster| && l != r && Distinct(cluster) && AllValid(cluster)
    requires Good(cluster[l].registry, ledger, time) && Good(cluster[r].registry, ledger, time)
    modifies cluster[l], cluster[r]
    ensures AllValid(cluster)
    ensures Good(cluster[l].registry, ledger, time) && Extends(old(cluster[l].registry), cluster[l].registry)
    ensures Good(cluster[r].registry, ledger, time) && Extends(old(cluster[r].registry), cluster[r].registry)
    ensures exists toRight, toLeft ::
              Gossiped(old(cluster[l].registry), old(cluster[r].registry), limit, toRight, toLeft,
                       cluster[l].registry, cluster[r].registry)
  {
    var left, right := cluster[l], cluster[r];
    ghost var before, other := left.registry, right.registry;
    ghost var toRight, toLeft;
    toRight, toLeft := GossipRound(left, right, limit);
    GossipGood(before, other, limit, toRight, toLeft, left.registry, right.registry, ledger, time);
  }

  method GossipAll(cluster: seq<SimNode>, times: nat, ghost ledger: Ledger, ghost time: int)
    returns (ghost chain: seq<seq<Table>>)
    requires |cluster| >= 2 && Distinct(cluster) && AllValid(cluster) && AllGood(Tables(cluster), ledger, time)
    modifies cluster
    ensures AllValid(cluster)
    ensures AllGood(Tables(cluster), ledger, time) && AllExtend(old(Tables(cluster)), Tables(cluster))
    ensures |chain| == times + 1 && Chained(old(Tables(cluster)), chain, Tables(cluster))
  {
    ghost var before := Tables(cluster);
    chain := [before];
    for g := 0 to times
      invariant AllValid(cluster)
      invariant AllGood(Tables(cluster), ledger, time) && AllExtend(before, Tables(cluster))
      invariant |chain| == g + 1 && Chained(before, chain, Tables(cluster))
    {
      ghost var now := Tables(cluster);
      GossipOnce(cluster, before, ledger, time);
      ChainStep(before, chain, now, Tables(cluster));
      chain := chain + [Tables(cluster)];
    }
  }

  lemma ChainStep(first: seq<Table>, chain: seq<seq<Table>>, now: seq<Table>, next: seq<Table>)
    requires Chained(first, chain, now) && OneGossip(now, next)
    ensures Chained(first, chain + [next], next)
  {
    var more := chain + [next];
    forall g | 0 <= g < |more| - 1 ensures GossipAt(more, g) {
      if g + 1 < |chain| {
        assert GossipAt(chain, g);
      }
    }
  }

  /** A random pair gossips. */
  method GossipOnce(cluster: seq<SimNode>, ghost before: seq<Table>, ghost ledger: Ledger, ghost time: int)
    requires |cluster| >= 2 && Distinct(cluster) && AllValid(cluster) && AllGood(Tables(cluster), ledger, time)
    requires AllExtend(before, Tables(cluster))
    modifies cluster
    ensures AllValid(cluster)
    ensures AllGood(Tables(cluster), ledger, time) && AllExtend(before, Tables(cluster))
    ensures OneGossip(old(Tables(cluster)), Tables(cluster))
  {
    assert 0 <= 0 < |cluster| && 0 <= 1 < |cluster|;
    var l :| 0 <= l < |cluster|;
    var r :| 0 <= r < |cluster| && (r < l || r > l);
    ghost var now := Tables(cluster);
    GossipPair(cluster, l, r, 32, ledger, time);
    GossipStep(before, now, l, r, Tables(cluster), ledger, time);
    GossipWitness(now, Tables(cluster), l, r);
  }

  lemma GossipWitness(now: seq<Table>, next: seq<Table>, l: nat, r: nat)
    requires l < |now| && r < |now| && l != r && |next| == |now| && next == now[l := next[l]][r := next[r]]
    requires exists toRight, toLeft :: Gossiped(now[l], now[r], 32, toRight, toLeft, next[l], next[r])
    ensures OneGossip(now, next)
  {
    var toRight, toLeft :| Gossiped(now[l], now[r], 32, toRight, toLeft, next[l], next[r]);
    assert GossipBetween(now, next, l, r, toRight, toLeft);
  }

  lemma AdvanceThenExtendAll(a: seq<Table>, b: seq<Table>, c: seq<Table>)
    requires AllAdvance(a, b) && AllExtend(b, c)
    ensures AllAdvance(a, c)
  {
    forall i | 0 <= i < |a| ensures Advances(a[i], c[i]) { AdvanceThenExtend(a[i], b[i], c[i]); }
  }

  method Round(cluster: seq<SimNode>, start: nat, ghost seeds: nat, ghost known: Ledger, ghost time: int)
    returns (revision: nat, ghost ledger: Ledger, ghost trace: Trace)
    requires |cluster| >= 2 && Distinct(cluster) && AllValid(cluster)
    requires AllGood(Tables(cluster), known, time) && AllCoined(known, seeds, start)
    modifies cluster
    ensures AllValid(cluster)
    ensures Grows(known, ledger) && AllCoined(ledger, seeds, revision)
    ensures AllGood(Tables(cluster), ledger, time + 1) && AllAdvance(old(Tables(cluster)), Tables(cluster))
    ensures IsRound(old(Tables(cluster)), trace, Tables(cluster))
    ensures trace.revisions[0] == start && trace.revisions[|trace.revisions| - 1] == revision
  {
    ghost var before := Tables(cluster);
    ghost var revisions, chain;
    revision, ledger, revisions := TickAll(cluster, start, seeds, known, time);
    ghost var ticked := Tables(cluster);
    chain := GossipAll(cluster, |cluster| * 2, ledger, time + 1);
    AdvanceThenExtendAll(before, ticked, Tables(cluster));
    trace := Trace(revisions, ticked, chain);
    forall i | 0 <= i < |before| ensures TickAt(before, ticked, revisions, i) {
      assert TickAt(before, Trace(revisions, ticked, []).ticked, revisions, i);
    }
  }

  lemma SeedsAreCoined(ledger: Ledger, seeds: nat, revision: nat)
    requires OnlySeeds(ledger, seeds)
    ensures AllCoined(ledger, seeds, revision)
  {
  }

  /**
   A whole run. `history` holds the tables at every round boundary, from the
   seeded cluster to the final one.
   */
  method RunSimulation(nodes: nat, agents: nat, rounds: nat)
    returns (cluster: seq<SimNode>, ghost history: seq<seq<Table>>, ghost ledger: Ledger, ghost traces: seq<Trace>)
    requires nodes >= 1 && (rounds > 0 ==> nodes >= 2)
    ensures |cluster| == nodes && |history| == rounds + 1 && history[rounds] == Tables(cluster)
    ensures forall i :: 0 <= i < nodes ==> cluster[i].nodeId == "node-" + Decimal(i)
    ensures Seeded(history[0], agents)
    ensures |traces| == rounds && forall k :: 0 <= k < rounds ==> RoundAt(history, traces, k) && GoesOn(agents, traces, k)
    ensures Kept(history, ledger)
    ensures forall k :: 0 <= k <= rounds ==> |history[k]| == nodes && CopiesAgree(history[k])
    ensures forall k, i, id, l, j :: Expires(history, k, i, id) && l > k ==> !Present(history, l, j, id)
  {
    cluster := BuildNodes(nodes);
    var revision;
    revision, ledger := SeedAgents(cluster, agents);
    SeedsAreCoined(ledger, agents, revision);
    history, traces := [Tables(cluster)], [];
    assert GoodAt(history, ledger, 0);
    for round := 0 to rounds
      invariant AllValid(cluster) && |history| == round + 1 && history[round] == Tables(cluster)
      invariant AllGood(Tables(cluster), ledger, round) && AllCoined(ledger, agents, revision)
      invariant Kept(history, ledger)
      invariant forall k :: 0 <= k <= round ==> |history[k]| == nodes
      invariant Seeded(history[0], agents) && Traced(history, traces, agents, revision)
    {
      ghost var known := ledger;
      ghost var trace;
      revision, ledger, trace := Round(cluster, revision, agents, known, round);
      KeptSnoc(history, known, ledger, Tables(cluster));
      TracedSnoc(history, traces, agents, Tables(cluster), trace);
      history, traces := history + [Tables(cluster)], traces + [trace];
    }
    forall k | 0 <= k <= rounds ensures CopiesAgree(history[k]) { CopiesAgreeAt(history, ledger, k); }
    forall k, i, id, l, j | Expires(history, k, i, id) && l > k ensures !Present(history, l, j, id) {
      ExpiredIsGone(history, ledger, k, i, id, l, j);
    }
  }

  /** Every step of the history so far is a round, and `revision` is where the last one ended. */
  ghost predicate Traced(history: seq<seq<Table>>, traces: seq<Trace>, agents: nat, revision: nat) {
    && |history| == |traces| + 1 && Reached(agents, traces) == revision
    && forall k :: 0 <= k < |traces| ==> RoundAt(history, traces, k) && GoesOn(agents, traces, k)
  }

  lemma TracedSnoc(history: seq<seq<Table>>, traces: seq<Trace>, agents: nat, next: seq<Table>, trace: Trace)
    requires Traced(history, traces, agents, Reached(agents, traces))
    requires IsRound(history[|history| - 1], trace, next) && trace.revisions[0] == Reached(agents, traces)
    ensures Traced(history + [next], traces + [trace], agents, trace.revisions[|trace.revisions| - 1])
  {
    var longer, more := history + [next], traces + [trace];
    forall k | 0 <= k < |more| ensures RoundAt(longer, more, k) && GoesOn(agents, more, k) {
      if k < |traces| {
        assert RoundAt(history, traces, k) && GoesOn(agents, traces, k);
        assert more[..k] == traces[..k];
      } else {
        assert more[..k] == traces;
      }
    }
  }

  // ---------- The report ----------

  ghost predicate IsUnion(ts: seq<Table>, ids: set<string>) {
    forall id :: id in ids <==> exists i :: 0 <= i < |ts| && id in ts[i]
  }

  ghost predicate IsCommon(ts: seq<Table>, ids: set<string>) {
    forall id :: id in ids <==> forall i :: 0 <= i < |ts| ==> id in ts[i]
  }

  /** All nodes hold the same agents. */
  ghost predicate Converged(ts: seq<Table>) {
    forall i, j :: 0 <= i < |ts| && 0 <= j < |ts| ==> ts[i].Keys == ts[j].Keys
  }

  lemma CommonInUnion(ts: seq<Table>, union: set<string>, common: set<string>)
    requires ts != [] && IsUnion(ts, union) && IsCommon(ts, common)
    ensures common <= union
  {
    forall id | id in common ensures id in union { assert id in ts[0]; }
  }

  lemma EqualWhenConverged(ts: seq<Table>, union: set<string>, common: set<string>)
    requires ts != [] && IsUnion(ts, union) && IsCommon(ts, common)
    ensures common == union <==> Converged(ts)
  {
    CommonInUnion(ts, union, common);
    if common == union {
      forall i, j | 0 <= i < |ts| && 0 <= j < |ts| ensures ts[i].Keys == ts[j].Keys {
        assert forall id :: id in ts[i] ==> id in union;
        assert forall id :: id in ts[j] ==> id in union;
      }
    }
    if Converged(ts) {
      forall id | id in union ensures id in common {
        var i :| 0 <= i < |ts| && id in ts[i];
        assert forall j :: 0 <= j < |ts| ==> ts[j].Keys == ts[i].Keys;
      }
    }
  }

  lemma SubsetSize(a: set<string>, b: set<string>)
    requires a <= b
    ensures |a| <= |b| && (|a| == |b| <==> a == b)
  {
    assert b == a + (b - a) && a !! (b - a);
    assert |b| == |a| + |b - a|;
  }

  lemma ConvergedBySize(ts: seq<Table>, union: set<string>, common: set<string>)
    requires ts != [] && IsUnion(ts, union) && IsCommon(ts, common)
    ensures |common| <= |union| && (|common| == |union| <==> Converged(ts))
  {
    CommonInUnion(ts, union, common);
    EqualWhenConverged(ts, union, common);
    SubsetSize(common, union);
  }

  lemma WithOneMore(ts: seq<Table>, n: nat, union: set<string>, common: set<string>)
    requires n < |ts| && IsUnion(ts[..n], union) && IsCommon(ts[..n], common)
    ensures IsUnion(ts[..n + 1], union + ts[n].Keys) && IsCommon(ts[..n + 1], common * ts[n].Keys)
  {
    var before, after := ts[..n], ts[..n + 1];
    assert after == before + [ts[n]];
    UnionSnoc(before, ts[n], union);
    CommonSnoc(before, ts[n], common);
  }

  lemma UnionSnoc(ts: seq<Table>, m: Table, union: set<string>)
    requires IsUnion(ts, union)
    ensures IsUnion(ts + [m], union + m.Keys)
  {
    forall id ensures id in union + m.Keys <==> exists i :: 0 <= i < |ts + [m]| && id in (ts + [m])[i] {
      if id in union {
        var i :| 0 <= i < |ts| && id in ts[i];
        assert id in (ts + [m])[i];
      } else if id in m {
        assert id in (ts + [m])[|ts|];
      }
    }
  }

  lemma CommonSnoc(ts: seq<Table>, m: Table, common: set<string>)
    requires IsCommon(ts, common)
    ensures IsCommon(ts + [m], common * m.Keys)
  {
    forall id ensures id in common * m.Keys <==> forall i :: 0 <= i < |ts + [m]| ==> id in (ts + [m])[i] {
      if forall i :: 0 <= i < |ts + [m]| ==> id in (ts + [m])[i] {
        assert id in (ts + [m])[|ts|];
        assert forall i :: 0 <= i < |ts| ==> ts[i] == (ts + [m])[i];
      }
    }
  }

  lemma Quotient(a: nat, b: nat)
    requires a <= b && b > 0
    ensures 0.0 <= a as real / b as real <= 1.0 && (a as real / b as real == 1.0 <==> a == b)
  {
  }

  method LiveSets(cluster: seq<SimNode>) returns (union: set<string>, common: set<string>)
    requires cluster != []
    ensures IsUnion(Tables(cluster), union) && IsCommon(Tables(cluster), common)
  {
    union, common := cluster[0].registry.Keys, cluster[0].registry.Keys;
    ghost var ts := Tables(cluster);
    for i := 1 to |cluster|
      invariant IsUnion(ts[..i], union) && IsCommon(ts[..i], common)
    {
      WithOneMore(ts, i, union, common);
      union := union + cluster[i].registry.Keys;
      common := common * cluster[i].registry.Keys;
    }
    assert ts[..|cluster|] == ts;
  }

  /** The reported convergence is 1 exactly when all nodes hold the same agents. */
  method Report(cluster: seq<SimNode>)
    returns (liveAgents: nat, convergence: real, union: set<string>, common: set<string>)
    requires cluster != []
    ensures IsUnion(Tables(cluster), union) && IsCommon(Tables(cluster), common)
    ensures liveAgents == |union|
    ensures union != {} ==> convergence == |common| as real / |union| as real
    ensures 0.0 <= convergence <= 1.0
    ensures convergence == 1.0 <==> Converged(Tables(cluster))
  {
    union, common := LiveSets(cluster);
    ConvergedBySize(Tables(cluster), union, common);
    liveAgents := |union|;
    convergence := 1.0;
    if |union| > 0 {
      Quotient(|common|, |union|);
      convergence := |common| as real / |union| as real;
    }
  }
}
