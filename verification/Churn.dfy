/**
 The churn simulator: nodes tick, agents join at random, and random pairs of
 nodes gossip. Every random choice is left open, so that what is proved holds
 for every seed.
 */
module Churn {
  import opened Text

  datatype SimAgent = SimAgent(agentId: string, revision: nat, ttl: int)

  type Table = map<string, SimAgent>

  predicate Keyed(m: Table) {
    forall id :: id in m ==> m[id].agentId == id
  }

  // ---------- One node ----------

  function Registered(m: Table, a: SimAgent): Table {
    if a.agentId !in m || a.revision >= m[a.agentId].revision then m[a.agentId := a] else m
  }

  function RegisteredAll(m: Table, agents: seq<SimAgent>): Table
    decreases agents
  {
    if agents == [] then m else RegisteredAll(Registered(m, agents[0]), agents[1..])
  }

  function Older(a: SimAgent): SimAgent {
    a.(ttl := a.ttl - 1)
  }

  function Aged(m: Table): Table {
    map id | id in m :: Older(m[id])
  }

  function Live(m: Table): Table {
    map id | id in m && m[id].ttl > 0 :: m[id]
  }

  function Ticked(m: Table): Table {
    Live(Aged(m))
  }

  ghost predicate IsHighest(m: Table, h: nat) {
    && (forall id :: id in m ==> m[id].revision <= h)
    && (m == map[] ==> h == 0)
    && (m != map[] ==> exists id :: id in m && m[id].revision == h)
  }

  class SimNode {
    const nodeId: string
    var registry: Table

    ghost predicate Valid()
      reads this
    {
      Keyed(registry)
    }

    constructor (nodeId: string)
      ensures Valid() && this.nodeId == nodeId && registry == map[]
    {
      this.nodeId, registry := nodeId, map[];
    }

    method HighestRevision() returns (h: nat)
      ensures IsHighest(registry, h)
    {
      h := 0;
      var todo := registry.Keys;
      while todo != {}
        invariant todo <= registry.Keys
        invariant forall id :: id in registry.Keys - todo ==> registry[id].revision <= h
        invariant h == 0 || exists id :: id in registry && registry[id].revision == h
        invariant todo != registry.Keys ==> exists id :: id in registry && registry[id].revision == h
      {
        var id :| id in todo;
        if registry[id].revision >= h {
          h := registry[id].revision;
        }
        todo := todo - {id};
      }
    }

    method Register(a: SimAgent)
      requires Valid()
      modifies this`registry
      ensures Valid() && registry == Registered(old(registry), a)
      ensures registry.Keys == old(registry).Keys + {a.agentId}
      ensures forall id :: id in old(registry) && id != a.agentId ==> registry[id] == old(registry)[id]
      ensures forall id :: id in old(registry) ==> registry[id].revision >= old(registry)[id].revision
      ensures registry[a.agentId].revision >= a.revision
      ensures registry[a.agentId] != a ==>
                && a.agentId in old(registry) && registry[a.agentId] == old(registry)[a.agentId]
                && registry[a.agentId].revision > a.revision
    {
      if a.agentId !in registry || a.revision >= registry[a.agentId].revision {
        registry := registry[a.agentId := a];
      }
    }

    method Purge()
      requires Valid()
      modifies this`registry
      ensures Valid() && registry == Live(old(registry))
    {
      var expired := set id | id in registry && registry[id].ttl <= 0;
      ghost var doomed := expired;
      while expired != {}
        invariant expired <= doomed
        invariant registry == old(registry) - (doomed - expired)
      {
        var id :| id in expired;
        registry := registry - {id};
        expired := expired - {id};
      }
    }

    method Tick()
      requires Valid()
      modifies this`registry
      ensures Valid() && registry == Ticked(old(registry))
    {
      var todo := registry.Keys;
      while todo != {}
        invariant Valid() && todo <= registry.Keys == old(registry).Keys
        invariant forall id :: id in registry ==>
                    registry[id] == if id in todo then old(registry)[id] else Older(old(registry)[id])
      {
        var id :| id in todo;
        registry := registry[id := Older(registry[id])];
        todo := todo - {id};
      }
      assert registry == Aged(old(registry));
      Purge();
    }
  }

  // ---------- Gossip ----------

  predicate Ascending(s: seq<SimAgent>) {
    forall i, j :: 0 <= i < j < |s| ==> s[i].revision <= s[j].revision
  }

  function Insert(a: SimAgent, s: seq<SimAgent>): (t: seq<SimAgent>)
    ensures multiset(t) == multiset(s) + multiset{a}
  {
    if s == [] || a.revision <= s[0].revision then [a] + s
    else
      assert s == [s[0]] + s[1..];
      [s[0]] + Insert(a, s[1..])
  }

  lemma {:induction false} InsertMember(a: SimAgent, s: seq<SimAgent>, j: nat)
    requires j < |Insert(a, s)|
    ensures Insert(a, s)[j] == a || Insert(a, s)[j] in s
  {
    if s != [] && a.revision > s[0].revision && j > 0 {
      InsertMember(a, s[1..], j - 1);
    }
  }

  lemma AscendingCons(first: SimAgent, rest: seq<SimAgent>)
    requires Ascending(rest) && forall j :: 0 <= j < |rest| ==> first.revision <= rest[j].revision
    ensures Ascending([first] + rest)
  {
  }

  lemma AscendingFirst(s: seq<SimAgent>, x: SimAgent)
    requires Ascending(s) && x in s
    ensures s[0].revision <= x.revision && Ascending(s[1..])
  {
  }

  lemma {:induction false} InsertAscending(a: SimAgent, s: seq<SimAgent>)
    requires Ascending(s)
    ensures Ascending(Insert(a, s))
  {
    if s == [] {
    } else if a.revision <= s[0].revision {
      forall j | 0 <= j < |s| ensures a.revision <= s[j].revision { AscendingFirst(s, s[j]); }
      AscendingCons(a, s);
    } else {
      var rest := Insert(a, s[1..]);
      AscendingFirst(s, s[0]);
      InsertAscending(a, s[1..]);
      forall j | 0 <= j < |rest| ensures s[0].revision <= rest[j].revision {
        InsertMember(a, s[1..], j);
        if rest[j] in s[1..] {
          AscendingFirst(s, rest[j]);
        }
      }
      AscendingCons(s[0], rest);
    }
  }

  /** The agents among `keys` above a revision. */
  ghost function Above(m: Table, keys: set<string>, revision: nat): set<SimAgent> {
    set id | id in keys && id in m && m[id].revision > revision :: m[id]
  }

  function Cut(s: seq<SimAgent>, limit: nat): seq<SimAgent> {
    if |s| > limit then s[..limit] else s
  }

  /** `out` is the lowest `limit` of the agents above a revision, in ascending order. */
  ghost predicate IsDelta(m: Table, revision: nat, limit: nat, out: seq<SimAgent>) {
    exists full ::
      multiset(full) == multiset(Above(m, m.Keys, revision)) && Ascending(full) && out == Cut(full, limit)
  }

  lemma AboveGrows(m: Table, keys: set<string>, id: string, revision: nat)
    requires Keyed(m) && id in m && id !in keys
    ensures m[id].revision > revision ==>
              multiset(Above(m, keys + {id}, revision)) == multiset(Above(m, keys, revision)) + multiset{m[id]}
    ensures m[id].revision <= revision ==> Above(m, keys + {id}, revision) == Above(m, keys, revision)
  {
    if m[id].revision > revision {
      assert Above(m, keys + {id}, revision) == Above(m, keys, revision) + {m[id]};
      assert m[id] !in Above(m, keys, revision);
    }
  }

  method Delta(node: SimNode, revision: nat, limit: nat) returns (out: seq<SimAgent>)
    requires node.Valid()
    ensures IsDelta(node.registry, revision, limit, out)
  {
    var m, todo := node.registry, node.registry.Keys;
    var full: seq<SimAgent> := [];
    ghost var done: set<string> := {};
    while todo != {}
      invariant todo !! done && todo + done == m.Keys
      invariant Ascending(full) && multiset(full) == multiset(Above(m, done, revision))
    {
      var id :| id in todo;
      AboveGrows(m, done, id, revision);
      if m[id].revision > revision {
        InsertAscending(m[id], full);
        full := Insert(m[id], full);
      }
      todo, done := todo - {id}, done + {id};
    }
    assert done == m.Keys;
    out := Cut(full, limit);
  }

  method RegisterEach(node: SimNode, agents: seq<SimAgent>)
    requires node.Valid()
    modifies node`registry
    ensures node.Valid() && node.registry == RegisteredAll(old(node.registry), agents)
  {
    for i := 0 to |agents|
      invariant node.Valid()
      invariant RegisteredAll(node.registry, agents[i..]) == RegisteredAll(old(node.registry), agents)
    {
      assert agents[i..][0] == agents[i] && agents[i..][1..] == agents[i + 1..];
      node.Register(agents[i]);
    }
  }

  /** Two tables after a gossip round, with what went each way. */
  ghost predicate Gossiped(
    left: Table, right: Table, limit: nat, toRight: seq<SimAgent>, toLeft: seq<SimAgent>, left2: Table, right2: Table)
  {
    && (exists h :: IsHighest(right, h) && IsDelta(left, h, limit, toRight))
    && (exists h :: IsHighest(left, h) && IsDelta(right, h, limit, toLeft))
    && right2 == RegisteredAll(right, toRight) && left2 == RegisteredAll(left, toLeft)
  }

  method GossipRound(left: SimNode, right: SimNode, limit: nat) returns (ghost toRight: seq<SimAgent>, ghost toLeft: seq<SimAgent>)
    requires left != right && left.Valid() && right.Valid()
    modifies left`registry, right`registry
    ensures left.Valid() && right.Valid()
    ensures Gossiped(old(left.registry), old(right.registry), limit, toRight, toLeft, left.registry, right.registry)
  {
    var rightHighest := right.HighestRevision();
    var leftDelta := Delta(left, rightHighest, limit);
    var leftHighest := left.HighestRevision();
    var rightDelta := Delta(right, leftHighest, limit);
    toRight, toLeft := leftDelta, rightDelta;
    RegisterEach(right, leftDelta);
    RegisterEach(left, rightDelta);
  }

  lemma DeltaMember(m: Table, revision: nat, limit: nat, out: seq<SimAgent>, i: nat)
    requires Keyed(m) && IsDelta(m, revision, limit, out) && i < |out|
    ensures out[i].agentId in m && m[out[i].agentId] == out[i] && out[i].revision > revision
  {
    var full :| multiset(full) == multiset(Above(m, m.Keys, revision)) && Ascending(full) && out == Cut(full, limit);
    assert full[i] in multiset(full);
  }

  /** A delta is as long as the limit allows, ascending, and leaves out nothing lower than what it holds. */
  lemma DeltaIsLowest(m: Table, revision: nat, limit: nat, out: seq<SimAgent>)
    requires IsDelta(m, revision, limit, out)
    ensures Ascending(out)
    ensures |out| == if |Above(m, m.Keys, revision)| > limit then limit else |Above(m, m.Keys, revision)|
    ensures forall id, i :: id in m && m[id].revision > revision && m[id] !in out && 0 <= i < |out| ==>
              out[i].revision <= m[id].revision
  {
    var above := Above(m, m.Keys, revision);
    var full :| multiset(full) == multiset(above) && Ascending(full) && out == Cut(full, limit);
    assert |multiset(full)| == |full| && |multiset(above)| == |above|;
    forall id, i | id in m && m[id].revision > revision && m[id] !in out && 0 <= i < |out|
      ensures out[i].revision <= m[id].revision
    {
      assert m[id] in above;
      assert m[id] in multiset(full);
      var j :| 0 <= j < |full| && full[j] == m[id];
      assert out[i] == full[i];
    }
  }

  /** After registering a list, each of its agents is there at no lower revision, and nothing is lost or made up. */
  lemma {:induction false} RegisteredAllHolds(m: Table, agents: seq<SimAgent>)
    ensures var n := RegisteredAll(m, agents);
      && (forall i :: 0 <= i < |agents| ==> agents[i].agentId in n && n[agents[i].agentId].revision >= agents[i].revision)
      && (forall id :: id in m ==> id in n && n[id].revision >= m[id].revision)
      && (forall id :: id in n ==> (id in m && n[id] == m[id]) || n[id] in agents)
    decreases agents
  {
    if agents != [] {
      var next := Registered(m, agents[0]);
      RegisteredAllHolds(next, agents[1..]);
      assert forall i :: 0 < i < |agents| ==> agents[i] == agents[1..][i - 1];
    }
  }

  /** What travels in a gossip round arrives. */
  lemma GossipDelivers(
    left: Table, right: Table, limit: nat, toRight: seq<SimAgent>, toLeft: seq<SimAgent>, left2: Table, right2: Table)
    requires Gossiped(left, right, limit, toRight, toLeft, left2, right2)
    ensures forall i :: 0 <= i < |toRight| ==>
              toRight[i].agentId in right2 && right2[toRight[i].agentId].revision >= toRight[i].revision
    ensures forall i :: 0 <= i < |toLeft| ==>
              toLeft[i].agentId in left2 && left2[toLeft[i].agentId].revision >= toLeft[i].revision
  {
    RegisteredAllHolds(right, toRight);
    RegisteredAllHolds(left, toLeft);
  }

  /** Agents travel in at most one direction. */
  lemma GossipMovesOneWay(
    left: Table, right: Table, limit: nat, toRight: seq<SimAgent>, toLeft: seq<SimAgent>, left2: Table, right2: Table)
    requires Keyed(left) && Keyed(right) && Gossiped(left, right, limit, toRight, toLeft, left2, right2)
    ensures toRight == [] || toLeft == []
  {
    if toRight != [] && toLeft != [] {
      var g :| IsHighest(right, g) && IsDelta(left, g, limit, toRight);
      var h :| IsHighest(left, h) && IsDelta(right, h, limit, toLeft);
      DeltaMember(left, g, limit, toRight, 0);
      DeltaMember(right, h, limit, toLeft, 0);
    }
  }

  // ---------- The ledger ----------

  /** What an agent was registered with: its revision and the round at which it expires. */
  datatype Birth = Birth(revision: nat, deadline: int)

  type Ledger = map<string, Birth>

  ghost predicate OnTime(m: Table, id: string, ledger: Ledger, time: int)
    requires id in m
  {
    && id in ledger && m[id].agentId == id && m[id].revision == ledger[id].revision
    && m[id].ttl == ledger[id].deadline - time && m[id].ttl > 0
  }

  /** Every agent of a node is as old as the ledger says. */
  ghost predicate Good(m: Table, ledger: Ledger, time: int) {
    forall id :: id in m ==> OnTime(m, id, ledger, time)
  }

  /** Everything in `m` is in `n` unchanged. */
  ghost predicate Extends(m: Table, n: Table) {
    forall id :: id in m ==> id in n && n[id] == m[id]
  }

  /** An agent with time left is still there, one tick older. */
  ghost predicate Advances(m: Table, n: Table) {
    forall id :: id in m && m[id].ttl > 1 ==> id in n && n[id] == Older(m[id])
  }

  lemma TickIsGood(m: Table, ledger: Ledger, time: int)
    requires Good(m, ledger, time)
    ensures Good(Ticked(m), ledger, time + 1) && Advances(m, Ticked(m))
  {
    forall id | id in Ticked(m) ensures OnTime(Ticked(m), id, ledger, time + 1) {
      assert OnTime(m, id, ledger, time);
    }
  }

  lemma RegisterGood(m: Table, ledger: Ledger, time: int, a: SimAgent)
    requires Good(m, ledger, time)
    requires a.agentId in ledger && ledger[a.agentId] == Birth(a.revision, time + a.ttl) && a.ttl > 0
    ensures Good(Registered(m, a), ledger, time) && Extends(m, Registered(m, a)) && a.agentId in Registered(m, a)
  {
    assert a.agentId in m ==> OnTime(m, a.agentId, ledger, time);
    forall id | id in Registered(m, a) ensures OnTime(Registered(m, a), id, ledger, time) {
      assert id in m ==> OnTime(m, id, ledger, time);
    }
  }

  lemma {:induction false} RegisterAllGood(m: Table, ledger: Ledger, time: int, source: Table, agents: seq<SimAgent>)
    requires Good(m, ledger, time) && Good(source, ledger, time)
    requires forall i :: 0 <= i < |agents| ==> agents[i].agentId in source && source[agents[i].agentId] == agents[i]
    ensures Good(RegisteredAll(m, agents), ledger, time) && Extends(m, RegisteredAll(m, agents))
    decreases agents
  {
    if agents != [] {
      assert OnTime(source, agents[0].agentId, ledger, time);
      RegisterGood(m, ledger, time, agents[0]);
      RegisterAllGood(Registered(m, agents[0]), ledger, time, source, agents[1..]);
    }
  }

  lemma GoodIsKeyed(m: Table, ledger: Ledger, time: int)
    requires Good(m, ledger, time)
    ensures Keyed(m)
  {
    forall id | id in m ensures m[id].agentId == id { assert OnTime(m, id, ledger, time); }
  }

  lemma OneWayGood(m: Table, source: Table, h: nat, limit: nat, out: seq<SimAgent>, ledger: Ledger, time: int)
    requires Good(m, ledger, time) && Good(source, ledger, time) && IsDelta(source, h, limit, out)
    ensures Good(RegisteredAll(m, out), ledger, time) && Extends(m, RegisteredAll(m, out))
  {
    GoodIsKeyed(source, ledger, time);
    forall i | 0 <= i < |out| ensures out[i].agentId in source && source[out[i].agentId] == out[i] {
      DeltaMember(source, h, limit, out, i);
    }
    RegisterAllGood(m, ledger, time, source, out);
  }

  lemma GossipGood(left: Table, right: Table, limit: nat, toRight: seq<SimAgent>, toLeft: seq<SimAgent>,
                   left2: Table, right2: Table, ledger: Ledger, time: int)
    requires Good(left, ledger, time) && Good(right, ledger, time)
    requires Gossiped(left, right, limit, toRight, toLeft, left2, right2)
    ensures Good(left2, ledger, time) && Good(right2, ledger, time) && Extends(left, left2) && Extends(right, right2)
  {
    var g :| IsHighest(right, g) && IsDelta(left, g, limit, toRight);
    var h :| IsHighest(left, h) && IsDelta(right, h, limit, toLeft);
    OneWayGood(right, left, g, limit, toRight, ledger, time);
    OneWayGood(left, right, h, limit, toLeft, ledger, time);
  }

  // ---------- Names ----------

  function SeedName(index: nat): string {
    "agent-" + Decimal(index)
  }

  function ChurnName(revision: nat): string {
    "agent-new-" + Decimal(revision)
  }

  ghost predicate Coined(id: string, seeds: nat, revision: nat) {
    (exists i :: 0 <= i < seeds && id == SeedName(i)) || (exists r :: 0 <= r <= revision && id == ChurnName(r))
  }

  ghost predicate AllCoined(ledger: Ledger, seeds: nat, revision: nat) {
    forall id :: id in ledger ==> Coined(id, seeds, revision)
  }

  lemma SeedNameInjective(i: nat, j: nat)
    requires SeedName(i) == SeedName(j)
    ensures i == j
  {
    assert SeedName(i)[6..] == Decimal(i) && SeedName(j)[6..] == Decimal(j);
    DecimalInjective(i, j);
  }

  lemma ChurnNameInjective(r: nat, q: nat)
    requires ChurnName(r) == ChurnName(q)
    ensures r == q
  {
    assert ChurnName(r)[10..] == Decimal(r) && ChurnName(q)[10..] == Decimal(q);
    DecimalInjective(r, q);
  }

  lemma NamesApart(i: nat, r: nat)
    ensures SeedName(i) != ChurnName(r)
  {
    assert SeedName(i)[6] == Decimal(i)[0] && IsDigit(Decimal(i)[0]);
    assert ChurnName(r)[6] == 'n';
  }

  lemma SeedNameIsNew(ledger: Ledger, seeds: nat)
    requires forall id :: id in ledger ==> exists i :: 0 <= i < seeds && id == SeedName(i)
    ensures SeedName(seeds) !in ledger
  {
    if SeedName(seeds) in ledger {
      var i :| 0 <= i < seeds && SeedName(seeds) == SeedName(i);
      SeedNameInjective(seeds, i);
    }
  }

  lemma ChurnNameIsNew(ledger: Ledger, seeds: nat, revision: nat)
    requires AllCoined(ledger, seeds, revision)
    ensures ChurnName(revision + 1) !in ledger
  {
    if ChurnName(revision + 1) in ledger {
      assert Coined(ChurnName(revision + 1), seeds, revision);
      if i :| 0 <= i < seeds && ChurnName(revision + 1) == SeedName(i) {
        NamesApart(i, revision + 1);
      } else {
        var r :| 0 <= r <= revision && ChurnName(revision + 1) == ChurnName(r);
        ChurnNameInjective(revision + 1, r);
      }
    }
  }
}
