/**
 Any number of nodes that register, refresh, purge and sync by text, in any
 interleaving. Answers and merge commands stay in flight for good, so that a
 message may arrive late, twice, out of order, at any node, or never.
 */
module Cluster {
  import opened Bytes
  import opened Text
  import opened Records
  import opened Crypto
  import opened Identity
  import opened Registry
  import opened ControlProtocol
  import opened LineHandler
  import opened SyncClient
  import opened SyncTheorems

  datatype Node = Node(config: Config, identity: Option<Verifier>, records: seq<AgentRecord>)

  /** `registered` lists the registrations accepted so far, anywhere. */
  datatype State = State(nodes: seq<Node>, registered: seq<AgentRecord>, answers: seq<string>, commands: seq<string>)

  datatype Step =
    | ClientLine(node: nat, line: string, now: int)
    | AnswerPull(node: nat, after: u64, limit: u64, out: seq<AgentRecord>)
    | MergeAnswer(node: nat, answer: nat, store: TrustStore, now: int)
    | SendRecord(node: nat, record: AgentRecord)
    | HandleMerge(node: nat, command: nat, now: int)
    | PurgeExpired(node: nat, now: int)

  function Read(node: Node, line: string, now: int): Command {
    Parse(FirstLine(line), now, Expiry(node.config, now))
  }

  /** Clients send any line but a merge; pulls and pushes carry what a node holds. */
  ghost predicate Enabled(s: State, step: Step) {
    step.node < |s.nodes| &&
    var node := s.nodes[step.node];
    match step
    case ClientLine(_, line, now) => Read(node, line, now).action != Merge
    case AnswerPull(_, after, limit, out) => IsPull(node.records, after, limit, out)
    case MergeAnswer(_, answer, _, _) => answer < |s.answers|
    case SendRecord(_, record) => record in node.records
    case HandleMerge(_, command, _) => command < |s.commands|
    case PurgeExpired(_, _) => true
  }

  function SetRecords(s: State, i: nat, records: seq<AgentRecord>): State
    requires i < |s.nodes|
  {
    s.(nodes := s.nodes[i := s.nodes[i].(records := records)])
  }

  /** The registration a command makes, if the node takes it. */
  function NewRegistration(node: Node, c: Command): seq<AgentRecord> {
    if Writes(c) && Admits(node.config, c.registration) && Accepts(node.records, c.registration) then [c.registration] else []
  }

  function Merged(node: Node, answer: string, store: TrustStore, now: int): seq<AgentRecord> {
    MergeAll(node.identity, MergeState(node.records, store, 0), AgentsOf(Lines(answer), PullExpiry(now))).records
  }

  ghost function Apply(s: State, step: Step): State
    requires Enabled(s, step)
  {
    var node := s.nodes[step.node];
    match step
    case ClientLine(i, line, now) =>
      var c := Read(node, line, now);
      SetRecords(s, i, Handled(node.config, node.records, c, now)).(registered := s.registered + NewRegistration(node, c))
    case AnswerPull(_, _, _, out) => s.(answers := s.answers + [ListText(PULL_HEADER, out)])
    case MergeAnswer(i, answer, store, now) => SetRecords(s, i, Merged(node, s.answers[answer], store, now))
    case SendRecord(_, record) => s.(commands := s.commands + [MergeText(record)])
    case HandleMerge(i, command, now) =>
      SetRecords(s, i, Handled(node.config, node.records, Read(node, s.commands[command], now), now))
    case PurgeExpired(i, now) => SetRecords(s, i, Purged(node.records, now))
  }

  ghost predicate Initial(s: State) {
    && s.registered == [] && s.answers == [] && s.commands == []
    && forall i :: 0 <= i < |s.nodes| ==> s.nodes[i].records == []
  }

  ghost predicate Next(s: State, t: State) {
    exists step :: Enabled(s, step) && t == Apply(s, step)
  }

  ghost predicate IsRun(run: seq<State>) {
    && run != [] && Initial(run[0])
    && forall i :: 0 <= i < |run| - 1 ==> NextAt(run, i)
  }

  ghost predicate NextAt(run: seq<State>, i: nat)
    requires i + 1 < |run|
  {
    Next(run[i], run[i + 1])
  }

  // ---------- The invariant ----------

  /** `r` is the registration `q`, perhaps refreshed since. */
  predicate Descends(r: AgentRecord, q: AgentRecord) {
    r.(revision := q.revision, expiresAt := q.expiresAt) == q && r.revision >= q.revision
  }

  ghost predicate Vouched(registered: seq<AgentRecord>, r: AgentRecord) {
    WireSafe(r) && exists k :: 0 <= k < |registered| && Descends(r, registered[k])
  }

  ghost predicate AllVouched(registered: seq<AgentRecord>, rs: seq<AgentRecord>) {
    forall r :: r in rs ==> Vouched(registered, r)
  }

  ghost predicate VouchedAnswer(registered: seq<AgentRecord>, answer: string) {
    exists out :: answer == ListText(PULL_HEADER, out) && AllVouched(registered, out)
  }

  ghost predicate VouchedCommand(registered: seq<AgentRecord>, command: string) {
    exists r :: command == MergeText(r) && Vouched(registered, r)
  }

  ghost predicate NodesVouched(s: State) {
    forall i :: 0 <= i < |s.nodes| ==> AllVouched(s.registered, s.nodes[i].records)
  }

  ghost predicate AnswersVouched(s: State) {
    forall i :: 0 <= i < |s.answers| ==> VouchedAnswer(s.registered, s.answers[i])
  }

  ghost predicate CommandsVouched(s: State) {
    forall i :: 0 <= i < |s.commands| ==> VouchedCommand(s.registered, s.commands[i])
  }

  ghost predicate Inv(s: State) {
    NodesVouched(s) && AnswersVouched(s) && CommandsVouched(s)
  }

  // ---------- Growing the list of registrations ----------

  lemma VouchedStays(registered: seq<AgentRecord>, more: seq<AgentRecord>, r: AgentRecord)
    requires Vouched(registered, r)
    ensures Vouched(registered + more, r)
  {
    var k :| 0 <= k < |registered| && Descends(r, registered[k]);
    assert (registered + more)[k] == registered[k];
  }

  lemma AllVouchedStays(registered: seq<AgentRecord>, more: seq<AgentRecord>, rs: seq<AgentRecord>)
    requires AllVouched(registered, rs)
    ensures AllVouched(registered + more, rs)
  {
    forall r | r in rs ensures Vouched(registered + more, r) { VouchedStays(registered, more, r); }
  }

  lemma AnswerStays(registered: seq<AgentRecord>, more: seq<AgentRecord>, answer: string)
    requires VouchedAnswer(registered, answer)
    ensures VouchedAnswer(registered + more, answer)
  {
    var out :| answer == ListText(PULL_HEADER, out) && AllVouched(registered, out);
    AllVouchedStays(registered, more, out);
  }

  lemma CommandStays(registered: seq<AgentRecord>, more: seq<AgentRecord>, command: string)
    requires VouchedCommand(registered, command)
    ensures VouchedCommand(registered + more, command)
  {
    var r :| command == MergeText(r) && Vouched(registered, r);
    VouchedStays(registered, more, r);
  }

  lemma InvGrows(s: State, more: seq<AgentRecord>)
    requires Inv(s)
    ensures Inv(s.(registered := s.registered + more))
  {
    forall i | 0 <= i < |s.nodes| ensures AllVouched(s.registered + more, s.nodes[i].records) {
      AllVouchedStays(s.registered, more, s.nodes[i].records);
    }
    forall i | 0 <= i < |s.answers| ensures VouchedAnswer(s.registered + more, s.answers[i]) {
      AnswerStays(s.registered, more, s.answers[i]);
    }
    forall i | 0 <= i < |s.commands| ensures VouchedCommand(s.registered + more, s.commands[i]) {
      CommandStays(s.registered, more, s.commands[i]);
    }
  }

  lemma SetKeepsInv(s: State, i: nat, records: seq<AgentRecord>)
    requires Inv(s) && i < |s.nodes| && AllVouched(s.registered, records)
    ensures Inv(SetRecords(s, i, records))
  {
  }

  // ---------- What each operation keeps ----------

  lemma RegistrationVouched(registered: seq<AgentRecord>, r: AgentRecord)
    requires WireSafe(r)
    ensures Vouched(registered + [r], r)
  {
    assert (registered + [r])[|registered|] == r;
  }

  lemma UpsertVouched(registered: seq<AgentRecord>, records: seq<AgentRecord>, r: AgentRecord)
    requires AllVouched(registered, records) && (Accepts(records, r) ==> Vouched(registered, r))
    ensures AllVouched(registered, Upserted(records, r))
  {
    forall q | q in Upserted(records, r) ensures Vouched(registered, q) { UpsertedMember(records, r, q); }
  }

  lemma RefreshedVouched(registered: seq<AgentRecord>, r: AgentRecord, expiresAt: int, revision: u64)
    requires Vouched(registered, r) && revision >= r.revision
    ensures Vouched(registered, r.(expiresAt := expiresAt, revision := revision))
  {
    var k :| 0 <= k < |registered| && Descends(r, registered[k]);
    assert Descends(r.(expiresAt := expiresAt, revision := revision), registered[k]);
  }

  lemma HeartbeatVouched(registered: seq<AgentRecord>, records: seq<AgentRecord>, id: string, expiresAt: int, revision: u64)
    requires AllVouched(registered, records)
    ensures AllVouched(registered, Refreshed(records, id, expiresAt, revision))
  {
    if HeartbeatAccepted(records, id, revision) {
      assert Lookup(records, id) in records;
      RefreshedVouched(registered, Lookup(records, id), expiresAt, revision);
    }
  }

  lemma {:induction false} MergeVouched(
    registered: seq<AgentRecord>, identity: Option<Verifier>, s: MergeState, list: seq<AgentRecord>)
    requires AllVouched(registered, s.records) && AllVouched(registered, list)
    ensures AllVouched(registered, MergeAll(identity, s, list).records)
    decreases list
  {
    if list != [] {
      assert list[0] in list;
      UpsertVouched(registered, s.records, list[0]);
      MergeVouched(registered, identity, MergeOne(identity, s, list[0]), list[1..]);
    }
  }

  lemma RestampVouched(registered: seq<AgentRecord>, rs: seq<AgentRecord>, expiresAt: int)
    requires AllVouched(registered, rs)
    ensures AllVouched(registered, Restamp(rs, expiresAt)) && AllWireSafe(rs)
  {
    forall i | 0 <= i < |rs| ensures WireSafe(rs[i]) { assert rs[i] in rs; }
    forall r | r in Restamp(rs, expiresAt) ensures Vouched(registered, r) {
      var i :| 0 <= i < |rs| && Restamp(rs, expiresAt)[i] == r;
      assert rs[i] in rs;
      RefreshedVouched(registered, rs[i], expiresAt, rs[i].revision);
    }
  }

  /** Merging an answer in flight brings in only what is vouched for. */
  lemma AnswerMergesVouched(registered: seq<AgentRecord>, node: Node, answer: string, store: TrustStore, now: int)
    requires AllVouched(registered, node.records) && VouchedAnswer(registered, answer)
    ensures AllVouched(registered, Merged(node, answer, store, now))
  {
    var out :| answer == ListText(PULL_HEADER, out) && AllVouched(registered, out);
    RestampVouched(registered, out, PullExpiry(now));
    AnswerRoundTrip(out, PullExpiry(now));
    MergeVouched(registered, node.identity, MergeState(node.records, store, 0), Restamp(out, PullExpiry(now)));
  }

  lemma MergeCommandVouched(registered: seq<AgentRecord>, node: Node, command: string, now: int)
    requires VouchedCommand(registered, command)
    ensures var c := Read(node, command, now); c.action == Merge && c.error == "" && Vouched(registered, c.registration)
  {
    var r :| command == MergeText(r) && Vouched(registered, r);
    RecordReceived(r, now, Expiry(node.config, now));
    RefreshedVouched(registered, r, Expiry(node.config, now), r.revision);
  }

  /** A command that takes effect with a vouched registration, or has none, keeps a node vouched. */
  lemma HandledVouched(registered: seq<AgentRecord>, node: Node, c: Command, now: int)
    requires AllVouched(registered, node.records)
    requires Writes(c) && Admits(node.config, c.registration) && Accepts(node.records, c.registration) ==>
               Vouched(registered, c.registration)
    ensures AllVouched(registered, Handled(node.config, node.records, c, now))
  {
    if Writes(c) && Admits(node.config, c.registration) {
      UpsertVouched(registered, node.records, c.registration);
    } else if c.error == "" && c.action == Heartbeat {
      HeartbeatVouched(registered, node.records, c.agentId, Expiry(node.config, now), c.registration.revision);
    }
  }

  lemma ClientLineVouched(registered: seq<AgentRecord>, node: Node, c: Command, now: int)
    requires AllVouched(registered, node.records) && (Writes(c) ==> WireSafe(c.registration))
    ensures AllVouched(registered + NewRegistration(node, c), Handled(node.config, node.records, c, now))
  {
    var more := NewRegistration(node, c);
    AllVouchedStays(registered, more, node.records);
    if more != [] {
      RegistrationVouched(registered, c.registration);
    }
    HandledVouched(registered + more, node, c, now);
  }

  lemma PulledVouched(registered: seq<AgentRecord>, records: seq<AgentRecord>, after: u64, limit: nat, out: seq<AgentRecord>)
    requires AllVouched(registered, records) && IsPull(records, after, limit, out)
    ensures VouchedAnswer(registered, ListText(PULL_HEADER, out))
  {
    forall r | r in out ensures Vouched(registered, r) {
      var i :| 0 <= i < |out| && out[i] == r;
      PulledFrom(records, after, limit, out, i);
    }
  }

  // ---------- Steps ----------

  lemma ClientLineKeeps(s: State, step: Step)
    requires Inv(s) && step.ClientLine? && Enabled(s, step)
    ensures Inv(Apply(s, step))
  {
    var node := s.nodes[step.node];
    var c := Read(node, step.line, step.now);
    var more, records := NewRegistration(node, c), Handled(node.config, node.records, c, step.now);
    ParsedIsWireSafe(FirstLine(step.line), step.now, Expiry(node.config, step.now));
    ClientLineVouched(s.registered, node, c, step.now);
    InvGrows(s, more);
    SetKeepsInv(s.(registered := s.registered + more), step.node, records);
  }

  lemma MergeAnswerKeeps(s: State, step: Step)
    requires Inv(s) && step.MergeAnswer? && Enabled(s, step)
    ensures Inv(Apply(s, step))
  {
    var node, answer := s.nodes[step.node], s.answers[step.answer];
    AnswerMergesVouched(s.registered, node, answer, step.store, step.now);
    SetKeepsInv(s, step.node, Merged(node, answer, step.store, step.now));
  }

  lemma HandleMergeKeeps(s: State, step: Step)
    requires Inv(s) && step.HandleMerge? && Enabled(s, step)
    ensures Inv(Apply(s, step))
  {
    var node, command := s.nodes[step.node], s.commands[step.command];
    var c := Read(node, command, step.now);
    MergeCommandVouched(s.registered, node, command, step.now);
    HandledVouched(s.registered, node, c, step.now);
    SetKeepsInv(s, step.node, Handled(node.config, node.records, c, step.now));
  }

  lemma AnswerPullKeeps(s: State, step: Step)
    requires Inv(s) && step.AnswerPull? && Enabled(s, step)
    ensures Inv(Apply(s, step))
  {
    PulledVouched(s.registered, s.nodes[step.node].records, step.after, step.limit, step.out);
  }

  lemma SendRecordKeeps(s: State, step: Step)
    requires Inv(s) && step.SendRecord? && Enabled(s, step)
    ensures Inv(Apply(s, step))
  {
    assert VouchedCommand(s.registered, MergeText(step.record));
  }

  lemma StepKeepsInv(s: State, step: Step)
    requires Inv(s) && Enabled(s, step)
    ensures Inv(Apply(s, step))
  {
    match step
    case ClientLine(_, _, _) => ClientLineKeeps(s, step);
    case AnswerPull(_, _, _, _) => AnswerPullKeeps(s, step);
    case MergeAnswer(_, _, _, _) => MergeAnswerKeeps(s, step);
    case SendRecord(_, _) => SendRecordKeeps(s, step);
    case HandleMerge(_, _, _) => HandleMergeKeeps(s, step);
    case PurgeExpired(i, now) => SetKeepsInv(s, i, Purged(s.nodes[i].records, now));
  }

  lemma NextKeepsInv(s: State, t: State)
    requires Next(s, t) && Inv(s)
    ensures Inv(t)
  {
    var step :| Enabled(s, step) && t == Apply(s, step);
    StepKeepsInv(s, step);
  }

  lemma InvAt(run: seq<State>, m: nat)
    requires IsRun(run) && m + 1 < |run| && Inv(run[m])
    ensures Inv(run[m + 1])
  {
    assert NextAt(run, m);
    NextKeepsInv(run[m], run[m + 1]);
  }

  lemma {:induction false} RunKeepsInv(run: seq<State>, n: nat)
    requires IsRun(run) && n < |run|
    ensures Inv(run[n])
    decreases n
  {
    if n > 0 {
      RunKeepsInv(run, n - 1);
      InvAt(run, n - 1);
    }
  }

  /** This step is a client's REGISTER line that the node accepts as `q`. */
  ghost predicate Registers(s: State, step: Step, q: AgentRecord) {
    && Enabled(s, step) && step.ClientLine?
    && var node := s.nodes[step.node];
       var c := Read(node, step.line, step.now);
       c.action == Register && c.error == "" && c.registration == q && NewRegistration(node, c) == [q]
  }

  ghost predicate RegistersTo(s: State, t: State, q: AgentRecord) {
    exists step :: Registers(s, step, q) && t == Apply(s, step)
  }

  lemma StepRegisters(s: State, step: Step)
    requires Enabled(s, step)
    ensures var t := Apply(s, step);
      t.registered == s.registered || exists q :: t.registered == s.registered + [q] && Registers(s, step, q)
  {
    if step.ClientLine? {
      var node := s.nodes[step.node];
      var c := Read(node, step.line, step.now);
      assert NewRegistration(node, c) != [] ==> NewRegistration(node, c) == [c.registration];
    }
  }

  lemma NextRegisters(s: State, t: State, k: nat)
    requires Next(s, t) && k < |t.registered|
    ensures (k < |s.registered| && s.registered[k] == t.registered[k]) || RegistersTo(s, t, t.registered[k])
  {
    var step :| Enabled(s, step) && t == Apply(s, step);
    StepRegisters(s, step);
  }

  ghost predicate RegisteredAt(run: seq<State>, m: nat, q: AgentRecord)
    requires m + 1 < |run|
  {
    RegistersTo(run[m], run[m + 1], q)
  }

  lemma NewAt(run: seq<State>, m: nat, k: nat)
    requires IsRun(run) && m + 1 < |run| && k < |run[m + 1].registered|
    ensures (k < |run[m].registered| && run[m].registered[k] == run[m + 1].registered[k])
            || RegisteredAt(run, m, run[m + 1].registered[k])
  {
    assert NextAt(run, m);
    NextRegisters(run[m], run[m + 1], k);
  }

  /** An entry of a list that only grows was marked when it was added. */
  ghost predicate OldOrMarked(lists: seq<seq<AgentRecord>>, marked: (nat, AgentRecord) -> bool, m: nat, k: nat)
    requires m + 1 < |lists| && k < |lists[m + 1]|
  {
    (k < |lists[m]| && lists[m][k] == lists[m + 1][k]) || marked(m, lists[m + 1][k])
  }

  lemma {:induction false} MarkedEarlier(lists: seq<seq<AgentRecord>>, marked: (nat, AgentRecord) -> bool, n: nat, k: nat)
    returns (m: nat)
    requires n < |lists| && lists[0] == [] && k < |lists[n]|
    requires forall i: nat, j: nat :: i + 1 < |lists| && j < |lists[i + 1]| ==> OldOrMarked(lists, marked, i, j)
    ensures m < n && marked(m, lists[n][k])
    decreases n
  {
    assert n > 0;
    assert OldOrMarked(lists, marked, n - 1, k);
    if marked(n - 1, lists[n][k]) {
      m := n - 1;
    } else {
      m := MarkedEarlier(lists, marked, n - 1, k);
    }
  }

  ghost function Lists(run: seq<State>): (lists: seq<seq<AgentRecord>>)
    ensures |lists| == |run| && forall i :: 0 <= i < |run| ==> lists[i] == run[i].registered
  {
    seq(|run|, i requires 0 <= i < |run| => run[i].registered)
  }

  /** Every entry of the list of registrations comes from a REGISTER line accepted earlier in the run. */
  lemma RegisteredEarlier(run: seq<State>, n: nat, k: nat) returns (m: nat)
    requires IsRun(run) && n < |run| && k < |run[n].registered|
    ensures m < n && RegisteredAt(run, m, run[n].registered[k])
  {
    var lists := Lists(run);
    ghost var marked := (i: nat, q: AgentRecord) => i + 1 < |run| && RegisteredAt(run, i, q);
    forall i: nat, j: nat | i + 1 < |lists| && j < |lists[i + 1]| ensures OldOrMarked(lists, marked, i, j) {
      NewAt(run, i, j);
    }
    m := MarkedEarlier(lists, marked, n, k);
  }

  /**
   In every state of every run, every stored record is wire-safe and is a
   registration accepted earlier in all fields but revision and expiry, at a
   revision that is no lower than the registration's.
   */
  lemma EveryRecordWasRegistered(run: seq<State>, n: nat, i: nat, r: AgentRecord)
    requires IsRun(run) && n < |run| && i < |run[n].nodes| && r in run[n].nodes[i].records
    ensures WireSafe(r)
    ensures exists m, q :: 0 <= m < n && RegisteredAt(run, m, q) && Descends(r, q)
  {
    RunKeepsInv(run, n);
    assert AllVouched(run[n].registered, run[n].nodes[i].records);
    assert Vouched(run[n].registered, r);
    var k :| 0 <= k < |run[n].registered| && Descends(r, run[n].registered[k]);
    var m := RegisteredEarlier(run, n, k);
  }
}
