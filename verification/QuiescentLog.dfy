/** What a node that stops with no append pending finds again: the exact condition, and the restarted registry. */
module QuiescentLog {
  import opened Bytes
  import opened Records
  import opened Registry
  import opened Persistence
  import opened Recovery
  import opened Restore
  import opened ConcurrentLog
  import opened LogRuns

  predicate IsAt(e: Entry, id: string, timestamp: u64) {
    e.agentId == id && e.timestamp == timestamp
  }

  /** The first entry of an agent with a given timestamp. */
  function FirstAt(es: seq<Entry>, id: string, timestamp: u64): (first: Option<Entry>)
    ensures first.Some? ==> first.value in es && IsAt(first.value, id, timestamp)
  {
    if es == [] then None
    else
      var earlier := FirstAt(es[..|es| - 1], id, timestamp);
      if earlier.Some? then earlier
      else if IsAt(es[|es| - 1], id, timestamp) then Some(es[|es| - 1])
      else None
  }

  lemma FirstAtSnoc(es: seq<Entry>, e: Entry, id: string, timestamp: u64)
    ensures FirstAt(es + [e], id, timestamp) ==
            if FirstAt(es, id, timestamp).Some? then FirstAt(es, id, timestamp) else if IsAt(e, id, timestamp) then Some(e) else None
  {
    assert (es + [e])[..|es|] == es;
  }

  /** `Newest` keeps the first entry that attains an agent's highest timestamp. */
  lemma {:induction false} NewestIsFirst(es: seq<Entry>, id: string)
    requires id in Newest(es)
    ensures FirstAt(es, id, Newest(es)[id].timestamp) == Some(Newest(es)[id])
  {
    if es != [] {
      var front, e := es[..|es| - 1], es[|es| - 1];
      assert es == front + [e];
      NewestSnoc(front, e);
      NewestBounds(front);
      FirstAtSnoc(front, e, id, Newest(es)[id].timestamp);
      if Newest(es)[id] == e && (id !in Newest(front) || e.timestamp > Newest(front)[id].timestamp) {
        assert FirstAt(front, id, e.timestamp).None?;
      } else {
        NewestIsFirst(front, id);
      }
    }
  }

  /** The entries that a node stopping now would replay from its whole log. */
  function WholeReplay(codec: Codec, s: System): seq<Entry> {
    CrashEntries(codec, s, |s.wal|)
  }

  /** Of what was appended for the live revision, the live fields came first. */
  ghost predicate LiveFieldsFirst(s: System, id: string)
    requires Has(s.live, id)
  {
    FirstAt(EntriesOf(s.logged), id, Lookup(s.live, id).revision) == Some(EntryOf(Lookup(s.live, id)))
  }

  lemma {:induction false} FirstAtFresh(es: seq<Entry>, id: string, timestamp: u64)
    requires timestamp > 0
    ensures FirstAt(Fresh(es, 0), id, timestamp) == FirstAt(es, id, timestamp)
  {
    if es != [] {
      var front, e := es[..|es| - 1], es[|es| - 1];
      assert es == front + [e];
      FirstAtFresh(front, id, timestamp);
      FirstAtSnoc(front, e, id, timestamp);
      FreshConcat(front, [e], 0);
      FreshOne(e, 0);
      if e.timestamp > 0 {
        FirstAtSnoc(Fresh(front, 0), e, id, timestamp);
      } else {
        assert Fresh(front, 0) + [] == Fresh(front, 0);
      }
    }
  }

  lemma ReplayIsLogged(codec: Codec, steps: seq<Step>)
    requires Lawful(codec) && AllStorable(codec, steps)
    ensures var s := RunSteps(codec, INITIAL, steps); WholeReplay(codec, s) == Fresh(EntriesOf(s.logged), 0)
  {
    var s := RunSteps(codec, INITIAL, steps);
    RunKeepsInv(codec, INITIAL, steps);
    var _ := CrashIsPrefix(codec, s, |s.wal|);
  }

  /**
   For every run that ends with no append pending and had no heartbeat: an agent
   comes back with its live persisted fields if and only if they are the first ones
   that were appended at the live revision.
   */
  lemma QuiescentFieldsIff(codec: Codec, steps: seq<Step>, id: string)
    requires Lawful(codec) && AllStorable(codec, steps) && NoBeats(steps)
    requires var s := RunSteps(codec, INITIAL, steps);
      s.pending == [] && Has(s.live, id) && Lookup(s.live, id).revision > 0
    ensures var s := RunSteps(codec, INITIAL, steps);
      var m := Newest(WholeReplay(codec, s));
      id in m && (m[id] == EntryOf(Lookup(s.live, id)) <==> LiveFieldsFirst(s, id))
  {
    var s := RunSteps(codec, INITIAL, steps);
    QuiescentLogAgrees(codec, steps, id);
    NewestIsFirst(WholeReplay(codec, s), id);
    ReplayIsLogged(codec, steps);
    FirstAtFresh(EntriesOf(s.logged), id, Lookup(s.live, id).revision);
  }

  /** The registry after a restart from the whole log. */
  function Restarted(codec: Codec, s: System, clock: nat -> int, farFuture: int): seq<AgentRecord> {
    LoadedAll([], RecordsOf(WholeReplay(codec, s), clock), farFuture)
  }

  /**
   The same through the restart: the registry that is loaded again holds exactly the
   live agents whose revision is not 0, at their live revisions, and with their live
   persisted fields if and only if those were logged first.
   */
  lemma QuiescentRestart(codec: Codec, steps: seq<Step>, clock: nat -> int, farFuture: int, id: string)
    requires Lawful(codec) && AllStorable(codec, steps) && NoBeats(steps)
    requires RunSteps(codec, INITIAL, steps).pending == []
    ensures var s := RunSteps(codec, INITIAL, steps);
      var restarted := Restarted(codec, s, clock, farFuture);
      && (Has(restarted, id) <==> Has(s.live, id) && Lookup(s.live, id).revision > 0)
      && (Has(restarted, id) ==>
            && Lookup(restarted, id).revision == Lookup(s.live, id).revision
            && (EntryOf(Lookup(restarted, id)) == EntryOf(Lookup(s.live, id)) <==> LiveFieldsFirst(s, id)))
  {
    var s := RunSteps(codec, INITIAL, steps);
    QuiescentLogAgrees(codec, steps, id);
    RestartHoldsNewest(WholeReplay(codec, s), clock, farFuture, id);
    assert Agree(Restarted(codec, s, clock, farFuture), Newest(WholeReplay(codec, s)), id);
    if Has(s.live, id) && Lookup(s.live, id).revision > 0 {
      QuiescentFieldsIff(codec, steps, id);
    }
  }
}
