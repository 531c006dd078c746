/** Repeated syncs with a page limit: the client pages only through them, its own highest revision being the cursor. */
module SyncPages {
  import opened Bytes
  import opened Records
  import opened Identity
  import opened Registry
  import opened Paging
  import opened PageCuts
  import opened SyncClient
  import opened SyncTheorems

  /** One sync and all that went with it. */
  datatype Exchange = Exchange(
    y: Sync, store: TrustStore, pulled: seq<AgentRecord>, merged: MergeState, pushed: seq<AgentRecord>, after: PushState)

  ghost predicate Exchanged(x: Exchange, local: seq<AgentRecord>, peer: seq<AgentRecord>) {
    Synced(x.y, x.store, local, peer, x.pulled, x.merged, x.pushed, x.after)
  }

  /** Syncs with a quiet peer, each with the same limit and with nothing rejected, until nothing is left to pull. */
  ghost predicate Repeats(local: seq<AgentRecord>, peer: seq<AgentRecord>, limit: u64, xs: seq<Exchange>)
    decreases xs
  {
    if xs == [] then HighestRevision(local) >= HighestRevision(peer)
    else
      && xs[0].y.limit == limit && Exchanged(xs[0], local, peer)
      && xs[0].pulled != [] && xs[0].merged.accepted == |xs[0].pulled|
      && Repeats(xs[0].merged.records, peer, limit, xs[1..])
  }

  function Result(local: seq<AgentRecord>, xs: seq<Exchange>): seq<AgentRecord>
    decreases xs
  {
    if xs == [] then local else Result(xs[0].merged.records, xs[1..])
  }

  function Pages(xs: seq<Exchange>): seq<seq<AgentRecord>> {
    if xs == [] then [] else [xs[0].pulled] + Pages(xs[1..])
  }

  // ---------- One exchange ----------

  lemma PageUnique(giver: seq<AgentRecord>, bound: u64, limit: nat, page: seq<AgentRecord>, expiresAt: int)
    requires UniqueIds(giver) && IsPull(giver, bound, limit, page)
    ensures UniqueIds(page) && UniqueIds(Restamp(page, expiresAt))
  {
    var sorted :| SortedFrom(sorted, Select(giver, bound)) && page == Page(sorted, limit);
    SelectUnique(giver, bound);
    PermutedUnique(sorted, Select(giver, bound));
  }

  /** The records after an exchange: the page, restamped, and what it does not name. */
  lemma ExchangeMembers(x: Exchange, local: seq<AgentRecord>, peer: seq<AgentRecord>, q: AgentRecord)
    requires Exchanged(x, local, peer) && x.merged.accepted == |x.pulled| && UniqueIds(local) && UniqueIds(peer)
    ensures var stamped := Restamp(x.pulled, PullExpiry(x.y.now));
      q in x.merged.records <==> q in stamped || (q in local && !Named(stamped, q.agentId))
  {
    PullTakesAll(x.y, x.store, local, HighestRevision(local), peer, x.pulled, x.merged);
    PageUnique(peer, HighestRevision(local), x.y.limit, x.pulled, PullExpiry(x.y.now));
    UpsertAllMembers(local, Restamp(x.pulled, PullExpiry(x.y.now)), q);
  }

  lemma ExchangeUnique(x: Exchange, local: seq<AgentRecord>, peer: seq<AgentRecord>)
    requires Exchanged(x, local, peer) && UniqueIds(local)
    ensures UniqueIds(x.merged.records)
  {
    PullNeverLowers(x.y, x.store, local, HighestRevision(local), peer, x.pulled, x.merged);
  }

  lemma PageTop(giver: seq<AgentRecord>, bound: u64, limit: nat, page: seq<AgentRecord>, i: nat)
    requires IsPull(giver, bound, limit, page) && i < |page|
    ensures bound < page[i].revision <= Cursor(page) && page[i] in giver
  {
    var sorted :| SortedFrom(sorted, Select(giver, bound)) && page == Page(sorted, limit);
    PageIsPrefix(sorted, limit, page);
    PulledFrom(giver, bound, limit, page, i);
    assert page[i] == sorted[i] && i <= |page| - 1;
  }

  /** After an exchange the local highest revision is that of the last record of the page. */
  lemma ExchangeCursor(x: Exchange, local: seq<AgentRecord>, peer: seq<AgentRecord>)
    requires Exchanged(x, local, peer) && x.merged.accepted == |x.pulled| && x.pulled != []
    requires UniqueIds(local) && UniqueIds(peer)
    ensures HighestRevision(x.merged.records) == Cursor(x.pulled) > HighestRevision(local)
  {
    var h, c, stamped := HighestRevision(local), Cursor(x.pulled), Restamp(x.pulled, PullExpiry(x.y.now));
    var last := |x.pulled| - 1;
    PageTop(peer, h, x.y.limit, x.pulled, last);
    forall q | q in x.merged.records ensures q.revision <= c {
      ExchangeMembers(x, local, peer, q);
      if q in stamped {
        var i :| 0 <= i < |stamped| && stamped[i] == q;
        PageTop(peer, h, x.y.limit, x.pulled, i);
      }
    }
    ExchangeMembers(x, local, peer, stamped[last]);
    assert stamped[last] in x.merged.records && stamped[last].revision == c;
    HighestIs(x.merged.records, c);
  }

  // ---------- All exchanges ----------

  lemma NothingLeft(local: seq<AgentRecord>, peer: seq<AgentRecord>, limit: nat)
    requires HighestRevision(local) >= HighestRevision(peer)
    ensures IsPull(peer, HighestRevision(local), limit, [])
  {
    var out := PullExists(peer, HighestRevision(local), limit);
    NothingAbove(peer, HighestRevision(local), limit, out);
  }

  /** The exchanges are a finished paged pull from the local highest revision. */
  lemma {:induction false} ExchangesArePages(local: seq<AgentRecord>, peer: seq<AgentRecord>, limit: u64, xs: seq<Exchange>)
    requires Repeats(local, peer, limit, xs) && UniqueIds(local) && UniqueIds(peer)
    ensures Finished(peer, HighestRevision(local), limit, Pages(xs))
    decreases xs
  {
    if xs == [] {
      NothingLeft(local, peer, limit);
    } else {
      ExchangeUnique(xs[0], local, peer);
      ExchangeCursor(xs[0], local, peer);
      ExchangesArePages(xs[0].merged.records, peer, limit, xs[1..]);
      assert Pages(xs)[0] == xs[0].pulled && Pages(xs)[1..] == Pages(xs[1..]);
    }
  }

  /** A record whose agent no later page names is still there in the end. */
  lemma {:induction false} Persists(local: seq<AgentRecord>, peer: seq<AgentRecord>, limit: u64, xs: seq<Exchange>, q: AgentRecord)
    requires Repeats(local, peer, limit, xs) && UniqueIds(local) && UniqueIds(peer) && q in local
    requires forall p :: p in Flat(Pages(xs)) ==> p.agentId != q.agentId
    ensures q in Result(local, xs)
    decreases xs
  {
    if xs != [] {
      ExchangeUnique(xs[0], local, peer);
      ExchangeMembers(xs[0], local, peer, q);
      FlatFirst(xs);
      assert !Named(Restamp(xs[0].pulled, PullExpiry(xs[0].y.now)), q.agentId) by {
        forall i | 0 <= i < |xs[0].pulled| ensures xs[0].pulled[i].agentId != q.agentId { assert xs[0].pulled[i] in Flat(Pages(xs)); }
      }
      Persists(xs[0].merged.records, peer, limit, xs[1..], q);
    }
  }

  lemma FlatFirst(xs: seq<Exchange>)
    requires xs != []
    ensures Flat(Pages(xs)) == xs[0].pulled + Flat(Pages(xs[1..]))
  {
    assert Pages(xs)[0] == xs[0].pulled && Pages(xs)[1..] == Pages(xs[1..]);
  }

  /** Later pages bring only records of the peer above the cursor. */
  lemma LaterAbove(local: seq<AgentRecord>, peer: seq<AgentRecord>, limit: u64, xs: seq<Exchange>, p: AgentRecord)
    requires Repeats(local, peer, limit, xs) && UniqueIds(local) && UniqueIds(peer) && p in Flat(Pages(xs))
    ensures p in peer && p.revision > HighestRevision(local)
  {
    ExchangesArePages(local, peer, limit, xs);
    FlatWithin(peer, HighestRevision(local), limit, Pages(xs));
    assert p in multiset(Flat(Pages(xs)));
    assert p in multiset(Select(peer, HighestRevision(local)));
    SelectMembers(peer, HighestRevision(local));
  }

  lemma StampedInResult(local: seq<AgentRecord>, peer: seq<AgentRecord>, limit: u64, xs: seq<Exchange>, r: AgentRecord)
    requires Repeats(local, peer, limit, xs) && UniqueIds(local) && UniqueIds(peer)
    requires xs != [] && r in xs[0].pulled
    ensures HasCopy(Result(local, xs), r)
  {
    var x, next := xs[0], xs[0].merged.records;
    var stamped := Restamp(x.pulled, PullExpiry(x.y.now));
    var i :| 0 <= i < |x.pulled| && x.pulled[i] == r;
    ExchangeUnique(x, local, peer);
    ExchangeCursor(x, local, peer);
    ExchangeMembers(x, local, peer, stamped[i]);
    PageTop(peer, HighestRevision(local), x.y.limit, x.pulled, i);
    forall p | p in Flat(Pages(xs[1..])) ensures p.agentId != r.agentId {
      LaterAbove(next, peer, limit, xs[1..], p);
      if p.agentId == r.agentId {
        SameStored(peer, p, r);
      }
    }
    Persists(next, peer, limit, xs[1..], stamped[i]);
    assert SameButExpiry(r, stamped[i]);
  }

  /** Whatever a page brought is there in the end, but for the expiry. */
  lemma {:induction false} DeliveredArrives(local: seq<AgentRecord>, peer: seq<AgentRecord>, limit: u64, xs: seq<Exchange>, r: AgentRecord)
    requires Repeats(local, peer, limit, xs) && UniqueIds(local) && UniqueIds(peer) && r in Flat(Pages(xs))
    ensures HasCopy(Result(local, xs), r)
    decreases xs
  {
    if xs != [] {
      FlatFirst(xs);
      if r in xs[0].pulled {
        StampedInResult(local, peer, limit, xs, r);
      } else {
        ExchangeUnique(xs[0], local, peer);
        DeliveredArrives(xs[0].merged.records, peer, limit, xs[1..], r);
      }
    }
  }

  /** Whatever is there in the end was there at the start or was brought by a page. */
  lemma {:induction false} ArrivedWasDelivered(local: seq<AgentRecord>, peer: seq<AgentRecord>, limit: u64, xs: seq<Exchange>, q: AgentRecord)
    requires Repeats(local, peer, limit, xs) && UniqueIds(local) && UniqueIds(peer)
    requires q in Result(local, xs)
    ensures q in local || HasCopy(Flat(Pages(xs)), q)
    decreases xs
  {
    if xs != [] {
      FlatFirst(xs);
      ExchangeUnique(xs[0], local, peer);
      ArrivedWasDelivered(xs[0].merged.records, peer, limit, xs[1..], q);
      if q in xs[0].merged.records {
        ExchangeMembers(xs[0], local, peer, q);
        FromPage(xs[0], q);
      }
      CopyInLonger(xs[0].pulled, Flat(Pages(xs[1..])), q);
    }
  }

  lemma FromPage(x: Exchange, q: AgentRecord)
    ensures q in Restamp(x.pulled, PullExpiry(x.y.now)) ==> HasCopy(x.pulled, q)
  {
    var stamped := Restamp(x.pulled, PullExpiry(x.y.now));
    if q in stamped {
      var i :| 0 <= i < |stamped| && stamped[i] == q;
      assert x.pulled[i] in x.pulled && SameButExpiry(q, x.pulled[i]);
    }
  }

  lemma CopyInLonger(a: seq<AgentRecord>, b: seq<AgentRecord>, q: AgentRecord)
    ensures HasCopy(a, q) || HasCopy(b, q) ==> HasCopy(a + b, q)
  {
    if HasCopy(a, q) {
      var c :| c in a && SameButExpiry(q, c);
      assert c in a + b;
    }
    if HasCopy(b, q) {
      var c :| c in b && SameButExpiry(q, c);
      assert c in a + b;
    }
  }

  lemma NotDeliveredIsMissing(local: seq<AgentRecord>, peer: seq<AgentRecord>, limit: u64, xs: seq<Exchange>, r: AgentRecord)
    requires Repeats(local, peer, limit, xs) && UniqueIds(local) && UniqueIds(peer)
    requires r in peer && r.revision > HighestRevision(local) && HasCopy(Result(local, xs), r)
    ensures r in Flat(Pages(xs))
  {
    var c :| c in Result(local, xs) && SameButExpiry(r, c);
    assert c.revision == r.revision && c.agentId == r.agentId;
    ArrivedWasDelivered(local, peer, limit, xs, c);
    var p :| p in Flat(Pages(xs)) && SameButExpiry(c, p);
    assert p.agentId == r.agentId;
    LaterAbove(local, peer, limit, xs, p);
    SameStored(peer, p, r);
  }

  /** Everything of the peer above the start arrives if and only if the pages together are everything. */
  lemma AllArrivesIff(local: seq<AgentRecord>, peer: seq<AgentRecord>, limit: u64, xs: seq<Exchange>)
    requires Repeats(local, peer, limit, xs) && UniqueIds(local) && UniqueIds(peer)
    ensures Covered(peer, Result(local, xs), HighestRevision(local)) <==>
            forall r :: r in peer && r.revision > HighestRevision(local) ==> r in Flat(Pages(xs))
  {
    var h, result, flat := HighestRevision(local), Result(local, xs), Flat(Pages(xs));
    if Covered(peer, result, h) {
      forall r | r in peer && r.revision > h ensures r in flat {
        assert HasCopy(result, r);
        NotDeliveredIsMissing(local, peer, limit, xs, r);
      }
    }
    if forall r :: r in peer && r.revision > h ==> r in flat {
      forall r | r in peer && r.revision > h ensures HasCopy(result, r) {
        DeliveredArrives(local, peer, limit, xs, r);
      }
    }
  }

  lemma AllDeliveredIff(peer: seq<AgentRecord>, bound: u64, flat: seq<AgentRecord>)
    requires UniqueIds(peer) && multiset(flat) <= multiset(Select(peer, bound))
    ensures multiset(flat) == multiset(Select(peer, bound)) <==> forall r :: r in peer && r.revision > bound ==> r in flat
  {
    var all := Select(peer, bound);
    SelectMembers(peer, bound);
    if multiset(flat) == multiset(all) {
      forall r | r in all ensures r in flat {
        assert r in multiset(all);
        assert r in multiset(flat);
      }
    }
    if forall r :: r in all ==> r in flat {
      SelectUnique(peer, bound);
      forall r ensures multiset(flat)[r] == multiset(all)[r] {
        if r in all {
          CountedOnce(all, r);
          assert r in multiset(flat);
        } else {
          assert r !in multiset(all);
        }
      }
    }
  }

  /**
   Repeating a sync with a page limit of at least one, with nothing rejected, until
   nothing is left to pull brings over everything the peer had above the start, but
   for the expiry, if and only if no page boundary of it falls between equal revisions.
   */
  lemma RepeatedSyncsCompleteIff(local: seq<AgentRecord>, peer: seq<AgentRecord>, limit: u64, xs: seq<Exchange>, sorted: seq<AgentRecord>)
    requires limit > 0 && Repeats(local, peer, limit, xs) && UniqueIds(local) && UniqueIds(peer)
    requires SortedFrom(sorted, Select(peer, HighestRevision(local)))
    ensures Covered(peer, Result(local, xs), HighestRevision(local)) <==> CleanCuts(sorted, limit)
  {
    var h := HighestRevision(local);
    ExchangesArePages(local, peer, limit, xs);
    PagedPullCompleteIff(peer, h, limit, Pages(xs), sorted);
    AllDeliveredIff(peer, h, Flat(Pages(xs)));
    AllArrivesIff(local, peer, limit, xs);
  }
}
