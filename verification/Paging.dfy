/** Pulling a registry page by page, with the last revision received as the next cursor. */
module Paging {
  import opened Bytes
  import opened Records
  import opened Registry

  // ---------- Selecting and sorting ----------

  lemma {:induction false} SelectConcat(x: seq<AgentRecord>, y: seq<AgentRecord>, revision: u64)
    ensures Select(x + y, revision) == Select(x, revision) + Select(y, revision)
  {
    if x == [] {
      assert x + y == y;
    } else {
      assert (x + y)[1..] == x[1..] + y;
      SelectConcat(x[1..], y, revision);
    }
  }

  lemma {:induction false} SelectAll(x: seq<AgentRecord>, revision: u64)
    requires forall i :: 0 <= i < |x| ==> x[i].revision > revision
    ensures Select(x, revision) == x
  {
    if x != [] {
      SelectAll(x[1..], revision);
    }
  }

  lemma {:induction false} SelectCounts(x: seq<AgentRecord>, revision: u64, r: AgentRecord)
    ensures multiset(Select(x, revision))[r] == if r.revision > revision then multiset(x)[r] else 0
  {
    if x != [] {
      assert x == [x[0]] + x[1..];
      SelectCounts(x[1..], revision, r);
    }
  }

  /** What a selection holds depends only on what it is taken from, not on its order. */
  lemma SelectOfPermutation(x: seq<AgentRecord>, y: seq<AgentRecord>, revision: u64)
    requires multiset(x) == multiset(y)
    ensures multiset(Select(x, revision)) == multiset(Select(y, revision))
  {
    forall r ensures multiset(Select(x, revision))[r] == multiset(Select(y, revision))[r] {
      SelectCounts(x, revision, r);
      SelectCounts(y, revision, r);
    }
  }

  lemma {:induction false} SelectTwice(x: seq<AgentRecord>, low: u64, high: u64)
    requires low <= high
    ensures Select(Select(x, low), high) == Select(x, high)
  {
    if x != [] {
      SelectTwice(x[1..], low, high);
      if x[0].revision > low {
        assert ([x[0]] + Select(x[1..], low))[1..] == Select(x[1..], low);
      }
    }
  }

  predicate Strict(s: seq<AgentRecord>) {
    forall i, j :: 0 <= i < j < |s| ==> s[i].revision < s[j].revision
  }

  ghost predicate DistinctRevisions(s: seq<AgentRecord>) {
    forall r :: r in s ==> multiset(s)[r] == 1 && forall q :: q in s && q.revision == r.revision ==> q == r
  }

  lemma CountedTwice(s: seq<AgentRecord>, i: nat, j: nat)
    requires i < j < |s| && s[i] == s[j]
    ensures multiset(s)[s[i]] >= 2
  {
    assert s == s[..j] + [s[j]] + s[j + 1..];
    assert s[..j][i] == s[i];
    assert s[i] in multiset(s[..j]);
  }

  lemma SortedIsStrict(sorted: seq<AgentRecord>, s: seq<AgentRecord>)
    requires SortedFrom(sorted, s) && DistinctRevisions(s)
    ensures Strict(sorted)
  {
    forall i, j | 0 <= i < j < |sorted| ensures sorted[i].revision < sorted[j].revision {
      assert sorted[i] in multiset(sorted) && sorted[j] in multiset(sorted);
      assert sorted[i] in s && sorted[j] in s;
      if sorted[i].revision == sorted[j].revision {
        CountedTwice(sorted, i, j);
      }
    }
  }

  lemma SameHead(a: seq<AgentRecord>, b: seq<AgentRecord>)
    requires multiset(a) == multiset(b) && a != [] && b != []
    requires Strict(a) && Ascending(b)
    ensures a[0] == b[0]
  {
    assert a[0] in multiset(b) && b[0] in multiset(a);
    var k :| 0 <= k < |b| && b[k] == a[0];
    var i :| 0 <= i < |a| && a[i] == b[0];
    assert b[0].revision <= b[k].revision;
  }

  lemma SameTail(a: seq<AgentRecord>, b: seq<AgentRecord>)
    requires multiset(a) == multiset(b) && a != [] && b != [] && a[0] == b[0]
    ensures multiset(a[1..]) == multiset(b[1..])
  {
    assert a == [a[0]] + a[1..] && b == [b[0]] + b[1..];
    assert multiset(a) == multiset{a[0]} + multiset(a[1..]);
    assert multiset(b) == multiset{b[0]} + multiset(b[1..]);
    assert multiset(a[1..]) == multiset(a) - multiset{a[0]};
    assert multiset(b[1..]) == multiset(b) - multiset{b[0]};
  }

  /** There is only one way to sort records with distinct revisions. */
  lemma {:induction false} StrictSortIsUnique(a: seq<AgentRecord>, b: seq<AgentRecord>)
    requires multiset(a) == multiset(b) && Strict(a) && Ascending(b)
    ensures a == b
  {
    assert |multiset(a)| == |a| && |multiset(b)| == |b|;
    if a != [] {
      SameHead(a, b);
      SameTail(a, b);
      StrictSortIsUnique(a[1..], b[1..]);
      assert a == [a[0]] + a[1..] && b == [b[0]] + b[1..];
    }
  }

  // ---------- Pages ----------

  function Flat(pages: seq<seq<AgentRecord>>): seq<AgentRecord> {
    if pages == [] then [] else pages[0] + Flat(pages[1..])
  }

  function Cursor(page: seq<AgentRecord>): u64
    requires page != []
  {
    page[|page| - 1].revision
  }

  /** A client's pulls so far: each page was not empty and gave the cursor of the next. */
  ghost predicate Pulls(records: seq<AgentRecord>, cursor: u64, limit: nat, pages: seq<seq<AgentRecord>>)
    decreases pages
  {
    pages != [] ==>
      && pages[0] != []
      && IsPull(records, cursor, limit, pages[0])
      && Pulls(records, Cursor(pages[0]), limit, pages[1..])
  }

  /** The pulls have come to an end: the next page is empty. */
  ghost predicate Finished(records: seq<AgentRecord>, cursor: u64, limit: nat, pages: seq<seq<AgentRecord>>)
    decreases pages
  {
    if pages == [] then IsPull(records, cursor, limit, [])
    else
      && pages[0] != []
      && IsPull(records, cursor, limit, pages[0])
      && Finished(records, Cursor(pages[0]), limit, pages[1..])
  }

  lemma EmptyPage(records: seq<AgentRecord>, cursor: u64, limit: nat)
    requires IsPull(records, cursor, limit, [])
    ensures Select(records, cursor) == []
  {
    var sorted :| SortedFrom(sorted, Select(records, cursor)) && [] == Page(sorted, limit);
    assert |multiset(sorted)| == |multiset(Select(records, cursor))|;
  }

  lemma SelectDrops(x: seq<AgentRecord>, r: AgentRecord)
    requires r in x
    ensures |Select(x, r.revision)| < |x|
  {
    var y := Select(x, r.revision);
    forall q ensures multiset(y)[q] <= (multiset(x) - multiset{r})[q] { SelectCounts(x, r.revision, q); }
    SubMultisetSize(multiset(y), multiset(x) - multiset{r});
    assert r in multiset(x);
    assert |multiset(x) - multiset{r}| == |x| - 1 && |multiset(y)| == |y|;
  }

  lemma PageIsSelected(records: seq<AgentRecord>, cursor: u64, limit: nat, page: seq<AgentRecord>, i: nat)
    requires i < |page| && IsPull(records, cursor, limit, page)
    ensures page[i] in Select(records, cursor)
  {
    var sorted :| SortedFrom(sorted, Select(records, cursor)) && page == Page(sorted, limit);
    assert page[i] == sorted[i];
    assert sorted[i] in multiset(sorted);
    assert sorted[i] in multiset(Select(records, cursor));
  }

  lemma PageAdvances(records: seq<AgentRecord>, cursor: u64, limit: nat, page: seq<AgentRecord>)
    requires page != [] && IsPull(records, cursor, limit, page)
    ensures cursor < Cursor(page)
    ensures |Select(records, Cursor(page))| < |Select(records, cursor)|
  {
    var last := LastOfPage(records, cursor, limit, page);
    SelectedAdvances(records, cursor, last);
  }

  lemma LastOfPage(records: seq<AgentRecord>, cursor: u64, limit: nat, page: seq<AgentRecord>) returns (last: AgentRecord)
    requires page != [] && IsPull(records, cursor, limit, page)
    ensures last in Select(records, cursor) && last.revision == Cursor(page)
  {
    last := page[|page| - 1];
    PageIsSelected(records, cursor, limit, page, |page| - 1);
  }

  lemma SelectedAdvances(records: seq<AgentRecord>, cursor: u64, r: AgentRecord)
    requires r in Select(records, cursor)
    ensures cursor < r.revision && |Select(records, r.revision)| < |Select(records, cursor)|
  {
    SelectMembers(records, cursor);
    SelectTwice(records, cursor, r.revision);
    SelectDrops(Select(records, cursor), r);
  }

  lemma SubMultisetSize(a: multiset<AgentRecord>, b: multiset<AgentRecord>)
    requires a <= b
    ensures |a| <= |b|
  {
    assert b == a + (b - a);
  }

  /** Repeating the pull terminates: there are no more pages than records above the start. */
  lemma {:induction false} PullsTerminate(records: seq<AgentRecord>, cursor: u64, limit: nat, pages: seq<seq<AgentRecord>>)
    requires Pulls(records, cursor, limit, pages)
    ensures |pages| <= |Select(records, cursor)|
    decreases pages
  {
    if pages != [] {
      PageAdvances(records, cursor, limit, pages[0]);
      PullsTerminate(records, Cursor(pages[0]), limit, pages[1..]);
    }
  }

  lemma {:induction false} SelectNone(x: seq<AgentRecord>, revision: u64)
    requires forall i :: 0 <= i < |x| ==> x[i].revision <= revision
    ensures Select(x, revision) == []
  {
    if x != [] {
      SelectNone(x[1..], revision);
    }
  }

  lemma SelectSplit(low: seq<AgentRecord>, high: seq<AgentRecord>, revision: u64)
    requires forall i :: 0 <= i < |low| ==> low[i].revision <= revision
    requires forall i :: 0 <= i < |high| ==> high[i].revision > revision
    ensures Select(low + high, revision) == high
  {
    SelectNone(low, revision);
    SelectAll(high, revision);
    SelectConcat(low, high, revision);
  }

  lemma StrictSplit(sorted: seq<AgentRecord>, k: nat, low: seq<AgentRecord>, high: seq<AgentRecord>)
    requires 0 < k == |low| && sorted == low + high && Strict(sorted)
    ensures forall i :: 0 <= i < |low| ==> low[i].revision <= low[k - 1].revision
    ensures forall i :: 0 <= i < |high| ==> high[i].revision > low[k - 1].revision
    ensures Strict(high)
  {
    forall i | 0 <= i < |low| ensures low[i].revision <= low[k - 1].revision {
      assert sorted[i] == low[i] && sorted[k - 1] == low[k - 1];
    }
    forall i | 0 <= i < |high| ensures high[i].revision > low[k - 1].revision {
      assert sorted[k + i] == high[i] && sorted[k - 1] == low[k - 1];
    }
    forall i, j | 0 <= i < j < |high| ensures high[i].revision < high[j].revision {
      assert sorted[k + i] == high[i] && sorted[k + j] == high[j];
    }
  }

  lemma RestSelected(records: seq<AgentRecord>, cursor: u64, sorted: seq<AgentRecord>, c: u64)
    requires multiset(sorted) == multiset(Select(records, cursor)) && cursor <= c
    ensures multiset(Select(sorted, c)) == multiset(Select(records, c))
  {
    SelectTwice(records, cursor, c);
    SelectOfPermutation(sorted, Select(records, cursor), c);
  }

  lemma SortedAbove(records: seq<AgentRecord>, cursor: u64, sorted: seq<AgentRecord>, i: nat)
    requires multiset(sorted) == multiset(Select(records, cursor)) && i < |sorted|
    ensures sorted[i].revision > cursor
  {
    assert sorted[i] in multiset(sorted);
    assert sorted[i] in Select(records, cursor);
    SelectMembers(records, cursor);
  }

  lemma DropPage(
    records: seq<AgentRecord>, cursor: u64, sorted: seq<AgentRecord>, low: seq<AgentRecord>, high: seq<AgentRecord>)
    requires low != [] && sorted == low + high
    requires SortedFrom(sorted, Select(records, cursor)) && Strict(sorted)
    ensures SortedFrom(high, Select(records, Cursor(low))) && Strict(high)
  {
    StrictSplit(sorted, |low|, low, high);
    SortedAbove(records, cursor, sorted, |low| - 1);
    RestSelected(records, cursor, sorted, Cursor(low));
    SelectSplit(low, high, Cursor(low));
  }

  /** With distinct revisions a page is the next stretch of the sorted list. */
  lemma NextPage(records: seq<AgentRecord>, cursor: u64, limit: nat, page: seq<AgentRecord>, sorted: seq<AgentRecord>)
    returns (rest: seq<AgentRecord>)
    requires page != [] && IsPull(records, cursor, limit, page)
    requires SortedFrom(sorted, Select(records, cursor)) && Strict(sorted)
    ensures sorted == page + rest
    ensures SortedFrom(rest, Select(records, Cursor(page))) && Strict(rest)
  {
    var other :| SortedFrom(other, Select(records, cursor)) && page == Page(other, limit);
    StrictSortIsUnique(sorted, other);
    rest := sorted[|page|..];
    assert sorted == page + rest;
    DropPage(records, cursor, sorted, page, rest);
  }

  lemma {:induction false} PagesAreSorted(
    records: seq<AgentRecord>, cursor: u64, limit: nat, pages: seq<seq<AgentRecord>>, sorted: seq<AgentRecord>)
    requires Finished(records, cursor, limit, pages)
    requires SortedFrom(sorted, Select(records, cursor)) && Strict(sorted)
    ensures Flat(pages) == sorted
    decreases pages
  {
    if pages == [] {
      EmptyPage(records, cursor, limit);
      assert |multiset(sorted)| == |sorted|;
    } else {
      var rest := NextPage(records, cursor, limit, pages[0], sorted);
      PagesAreSorted(records, Cursor(pages[0]), limit, pages[1..], rest);
    }
  }

  /** Paged pull is complete: with distinct revisions it delivers what one unlimited pull delivers, in the same order. */
  lemma PagedPullComplete(
    records: seq<AgentRecord>, start: u64, limit: nat, pages: seq<seq<AgentRecord>>, full: seq<AgentRecord>)
    requires DistinctRevisions(Select(records, start))
    requires Finished(records, start, limit, pages)
    requires IsPull(records, start, 0, full)
    ensures Flat(pages) == full
    ensures multiset(Flat(pages)) == multiset(Select(records, start))
  {
    SortedIsStrict(full, Select(records, start));
    PagesAreSorted(records, start, limit, pages, full);
  }

  /** A finished sequence of pulls exists from every state and cursor. */
  lemma PagedPullExists(records: seq<AgentRecord>, cursor: u64, limit: nat) returns (pages: seq<seq<AgentRecord>>)
    ensures Finished(records, cursor, limit, pages)
    decreases |Select(records, cursor)|
  {
    var sorted := SortByRevision(Select(records, cursor));
    var page := Page(sorted, limit);
    assert IsPull(records, cursor, limit, page);
    if page == [] {
      pages := [];
    } else {
      PageAdvances(records, cursor, limit, page);
      var rest := PagedPullExists(records, Cursor(page), limit);
      pages := [page] + rest;
      assert pages[1..] == rest;
    }
  }
}
