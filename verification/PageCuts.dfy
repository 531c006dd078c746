/** When a paged pull is complete although revisions may repeat: the exact condition, for every limit. */
module PageCuts {
  import opened Bytes
  import opened Records
  import opened Registry
  import opened Paging

  /** No page boundary of the sorted list falls between two equal revisions. */
  predicate CleanCuts(s: seq<AgentRecord>, limit: nat)
    requires limit > 0
    decreases |s|
  {
    |s| > limit ==> s[limit - 1].revision < s[limit].revision && CleanCuts(s[limit..], limit)
  }

  // ---------- Where a sorted list passes a revision ----------

  lemma {:induction false} AscendingCut(s: seq<AgentRecord>, v: u64, i: nat)
    requires Ascending(s) && i < |s|
    ensures s[i].revision > v <==> i >= |s| - |Select(s, v)|
  {
    if s[0].revision > v {
      SelectAll(s, v);
    } else if i > 0 {
      AscendingCut(s[1..], v, i - 1);
    }
  }

  /** All arrangements show the same revisions in the same places. */
  lemma SameRevisions(a: seq<AgentRecord>, b: seq<AgentRecord>, i: nat)
    requires multiset(a) == multiset(b) && Ascending(a) && Ascending(b)
    ensures |a| == |b| && (i < |a| ==> a[i].revision == b[i].revision)
  {
    assert |multiset(a)| == |a| && |multiset(b)| == |b|;
    if i < |a| {
      SameCut(a, b, a[i].revision, i);
      SameCut(a, b, b[i].revision, i);
    }
  }

  lemma SameCut(a: seq<AgentRecord>, b: seq<AgentRecord>, v: u64, i: nat)
    requires multiset(a) == multiset(b) && |a| == |b| && Ascending(a) && Ascending(b) && i < |a|
    ensures a[i].revision > v <==> b[i].revision > v
  {
    SelectOfPermutation(a, b, v);
    assert |multiset(Select(a, v))| == |Select(a, v)| && |multiset(Select(b, v))| == |Select(b, v)|;
    AscendingCut(a, v, i);
    AscendingCut(b, v, i);
  }

  // ---------- One page ----------

  /** How many records a page of `sorted` leaves above its cursor. */
  lemma LeftAbove(records: seq<AgentRecord>, cursor: u64, sorted: seq<AgentRecord>, n: nat)
    requires SortedFrom(sorted, Select(records, cursor)) && 0 < n <= |sorted|
    ensures var c := sorted[n - 1].revision;
      && multiset(Select(sorted, c)) == multiset(Select(records, c))
      && |Select(records, c)| <= |sorted| - n
      && (|Select(records, c)| == |sorted| - n <==> n == |sorted| || sorted[n - 1].revision < sorted[n].revision)
  {
    var c := sorted[n - 1].revision;
    SortedAbove(records, cursor, sorted, n - 1);
    RestSelected(records, cursor, sorted, c);
    assert |multiset(Select(sorted, c))| == |Select(sorted, c)| && |multiset(Select(records, c))| == |Select(records, c)|;
    AscendingCut(sorted, c, n - 1);
    if n < |sorted| {
      AscendingCut(sorted, c, n);
    }
  }

  lemma SizeOfSorted(sorted: seq<AgentRecord>, x: seq<AgentRecord>)
    requires SortedFrom(sorted, x)
    ensures |sorted| == |x|
  {
    assert |multiset(sorted)| == |sorted| && |multiset(x)| == |x|;
  }

  /** A page and what lies above its cursor never exceed what there was. */
  lemma PageAndRest(records: seq<AgentRecord>, cursor: u64, limit: nat, page: seq<AgentRecord>, r: AgentRecord)
    requires page != [] && IsPull(records, cursor, limit, page)
    ensures multiset(page)[r] + multiset(Select(records, Cursor(page)))[r] <= multiset(Select(records, cursor))[r]
  {
    var sorted :| SortedFrom(sorted, Select(records, cursor)) && page == Page(sorted, limit);
    PageIsPrefix(sorted, limit, page);
    SortedPageAndRest(records, cursor, sorted, |page|, page, Cursor(page), r);
  }

  lemma PageIsPrefix(sorted: seq<AgentRecord>, limit: nat, page: seq<AgentRecord>)
    requires page == Page(sorted, limit) && page != []
    ensures 0 < |page| <= |sorted| && page == sorted[..|page|] && Cursor(page) == sorted[|page| - 1].revision
  {
    assert sorted[..|sorted|] == sorted;
  }

  lemma SortedPageAndRest(records: seq<AgentRecord>, cursor: u64, sorted: seq<AgentRecord>, n: nat,
                          page: seq<AgentRecord>, c: u64, r: AgentRecord)
    requires SortedFrom(sorted, Select(records, cursor))
    requires 0 < n <= |sorted| && page == sorted[..n] && c == sorted[n - 1].revision
    ensures multiset(page)[r] + multiset(Select(records, c))[r] <= multiset(Select(records, cursor))[r]
  {
    SortedAbove(records, cursor, sorted, n - 1);
    PageCount(sorted, n, page, c, r);
    CountAbove(records, cursor, c, r);
  }

  lemma CountAbove(records: seq<AgentRecord>, low: u64, high: u64, r: AgentRecord)
    requires low <= high
    ensures multiset(Select(records, high))[r] == if r.revision > high then multiset(Select(records, low))[r] else 0
  {
    SelectCounts(records, low, r);
    SelectCounts(records, high, r);
  }

  lemma PageCount(sorted: seq<AgentRecord>, n: nat, page: seq<AgentRecord>, c: u64, r: AgentRecord)
    requires Ascending(sorted) && 0 < n <= |sorted| && page == sorted[..n] && c == sorted[n - 1].revision
    ensures multiset(page)[r] <= multiset(sorted)[r]
    ensures r.revision > c ==> multiset(page)[r] == 0
  {
    assert sorted == page + sorted[n..];
    if r.revision > c {
      NotInPage(sorted, n, r);
    }
  }

  lemma NotInPage(sorted: seq<AgentRecord>, n: nat, r: AgentRecord)
    requires Ascending(sorted) && 0 < n <= |sorted| && r.revision > sorted[n - 1].revision
    ensures multiset(sorted[..n])[r] == 0
  {
    forall i | 0 <= i < n ensures sorted[i] != r {
      assert sorted[i].revision <= sorted[n - 1].revision;
    }
    assert r !in sorted[..n];
  }

  /** However it is paged, no record is delivered twice and none that was not there. */
  lemma {:induction false} NothingTwice(records: seq<AgentRecord>, cursor: u64, limit: nat, pages: seq<seq<AgentRecord>>, r: AgentRecord)
    requires Pulls(records, cursor, limit, pages)
    ensures multiset(Flat(pages))[r] <= multiset(Select(records, cursor))[r]
    decreases pages
  {
    if pages != [] {
      PageAndRest(records, cursor, limit, pages[0], r);
      NothingTwice(records, Cursor(pages[0]), limit, pages[1..], r);
    }
  }

  lemma {:induction false} FinishedPulls(records: seq<AgentRecord>, cursor: u64, limit: nat, pages: seq<seq<AgentRecord>>)
    requires Finished(records, cursor, limit, pages)
    ensures Pulls(records, cursor, limit, pages)
    decreases pages
  {
    if pages != [] {
      FinishedPulls(records, Cursor(pages[0]), limit, pages[1..]);
    }
  }

  lemma FlatWithin(records: seq<AgentRecord>, cursor: u64, limit: nat, pages: seq<seq<AgentRecord>>)
    requires Finished(records, cursor, limit, pages)
    ensures multiset(Flat(pages)) <= multiset(Select(records, cursor)) && |Flat(pages)| <= |Select(records, cursor)|
  {
    var a, b := multiset(Flat(pages)), multiset(Select(records, cursor));
    FinishedPulls(records, cursor, limit, pages);
    forall r ensures a[r] <= b[r] { NothingTwice(records, cursor, limit, pages, r); }
    SubMultisetSize(a, b);
    assert |a| == |Flat(pages)| && |b| == |Select(records, cursor)|;
  }

  // ---------- All pages ----------

  lemma CleanSplit(sorted: seq<AgentRecord>, n: nat, low: seq<AgentRecord>, high: seq<AgentRecord>, c: u64)
    requires 0 < n == |low| && sorted == low + high && high != [] && Ascending(sorted)
    requires c == sorted[n - 1].revision < sorted[n].revision
    ensures forall i :: 0 <= i < |low| ==> low[i].revision <= c
    ensures forall i :: 0 <= i < |high| ==> high[i].revision > c
  {
    forall i | 0 <= i < |low| ensures low[i].revision <= c { assert sorted[i] == low[i]; }
    forall i | 0 <= i < |high| ensures high[i].revision > c { assert sorted[n + i] == high[i]; }
  }

  lemma CleanRest(records: seq<AgentRecord>, cursor: u64, sorted: seq<AgentRecord>, low: seq<AgentRecord>,
                  high: seq<AgentRecord>, c: u64)
    requires SortedFrom(sorted, Select(records, cursor)) && low != [] && high != [] && sorted == low + high
    requires c == sorted[|low| - 1].revision < sorted[|low|].revision
    ensures multiset(high) == multiset(Select(records, c))
  {
    SortedAbove(records, cursor, sorted, |low| - 1);
    RestSelected(records, cursor, sorted, c);
    CleanSplit(sorted, |low|, low, high, c);
    SelectSplit(low, high, c);
  }

  lemma AscendingTail(s: seq<AgentRecord>, n: nat)
    requires Ascending(s) && n <= |s|
    ensures Ascending(s[n..])
  {
    forall i, j | 0 <= i < j < |s[n..]| ensures s[n..][i].revision <= s[n..][j].revision {
      assert s[n + i].revision <= s[n + j].revision;
    }
  }

  lemma CleanTail(records: seq<AgentRecord>, cursor: u64, sorted: seq<AgentRecord>, n: nat, c: u64)
    requires SortedFrom(sorted, Select(records, cursor)) && 0 < n < |sorted|
    requires c == sorted[n - 1].revision < sorted[n].revision
    ensures SortedFrom(sorted[n..], Select(records, c))
  {
    var low, high := sorted[..n], sorted[n..];
    AscendingTail(sorted, n);
    assert sorted == low + high;
    CleanRest(records, cursor, sorted, low, high, c);
  }

  /** The page's place in the reference arrangement: the same length and the same cursor. */
  lemma PagePlace(records: seq<AgentRecord>, cursor: u64, limit: nat, page: seq<AgentRecord>, sorted: seq<AgentRecord>)
    requires limit > 0 && page != [] && IsPull(records, cursor, limit, page)
    requires SortedFrom(sorted, Select(records, cursor))
    ensures |page| == if |sorted| > limit then limit else |sorted|
    ensures Cursor(page) == sorted[|page| - 1].revision
  {
    var other :| SortedFrom(other, Select(records, cursor)) && page == Page(other, limit);
    SameRevisions(other, sorted, |page| - 1);
  }

  /** What one page contributes: it takes `n`, and leaves all the others exactly at a clean cut. */
  lemma PageTakes(records: seq<AgentRecord>, cursor: u64, limit: nat, page: seq<AgentRecord>, sorted: seq<AgentRecord>)
    requires limit > 0 && page != [] && IsPull(records, cursor, limit, page)
    requires SortedFrom(sorted, Select(records, cursor))
    ensures var n, left := |page|, |Select(records, Cursor(page))|;
      && 0 < n <= |sorted| && (n < |sorted| ==> n == limit) && left <= |sorted| - n
      && (n == |sorted| ==> n <= limit && left == 0)
      && (n < |sorted| ==> (left == |sorted| - n <==> sorted[n - 1].revision < sorted[n].revision))
      && (n < |sorted| && left == |sorted| - n ==> SortedFrom(sorted[n..], Select(records, Cursor(page))))
  {
    var n := |page|;
    PagePlace(records, cursor, limit, page, sorted);
    LeftAbove(records, cursor, sorted, n);
    if n < |sorted| && sorted[n - 1].revision < sorted[n].revision {
      CleanTail(records, cursor, sorted, n, Cursor(page));
    }
  }

  lemma {:induction false} CompleteBySize(
    records: seq<AgentRecord>, cursor: u64, limit: nat, pages: seq<seq<AgentRecord>>, sorted: seq<AgentRecord>)
    requires limit > 0 && Finished(records, cursor, limit, pages) && SortedFrom(sorted, Select(records, cursor))
    ensures |Flat(pages)| == |sorted| <==> CleanCuts(sorted, limit)
    decreases pages
  {
    if pages == [] {
      EmptyPage(records, cursor, limit);
      SizeOfSorted(sorted, Select(records, cursor));
    } else {
      var n, c := |pages[0]|, Cursor(pages[0]);
      PageTakes(records, cursor, limit, pages[0], sorted);
      FlatWithin(records, c, limit, pages[1..]);
      if n < |sorted| && |Select(records, c)| == |sorted| - n {
        CompleteBySize(records, c, limit, pages[1..], sorted[n..]);
      }
    }
  }

  lemma SubMultisetFull(a: multiset<AgentRecord>, b: multiset<AgentRecord>)
    requires a <= b && |a| == |b|
    ensures a == b
  {
    assert b == a + (b - a);
    assert |b - a| == 0;
  }

  /**
   For every limit, a paged pull delivers each record above the start at most
   once, and all of them exactly when no page boundary of the sorted records falls
   between equal revisions.
   */
  lemma PagedPullCompleteIff(
    records: seq<AgentRecord>, start: u64, limit: nat, pages: seq<seq<AgentRecord>>, sorted: seq<AgentRecord>)
    requires limit > 0 && Finished(records, start, limit, pages) && SortedFrom(sorted, Select(records, start))
    ensures multiset(Flat(pages)) <= multiset(Select(records, start))
    ensures multiset(Flat(pages)) == multiset(Select(records, start)) <==> CleanCuts(sorted, limit)
  {
    var a, b := multiset(Flat(pages)), multiset(Select(records, start));
    FlatWithin(records, start, limit, pages);
    SizeOfSorted(sorted, Select(records, start));
    CompleteBySize(records, start, limit, pages, sorted);
    assert |a| == |Flat(pages)| && |b| == |sorted|;
    if |a| == |b| {
      SubMultisetFull(a, b);
    }
  }
}
