/**
 * `scrapeAllJobs`: name the company, collect the search-engine entry and the
 * professional-network entries, sort them by date (newest first) and report.
 */
module Aggregate {
  import opened Strings
  import opened Jobs
  import opened CompanyName
  import opened GoogleJobs
  import opened LinkedIn

  /**
   * `new Date(date)` as a number. Parsing a locale date string is left to the
   * caller; the sort only compares the values it yields.
   */
  type DateValue = string -> int

  /**
   * Insertion of one entry into a list already sorted newest first: it goes
   * before the first entry that is not strictly newer, so among equal dates it
   * stays in front of the entries that followed it.
   */
  function Insert(e: JobEntry, sorted: seq<JobEntry>, when: DateValue): (r: seq<JobEntry>)
    ensures multiset(r) == multiset(sorted) + multiset{e}
    ensures |r| == |sorted| + 1
  {
    if |sorted| == 0 || when(sorted[0].date) <= when(e.date) then [e] + sorted
    else
      var rest := Insert(e, sorted[1..], when);
      assert sorted == [sorted[0]] + sorted[1..];
      [sorted[0]] + rest
  }

  /**
   * `allJobs.sort((a, b) => new Date(b.date) - new Date(a.date))`: a stable sort
   * by date, newest first (the comparator is 0 for equal dates).
   */
  function SortByDate(jobs: seq<JobEntry>, when: DateValue): (r: seq<JobEntry>)
    ensures multiset(r) == multiset(jobs)
    ensures |r| == |jobs|
  {
    if |jobs| == 0 then []
    else
      assert jobs == [jobs[0]] + jobs[1..];
      Insert(jobs[0], SortByDate(jobs[1..], when), when)
  }

  predicate NewestFirst(jobs: seq<JobEntry>, when: DateValue) {
    forall i, j :: 0 <= i < j < |jobs| ==> when(jobs[i].date) >= when(jobs[j].date)
  }

  /** The entries of `jobs` whose date has the value `d`, in order. */
  function WithDate(jobs: seq<JobEntry>, when: DateValue, d: int): seq<JobEntry> {
    if |jobs| == 0 then []
    else (if when(jobs[0].date) == d then [jobs[0]] else []) + WithDate(jobs[1..], when, d)
  }

  /** A sorted list stays sorted under a new head at least as new as its first entry. */
  lemma ConsSorted(x: JobEntry, t: seq<JobEntry>, when: DateValue)
    requires NewestFirst(t, when)
    requires |t| > 0 ==> when(x.date) >= when(t[0].date)
    ensures NewestFirst([x] + t, when)
  {
    var r := [x] + t;
    forall i, j | 0 <= i < j < |r| ensures when(r[i].date) >= when(r[j].date) {
      assert r[j] == t[j - 1];
      if i > 0 {
        assert r[i] == t[i - 1];
      }
    }
  }

  lemma {:induction false} InsertSorted(e: JobEntry, sorted: seq<JobEntry>, when: DateValue)
    requires NewestFirst(sorted, when)
    ensures NewestFirst(Insert(e, sorted, when), when)
    ensures Insert(e, sorted, when)[0] == e || (|sorted| > 0 && Insert(e, sorted, when)[0] == sorted[0])
  {
    if |sorted| > 0 && when(sorted[0].date) > when(e.date) {
      var tail := sorted[1..];
      assert NewestFirst(tail, when);
      InsertSorted(e, tail, when);
      var rest := Insert(e, tail, when);
      assert rest[0] == e || rest[0] == sorted[1];
      ConsSorted(sorted[0], rest, when);
    } else {
      ConsSorted(e, sorted, when);
    }
  }

  /** The sort yields the entries newest first. */
  lemma {:induction false} SortIsOrdered(jobs: seq<JobEntry>, when: DateValue)
    ensures NewestFirst(SortByDate(jobs, when), when)
  {
    if |jobs| > 0 {
      SortIsOrdered(jobs[1..], when);
      InsertSorted(jobs[0], SortByDate(jobs[1..], when), when);
    }
  }

  lemma {:induction false} InsertKeepsDateGroups(e: JobEntry, sorted: seq<JobEntry>, when: DateValue, d: int)
    ensures WithDate(Insert(e, sorted, when), when, d)
      == (if when(e.date) == d then [e] else []) + WithDate(sorted, when, d)
  {
    if |sorted| > 0 && when(sorted[0].date) > when(e.date) {
      var first := sorted[0];
      var tail := sorted[1..];
      var rest := Insert(e, tail, when);
      var mine := if when(first.date) == d then [first] else [];
      var its := if when(e.date) == d then [e] else [];
      assert Insert(e, sorted, when) == [first] + rest;
      // `first` is strictly newer than `e`, so at most one of them has the date `d`.
      assert mine == [] || its == [];
      calc {
        WithDate([first] + rest, when, d);
        { WithDateCons(first, rest, when, d); }
        mine + WithDate(rest, when, d);
        { InsertKeepsDateGroups(e, tail, when, d); }
        mine + (its + WithDate(tail, when, d));
        { SwapEmpty(mine, its, WithDate(tail, when, d)); }
        its + (mine + WithDate(tail, when, d));
        { WithDateCons(first, tail, when, d); assert sorted == [first] + tail; }
        its + WithDate(sorted, when, d);
      }
    } else {
      assert Insert(e, sorted, when) == [e] + sorted;
      WithDateCons(e, sorted, when, d);
    }
  }

  lemma SwapEmpty<T>(a: seq<T>, b: seq<T>, c: seq<T>)
    requires a == [] || b == []
    ensures a + (b + c) == b + (a + c)
  {
  }

  lemma WithDateCons(x: JobEntry, t: seq<JobEntry>, when: DateValue, d: int)
    ensures WithDate([x] + t, when, d) == (if when(x.date) == d then [x] else []) + WithDate(t, when, d)
  {
    assert ([x] + t)[1..] == t;
  }

  /** Stability: entries with the same date keep their relative order. */
  lemma {:induction false} SortIsStable(jobs: seq<JobEntry>, when: DateValue, d: int)
    ensures WithDate(SortByDate(jobs, when), when, d) == WithDate(jobs, when, d)
  {
    if |jobs| > 0 {
      SortIsStable(jobs[1..], when, d);
      InsertKeepsDateGroups(jobs[0], SortByDate(jobs[1..], when), when, d);
    }
  }

  lemma {:induction false} WithDateAll(jobs: seq<JobEntry>, when: DateValue, d: int)
    requires forall i :: 0 <= i < |jobs| ==> when(jobs[i].date) == d
    ensures WithDate(jobs, when, d) == jobs
  {
    if |jobs| > 0 {
      WithDateAll(jobs[1..], when, d);
    }
  }

  /** Entries that all carry one date are left in the order they were combined. */
  lemma SameDateKeepsOrder(jobs: seq<JobEntry>, when: DateValue, date: string)
    requires AllDated(jobs, date)
    ensures SortByDate(jobs, when) == jobs
  {
    var d := when(date);
    var r := SortByDate(jobs, when);
    SortIsStable(jobs, when, d);
    WithDateAll(jobs, when, d);
    forall i | 0 <= i < |r| ensures when(r[i].date) == d {
      assert r[i] in multiset(jobs);
      var k :| 0 <= k < |jobs| && jobs[k] == r[i];
    }
    WithDateAll(r, when, d);
  }

  /**
   * `scrapeAllJobs(companyUrl)`: `today` stands for every
   * `toLocaleDateString('pt-BR')` of the run, `page` for the outcome of the
   * network request, `when` for `new Date(...)` on a date string.
   */
  function ScrapeAllJobs(companyUrl: string, today: string, page: Fetch<Card>, when: DateValue): (result: AggregationResult)
    ensures result.success && result.jobCount == |result.jobs|
    ensures result.companyName == ExtractCompanyName(companyUrl)
    ensures multiset(result.jobs) == multiset(ScrapeGoogleJobs(result.companyName, today)
      + ScrapeLinkedInJobs(result.companyName, today, page))
    ensures NewestFirst(result.jobs, when)
  {
    var companyName := ExtractCompanyName(companyUrl);
    var all := ScrapeGoogleJobs(companyName, today) + ScrapeLinkedInJobs(companyName, today, page);
    SortIsOrdered(all, when);
    var sorted := SortByDate(all, when);
    AggregationResult(true, companyName, |sorted|, sorted)
  }

  lemma LinkedInDated(companyName: string, today: string, page: Fetch<Card>)
    ensures AllDated(ScrapeLinkedInJobs(companyName, today, page), today)
    ensures AllFrom(ScrapeLinkedInJobs(companyName, today, page), LinkedIn)
  {
    if page.Fetched? {
      var rest := CardEntries(page.items, today);
      var jobs := ScrapeLinkedInJobs(companyName, today, page);
      forall k | 0 <= k < |jobs| ensures jobs[k].date == today && jobs[k].source == LinkedIn {
        if k > 0 {
          assert jobs[k] == rest[k - 1];
        }
      }
    }
  }

  /**
   * Every entry of one run is dated the same day, so the sort changes nothing:
   * the search-engine entry comes first, then the professional-network entries
   * in page order, all with different ids. A failed page leaves only the first.
   */
  lemma ResultShape(companyUrl: string, today: string, page: Fetch<Card>, when: DateValue)
    ensures var result := ScrapeAllJobs(companyUrl, today, page, when);
      && result.jobs == ScrapeGoogleJobs(result.companyName, today)
                        + ScrapeLinkedInJobs(result.companyName, today, page)
      && result.jobs[0].id == "google-main"
      && DistinctIds(result.jobs)
      && (page.FetchFailed? ==> result.jobCount == 1)
      && (page.Fetched? ==> result.jobCount == 2 + |KeptPositions(page.items)|)
  {
    var name := ExtractCompanyName(companyUrl);
    var all := ScrapeGoogleJobs(name, today) + ScrapeLinkedInJobs(name, today, page);
    RunDated(name, today, page);
    SameDateKeepsOrder(all, when, today);
    RunIdsDistinct(name, today, page);
  }

  /** The entries of one run all carry its date. */
  lemma RunDated(name: string, today: string, page: Fetch<Card>)
    ensures AllDated(ScrapeGoogleJobs(name, today) + ScrapeLinkedInJobs(name, today, page), today)
  {
    var google := ScrapeGoogleJobs(name, today);
    var linkedin := ScrapeLinkedInJobs(name, today, page);
    LinkedInDated(name, today, page);
    assert AllDated(google, today);
    AllDatedAppend(google, linkedin, today);
  }

  /** The entries of one run carry pairwise different ids. */
  lemma RunIdsDistinct(name: string, today: string, page: Fetch<Card>)
    ensures DistinctIds(ScrapeGoogleJobs(name, today) + ScrapeLinkedInJobs(name, today, page))
  {
    var google := ScrapeGoogleJobs(name, today);
    var linkedin := ScrapeLinkedInJobs(name, today, page);
    LinkedInIdsDistinct(name, today, page);
    if page.Fetched? {
      LinkedInIdsNameCards(name, today, page);
      forall k | 0 <= k < |linkedin| ensures linkedin[k].id != google[0].id {
        if k == 0 {
          assert "linkedin-brasil"[0] != "google-main"[0];
        } else {
          assert NamesCompleteCard(linkedin[k].id, page.items);
          var p :| 0 <= p < |page.items| && Complete(page.items[p]) && linkedin[k].id == IndexedId("linkedin-", p);
          CardIdNotFixed(p);
        }
      }
    }
    DistinctIdsCons(google[0], linkedin);
    assert google + linkedin == [google[0]] + linkedin;
  }
}
