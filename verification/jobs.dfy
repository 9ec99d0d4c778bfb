/** The job entry every source produces and the result of one aggregation. */
module Jobs {
  import opened Strings

  /** The `source` tag of an entry. */
  datatype Source = Google | LinkedIn | Gupy {

    /** The string the scrapers store in `source` and the cards carry in `data-source`. */
    function Tag(): string {
      match this
      case Google => "google"
      case LinkedIn => "linkedin"
      case Gupy => "gupy"
    }
  }

  /**
   * One listing or generated search link. The optional `isJobList` and
   * `highlight` flags of the source are `false` when absent.
   */
  datatype JobEntry = JobEntry(
    id: string,
    title: string,
    company: string,
    location: string,
    date: string,
    source: Source,
    url: string,
    isJobList: bool,
    highlight: bool)

  /** What `scrapeAllJobs` resolves with. */
  datatype AggregationResult = AggregationResult(
    success: bool,
    companyName: string,
    jobCount: nat,
    jobs: seq<JobEntry>)

  /**
   * What a scraper's `try` block sees of a remote page: the parsed items, or a
   * failure anywhere between the request and the parse.
   */
  datatype Fetch<T> = Fetched(items: seq<T>) | FetchFailed

  /** The ids `<prefix><index>` the scrapers give to listings. */
  function IndexedId(prefix: string, n: nat): string {
    prefix + NatToString(n)
  }

  /** Different indices give different ids under one prefix. */
  lemma IndexedIdInjective(prefix: string, a: nat, b: nat)
    ensures IndexedId(prefix, a) == IndexedId(prefix, b) ==> a == b
  {
    if IndexedId(prefix, a) == IndexedId(prefix, b) {
      assert NatToString(a) == IndexedId(prefix, a)[|prefix|..];
      assert NatToString(b) == IndexedId(prefix, b)[|prefix|..];
      NatToStringInjective(a, b);
    }
  }

  /** An indexed id differs from any id whose character after the prefix is not a digit. */
  lemma IndexedIdNotNamed(prefix: string, n: nat, id: string)
    requires |id| > |prefix| && !IsAsciiDigit(id[|prefix|])
    ensures IndexedId(prefix, n) != id
  {
    assert IndexedId(prefix, n)[|prefix|] == NatToString(n)[0];
  }

  /**
   * A card id `linkedin-<n>` is never one of a run's two fixed ids: the character
   * after the prefix is a digit in the first and a letter in the others.
   */
  lemma CardIdNotFixed(n: nat)
    ensures IndexedId("linkedin-", n) != "linkedin-brasil"
    ensures IndexedId("linkedin-", n) != "google-main"
  {
    assert |"linkedin-"| == 9 && "linkedin-brasil"[9] == 'b' && "google-main"[9] == 'i';
    IndexedIdNotNamed("linkedin-", n, "linkedin-brasil");
    IndexedIdNotNamed("linkedin-", n, "google-main");
  }

  /**
   * The positions at which `keep` holds, in increasing order: what a
   * `forEach((element, index) => { if (...) jobs.push(...) })` visits and keeps.
   */
  function Positions<T>(xs: seq<T>, keep: T -> bool): (ps: seq<nat>)
    ensures PositionsOf(xs, keep, ps)
    ensures |ps| <= |xs|
  {
    if |xs| == 0 then []
    else
      var front := Positions(xs[..|xs| - 1], keep);
      PositionsExtend(xs, keep, front);
      if keep(xs[|xs| - 1]) then front + [|xs| - 1] else front
  }

  /** `ps` lists, in increasing order, exactly the positions of `xs` at which `keep` holds. */
  predicate PositionsOf<T>(xs: seq<T>, keep: T -> bool, ps: seq<nat>) {
    && (forall k :: 0 <= k < |ps| ==> ps[k] < |xs| && keep(xs[ps[k]]))
    && (forall j, k :: 0 <= j < k < |ps| ==> ps[j] < ps[k])
    && (forall i :: 0 <= i < |xs| && keep(xs[i]) ==> i in ps)
  }

  /** The positions of all but the last element, and the last one if it is kept. */
  lemma PositionsExtend<T>(xs: seq<T>, keep: T -> bool, front: seq<nat>)
    requires |xs| > 0 && PositionsOf(xs[..|xs| - 1], keep, front)
    ensures PositionsOf(xs, keep, if keep(xs[|xs| - 1]) then front + [|xs| - 1] else front)
  {
    var n := |xs| - 1;
    var init := xs[..n];
    assert forall i :: 0 <= i < n ==> init[i] == xs[i];
    if keep(xs[n]) {
      KeepLast(xs, keep, front);
    } else {
      SkipLast(xs, keep, front);
    }
  }

  lemma KeepLast<T>(xs: seq<T>, keep: T -> bool, front: seq<nat>)
    requires |xs| > 0 && keep(xs[|xs| - 1]) && PositionsOf(xs[..|xs| - 1], keep, front)
    requires forall i :: 0 <= i < |xs| - 1 ==> xs[..|xs| - 1][i] == xs[i]
    ensures PositionsOf(xs, keep, front + [|xs| - 1])
  {
    var n := |xs| - 1;
    var ps := front + [n];
    forall k | 0 <= k < |ps| ensures ps[k] < |xs| && keep(xs[ps[k]]) {
      if k < |front| {
        assert ps[k] == front[k];
      }
    }
    forall j, k | 0 <= j < k < |ps| ensures ps[j] < ps[k] {
      assert ps[j] == front[j];
      if k < |front| {
        assert ps[k] == front[k];
      }
    }
    forall i | 0 <= i < |xs| && keep(xs[i]) ensures i in ps {
      if i < n {
        assert i in front;
      } else {
        assert ps[|front|] == n;
      }
    }
  }

  lemma SkipLast<T>(xs: seq<T>, keep: T -> bool, front: seq<nat>)
    requires |xs| > 0 && !keep(xs[|xs| - 1]) && PositionsOf(xs[..|xs| - 1], keep, front)
    requires forall i :: 0 <= i < |xs| - 1 ==> xs[..|xs| - 1][i] == xs[i]
    ensures PositionsOf(xs, keep, front)
  {
    forall i | 0 <= i < |xs| && keep(xs[i]) ensures i in front {
      assert i < |xs| - 1;
    }
  }

  /** Nothing is kept exactly when no element satisfies `keep`. */
  lemma PositionsEmpty<T>(xs: seq<T>, keep: T -> bool)
    ensures Positions(xs, keep) == [] <==> forall i :: 0 <= i < |xs| ==> !keep(xs[i])
  {
    var ps := Positions(xs, keep);
    if ps != [] {
      assert keep(xs[ps[0]]);
    }
  }

  predicate DistinctIds(jobs: seq<JobEntry>) {
    forall i, j :: 0 <= i < j < |jobs| ==> jobs[i].id != jobs[j].id
  }

  /** Putting an entry with a new id in front keeps the ids distinct. */
  lemma DistinctIdsCons(e: JobEntry, rest: seq<JobEntry>)
    requires DistinctIds(rest)
    requires forall k :: 0 <= k < |rest| ==> rest[k].id != e.id
    ensures DistinctIds([e] + rest)
  {
    var all := [e] + rest;
    forall i, j | 0 <= i < j < |all| ensures all[i].id != all[j].id {
      assert all[j] == rest[j - 1];
      if i > 0 {
        assert all[i] == rest[i - 1];
      }
    }
  }

  predicate AllFrom(jobs: seq<JobEntry>, source: Source) {
    forall i :: 0 <= i < |jobs| ==> jobs[i].source == source
  }

  predicate AllDated(jobs: seq<JobEntry>, date: string) {
    forall i :: 0 <= i < |jobs| ==> jobs[i].date == date
  }

  lemma AllDatedAppend(a: seq<JobEntry>, b: seq<JobEntry>, date: string)
    requires AllDated(a, date) && AllDated(b, date)
    ensures AllDated(a + b, date)
  {
    forall k | 0 <= k < |a + b| ensures (a + b)[k].date == date {
      if k >= |a| { assert (a + b)[k] == b[k - |a|]; }
    }
  }

  lemma TagInjective(a: Source, b: Source)
    ensures a.Tag() == b.Tag() ==> a == b
  {
  }
}
