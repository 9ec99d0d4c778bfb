/**
 * The job-board source (`scrapeGupyJobs`): a cascade that reads the company's
 * page, then the jobs API, then the portal search, and otherwise generates
 * links to the company's page per department. Each tier runs only when the
 * ones before it produced nothing. A failed page or search request lands in
 * the outer `catch`, which answers with three department links. The API
 * request has its own `catch`, which swallows its failure.
 */
module Gupy {
  import opened Options
  import opened Strings
  import opened UriEncoding
  import opened UrlQuery
  import opened Jobs

  // ---------------------------------------------------------------- slug

  /**
   * What one character contributes to `toLowerCase().replace(/[^a-z0-9]/g, '')`.
   * ASCII letters and digits survive, lower-cased. Two other characters
   * lower-case into an ASCII letter: LATIN CAPITAL LETTER I WITH DOT ABOVE
   * becomes `i` followed by a combining dot, and KELVIN SIGN becomes `k`.
   * Every other character lower-cases to something outside `[a-z0-9]`.
   */
  function SlugChar(c: char): string {
    if IsAsciiLower(ToLower(c)) || IsAsciiDigit(c) then [ToLower(c)]
    else if c == '\U{0130}' then "i"
    else if c == '\U{212A}' then "k"
    else []
  }

  predicate IsSlugChar(c: char) {
    IsAsciiLower(c) || IsAsciiDigit(c)
  }

  /** The company's path segment on the job board. */
  function Slug(name: string): string {
    if |name| == 0 then [] else SlugChar(name[0]) + Slug(name[1..])
  }

  /** The slug holds only lower-case ASCII letters and digits and is never longer than the name. */
  lemma {:induction false} SlugAlphabet(name: string)
    ensures forall i :: 0 <= i < |Slug(name)| ==> IsSlugChar(Slug(name)[i])
    ensures |Slug(name)| <= |name|
  {
    if |name| > 0 {
      SlugAlphabet(name[1..]);
      var head := SlugChar(name[0]);
      var tail := Slug(name[1..]);
      forall i | 0 <= i < |head + tail| ensures IsSlugChar((head + tail)[i]) {
        if i >= |head| { assert (head + tail)[i] == tail[i - |head|]; }
      }
    }
  }

  /** The slug of a concatenation is the concatenation of the slugs. */
  lemma {:induction false} SlugAppend(a: string, b: string)
    ensures Slug(a + b) == Slug(a) + Slug(b)
  {
    if |a| > 0 {
      assert (a + b)[0] == a[0];
      assert (a + b)[1..] == a[1..] + b;
      SlugAppend(a[1..], b);
    } else {
      assert a + b == b;
    }
  }

  /** A string of slug characters is its own slug. */
  lemma {:induction false} SlugOfSlugChars(s: string)
    requires forall i :: 0 <= i < |s| ==> IsSlugChar(s[i])
    ensures Slug(s) == s
  {
    if |s| > 0 {
      SlugOfSlugChars(s[1..]);
      assert s == [s[0]] + s[1..];
    }
  }

  /** Taking the slug twice changes nothing. */
  lemma SlugIdempotent(name: string)
    ensures Slug(Slug(name)) == Slug(name)
  {
    SlugAlphabet(name);
    SlugOfSlugChars(Slug(name));
  }

  /** ASCII case does not matter: a lower-cased name has the same slug. */
  lemma {:induction false} SlugIgnoresCase(name: string)
    ensures Slug(LowerString(name)) == Slug(name)
  {
    if |name| > 0 {
      LowerStringCons(name[0], name[1..]);
      assert name == [name[0]] + name[1..];
      var lowered := LowerString(name);
      assert lowered[0] == ToLower(name[0]) && lowered[1..] == LowerString(name[1..]);
      SlugIgnoresCase(name[1..]);
    }
  }

  /** A slug needs no escaping: encoding it as a URI component leaves it unchanged. */
  lemma SlugIsUriSafe(name: string)
    ensures EncodeUriComponent(Slug(name)) == Slug(name)
  {
    SlugAlphabet(name);
    EncodedAlphabet(Slug(name));
  }

  // ---------------------------------------------------------------- links

  const GupyHome := "https://www.gupy.io/"
  const CorsProxyBase := "https://corsproxy.io/"
  const PortalSearchBase := "https://portal.gupy.io/vagas"
  const DefaultLocation := "Brasil"

  /** The company's page on the job board. */
  function CompanyPageUrl(slug: string): string {
    GupyHome + slug
  }

  /** The page of one job under the company's page. */
  function JobPageUrl(slug: string, jobRef: string): string {
    CompanyPageUrl(slug) + "/job/" + jobRef
  }

  /** The jobs endpoint of the company. */
  function ApiUrl(slug: string): string {
    "https://api.gupy.io/api/v1/companies/" + slug + "/jobs"
  }

  /** The portal search for the company name. */
  function SearchUrl(companyName: string): string {
    Link(PortalSearchBase, [Pair("searchTerm", EncodeUriComponent(companyName))])
  }

  /** The CORS proxy: the whole query is the encoded target, with no parameter name. */
  function ProxyUrl(target: string): string {
    CorsProxyBase + "?" + EncodeUriComponent(target)
  }

  lemma LinkParts()
    ensures '?' !in CorsProxyBase && '?' !in PortalSearchBase && '&' !in "searchTerm"
    ensures '#' !in CorsProxyBase && '#' !in PortalSearchBase && '#' !in "searchTerm"
  {
  }

  /** The proxy's query decodes back to the target link. */
  lemma ProxyRoundTrip(target: string)
    ensures QueryOf(ProxyUrl(target)) == EncodeUriComponent(target)
    ensures DecodeUriComponent(QueryOf(ProxyUrl(target))) == Some(target)
  {
    LinkParts();
    QueryAfterBase(CorsProxyBase, EncodeUriComponent(target));
    NoDelimiterInEncoding(target);
    DecodeEncode(target);
  }

  /** The portal search's `searchTerm` decodes to the company name. */
  lemma SearchUrlTerm(companyName: string)
    ensures exists k ::
      QueryParam(SearchUrl(companyName), "searchTerm") == Some(k) && DecodeUriComponent(k) == Some(companyName)
  {
    var enc := EncodeUriComponent(companyName);
    NoDelimiterInEncoding(companyName);
    LinkParts();
    LinkFirstParam(PortalSearchBase, "searchTerm", enc, []);
    DecodeEncode(companyName);
  }

  // ---------------------------------------------------------------- tier 1: the company page

  /** One `.job-list__item`: its title and location text and the `href` of its first link. */
  datatype PageCard = PageCard(title: Option<string>, location: Option<string>, link: Option<string>)

  predicate HasTitle(card: PageCard) {
    card.title.Some?
  }

  /**
   * The entry for a titled card at position `index`: numbered by that position,
   * with the trimmed title, `Brasil` for a missing location and the job page
   * named by the position for a missing link.
   */
  function PageEntry(card: PageCard, index: nat, companyName: string, slug: string, today: string): (e: JobEntry)
    requires HasTitle(card)
    ensures e.id == IndexedId("gupy-", index) && e.title == Trim(card.title.value) && e.company == companyName
    ensures e.location == (if card.location.Some? then Trim(card.location.value) else DefaultLocation)
    ensures e.url == (if card.link.Some? then card.link.value else JobPageUrl(slug, NatToString(index)))
    ensures e.date == today && e.source == Gupy
  {
    JobEntry(
      id := IndexedId("gupy-", index),
      title := Trim(card.title.value),
      company := companyName,
      location := if card.location.Some? then Trim(card.location.value) else DefaultLocation,
      date := today,
      source := Gupy,
      url := if card.link.Some? then card.link.value else JobPageUrl(slug, NatToString(index)),
      isJobList := false,
      highlight := false)
  }

  /**
   * One entry per card with a title element, in card order, numbered by its
   * position among all cards; every titled card has its entry.
   */
  function PageEntries(cards: seq<PageCard>, companyName: string, slug: string, today: string): (r: seq<JobEntry>)
    ensures |r| == |Positions(cards, HasTitle)| <= |cards|
    ensures forall k :: 0 <= k < |r| ==>
      var p := Positions(cards, HasTitle)[k];
      p < |cards| && HasTitle(cards[p]) && r[k] == PageEntry(cards[p], p, companyName, slug, today)
    ensures forall i :: 0 <= i < |cards| && HasTitle(cards[i]) ==>
      exists k :: 0 <= k < |r| && r[k].id == IndexedId("gupy-", i)
  {
    var ps := Positions(cards, HasTitle);
    var r := seq(|ps|, k requires 0 <= k < |ps| => PageEntry(cards[ps[k]], ps[k], companyName, slug, today));
    forall i | 0 <= i < |cards| && HasTitle(cards[i])
      ensures exists k :: 0 <= k < |r| && r[k].id == IndexedId("gupy-", i)
    {
      var k :| 0 <= k < |ps| && ps[k] == i;
      assert r[k].id == IndexedId("gupy-", i);
    }
    r
  }

  // ---------------------------------------------------------------- tier 2: the jobs API

  /** The `id` of an API job: absent, a number or a string. */
  datatype JobRef = NoRef | NumberRef(n: nat) | TextRef(s: string)

  /**
   * One element of the API's array. `NullJob` is a JSON `null`, on which reading
   * `title` throws. Any other element is read field by field; a field that is
   * absent, `null` or not a string is `None`.
   */
  datatype ApiJob =
    | NullJob
    | ApiJob(
        title: Option<string>,
        name: Option<string>,
        location: Option<string>,
        workplace: Option<string>,
        url: Option<string>,
        ref: JobRef)

  /** The API's answer: a failed request or parse, a value that is not an array, or an array. */
  datatype ApiReply = ApiFailed | NotAnArray | JobArray(jobs: seq<ApiJob>)

  /** JavaScript truthiness of an optional string: present and non-empty. */
  predicate Truthy(o: Option<string>) {
    o.Some? && o.value != ""
  }

  /** `a || b` on an optional string. */
  function Or(a: Option<string>, b: string): (r: string)
    ensures Truthy(a) ==> r == a.value
    ensures !Truthy(a) ==> r == b
  {
    if Truthy(a) then a.value else b
  }

  /** `${job.id || index}`. */
  function RefText(ref: JobRef, index: nat): (r: string)
    ensures r != []
  {
    match ref
    case TextRef(s) => if s != "" then s else NatToString(index)
    case NumberRef(n) => if n != 0 then NatToString(n) else NatToString(index)
    case NoRef => NatToString(index)
  }

  /** A job is kept when its `title` or its `name` is truthy. */
  predicate Listed(job: ApiJob) {
    job.ApiJob? && (Truthy(job.title) || Truthy(job.name))
  }

  /**
   * The entry for a listed job at position `index`: `title || name`,
   * `location || workplace || 'Brasil'`, and `url` or else the job page named by
   * `id || index`.
   */
  function ApiEntry(job: ApiJob, index: nat, companyName: string, slug: string, today: string): (e: JobEntry)
    requires Listed(job)
    ensures e.id == IndexedId("gupy-api-", index) && e.company == companyName
    ensures e.title == (if Truthy(job.title) then job.title.value else job.name.value)
    ensures e.location == (if Truthy(job.location) then job.location.value
                           else if Truthy(job.workplace) then job.workplace.value else DefaultLocation)
    ensures e.url == (if Truthy(job.url) then job.url.value else JobPageUrl(slug, RefText(job.ref, index)))
    ensures e.date == today && e.source == Gupy
  {
    JobEntry(
      id := IndexedId("gupy-api-", index),
      title := Or(job.title, Or(job.name, "")),
      company := companyName,
      location := Or(job.location, Or(job.workplace, DefaultLocation)),
      date := today,
      source := Gupy,
      url := Or(job.url, JobPageUrl(slug, RefText(job.ref, index))),
      isJobList := false,
      highlight := false)
  }

  /**
   * The elements the `forEach` gets through: everything before the first `null`,
   * whose `title` read throws into the API's own `catch`.
   */
  function BeforeNull(jobs: seq<ApiJob>): (r: seq<ApiJob>)
    ensures |r| <= |jobs| && r == jobs[..|r|]
    ensures forall i :: 0 <= i < |r| ==> r[i].ApiJob?
    ensures |r| < |jobs| ==> jobs[|r|].NullJob?
  {
    if |jobs| == 0 || jobs[0].NullJob? then []
    else [jobs[0]] + BeforeNull(jobs[1..])
  }

  /** No element before position `i` is a `null`. */
  predicate NoNullBefore(jobs: seq<ApiJob>, i: nat)
    requires i <= |jobs|
  {
    forall j :: 0 <= j < i ==> jobs[j].ApiJob?
  }

  /** An element the `forEach` gets through is the array's own, with no `null` before it. */
  lemma BeforeNullPrefix(jobs: seq<ApiJob>, p: nat)
    requires p < |BeforeNull(jobs)|
    ensures BeforeNull(jobs)[p] == jobs[p]
    ensures NoNullBefore(jobs, p)
  {
    var reached := BeforeNull(jobs);
    assert forall j :: 0 <= j < p ==> reached[j] == jobs[j];
  }

  /** A job with no `null` at or before it is reached by the `forEach`. */
  lemma BeforeNullReaches(jobs: seq<ApiJob>, i: nat)
    requires i < |jobs| && jobs[i].ApiJob?
    requires NoNullBefore(jobs, i)
    ensures i < |BeforeNull(jobs)|
  {
    var n := |BeforeNull(jobs)|;
    if n < |jobs| {
      assert jobs[n].NullJob?;
    }
  }

  /** A listed job with no `null` before it is among the positions the `forEach` keeps. */
  lemma ListedPosition(jobs: seq<ApiJob>, i: nat) returns (k: nat)
    requires i < |jobs| && Listed(jobs[i])
    requires NoNullBefore(jobs, i)
    ensures k < |Positions(BeforeNull(jobs), Listed)| && Positions(BeforeNull(jobs), Listed)[k] == i
    ensures i < |BeforeNull(jobs)| && BeforeNull(jobs)[i] == jobs[i]
  {
    BeforeNullReaches(jobs, i);
    BeforeNullPrefix(jobs, i);
    var ps := Positions(BeforeNull(jobs), Listed);
    assert i in ps;
    k :| 0 <= k < |ps| && ps[k] == i;
  }

  /**
   * The entries of an API array: each comes from a listed job with no `null`
   * before it, in array order, numbered by its index, and every such job has
   * its entry.
   */
  function ListedEntries(jobs: seq<ApiJob>, companyName: string, slug: string, today: string): (r: seq<JobEntry>)
    ensures |r| == |Positions(BeforeNull(jobs), Listed)|
    ensures forall k :: 0 <= k < |r| ==>
      var p := Positions(BeforeNull(jobs), Listed)[k];
      && p < |jobs| && Listed(jobs[p])
      && NoNullBefore(jobs, p)
      && r[k] == ApiEntry(jobs[p], p, companyName, slug, today)
    ensures forall i :: 0 <= i < |jobs| && Listed(jobs[i]) && NoNullBefore(jobs, i) ==>
      exists k :: 0 <= k < |r| && r[k].id == IndexedId("gupy-api-", i)
  {
    var reached := BeforeNull(jobs);
    var ps := Positions(reached, Listed);
    var r := seq(|ps|, k requires 0 <= k < |ps| => ApiEntry(reached[ps[k]], ps[k], companyName, slug, today));
    forall k | 0 <= k < |ps|
      ensures reached[ps[k]] == jobs[ps[k]] && NoNullBefore(jobs, ps[k])
    {
      BeforeNullPrefix(jobs, ps[k]);
    }
    forall i | 0 <= i < |jobs| && Listed(jobs[i]) && NoNullBefore(jobs, i)
      ensures exists k :: 0 <= k < |r| && r[k].id == IndexedId("gupy-api-", i)
    {
      var k := ListedPosition(jobs, i);
      assert r[k].id == IndexedId("gupy-api-", i);
    }
    r
  }

  /** The entries of the API tier; a failure or a non-array gives none. */
  function ApiEntries(reply: ApiReply, companyName: string, slug: string, today: string): (r: seq<JobEntry>)
    ensures !reply.JobArray? ==> r == []
    ensures reply.JobArray? ==> r == ListedEntries(reply.jobs, companyName, slug, today)
  {
    if reply.JobArray? then ListedEntries(reply.jobs, companyName, slug, today) else []
  }

  /** An API entry's title is never empty, and its link falls back to the job's page. */
  lemma ApiEntryFields(job: ApiJob, index: nat, companyName: string, slug: string, today: string)
    requires Listed(job)
    ensures var e := ApiEntry(job, index, companyName, slug, today);
      && e.title != ""
      && e.location != ""
      && (Truthy(job.title) ==> e.title == job.title.value)
      && (!Truthy(job.url) ==> e.url == JobPageUrl(slug, RefText(job.ref, index)))
  {
  }

  // ---------------------------------------------------------------- tier 3: the portal search

  /** One search result card: title, company, location text and link. */
  datatype SearchCard = SearchCard(
    title: Option<string>,
    company: Option<string>,
    location: Option<string>,
    link: Option<string>)

  /**
   * A result is kept when it has a title and a company element whose text,
   * lower-cased and untrimmed, contains the lower-cased company name.
   */
  predicate Matches(card: SearchCard, companyName: string) {
    card.title.Some? && card.company.Some?
      && Contains(LowerString(card.company.value), LowerString(companyName))
  }

  function MatchesName(companyName: string): (keep: SearchCard -> bool)
    ensures forall card :: keep(card) == Matches(card, companyName)
  {
    card => Matches(card, companyName)
  }

  /**
   * The entry for a matching result at position `index`: trimmed title and
   * company, `Brasil` for a missing location and the search page for a missing
   * link.
   */
  function SearchEntry(card: SearchCard, index: nat, companyName: string, today: string): (e: JobEntry)
    requires Matches(card, companyName)
    ensures e.id == IndexedId("gupy-search-", index)
    ensures e.title == Trim(card.title.value) && e.company == Trim(card.company.value)
    ensures e.location == (if card.location.Some? then Trim(card.location.value) else DefaultLocation)
    ensures e.url == (if card.link.Some? then card.link.value else SearchUrl(companyName))
    ensures e.date == today && e.source == Gupy
  {
    JobEntry(
      id := IndexedId("gupy-search-", index),
      title := Trim(card.title.value),
      company := Trim(card.company.value),
      location := if card.location.Some? then Trim(card.location.value) else DefaultLocation,
      date := today,
      source := Gupy,
      url := if card.link.Some? then card.link.value else SearchUrl(companyName),
      isJobList := false,
      highlight := false)
  }

  /**
   * One entry per result whose company text contains the company name, ignoring
   * case, in result order and numbered by position; every such result has its
   * entry.
   */
  function SearchEntries(cards: seq<SearchCard>, companyName: string, today: string): (r: seq<JobEntry>)
    ensures var ps := Positions(cards, MatchesName(companyName));
      |r| == |ps| <= |cards| && forall k :: 0 <= k < |r| ==>
        ps[k] < |cards| && Matches(cards[ps[k]], companyName) && r[k] == SearchEntry(cards[ps[k]], ps[k], companyName, today)
    ensures forall i :: 0 <= i < |cards| && Matches(cards[i], companyName) ==>
      exists k :: 0 <= k < |r| && r[k].id == IndexedId("gupy-search-", i)
  {
    var ps := Positions(cards, MatchesName(companyName));
    var r := seq(|ps|, k requires 0 <= k < |ps| => SearchEntry(cards[ps[k]], ps[k], companyName, today));
    forall i | 0 <= i < |cards| && Matches(cards[i], companyName)
      ensures exists k :: 0 <= k < |r| && r[k].id == IndexedId("gupy-search-", i)
    {
      assert MatchesName(companyName)(cards[i]);
      var k :| 0 <= k < |ps| && ps[k] == i;
      assert r[k].id == IndexedId("gupy-search-", i);
    }
    r
  }

  // ---------------------------------------------------------------- tier 4 and the error answer

  const Departments: seq<string> := ["Tecnologia", "Marketing", "Vendas", "Recursos Humanos", "Finanças"]

  /** The departments of the error answer: the first three. */
  const ErrorDepartments: seq<string> := ["Tecnologia", "Marketing", "Vendas"]

  function DepartmentEntry(department: string, index: nat, companyName: string, slug: string, today: string): JobEntry {
    JobEntry(
      id := IndexedId("gupy-", index),
      title := "Vagas de " + department + " - " + companyName,
      company := companyName,
      location := DefaultLocation,
      date := today,
      source := Gupy,
      url := CompanyPageUrl(slug),
      isJobList := false,
      highlight := false)
  }

  /** One generated link per department, numbered by the department's position. */
  function DepartmentEntries(departments: seq<string>, companyName: string, slug: string, today: string): (r: seq<JobEntry>)
    ensures |r| == |departments|
  {
    seq(|departments|, i requires 0 <= i < |departments| => DepartmentEntry(departments[i], i, companyName, slug, today))
  }

  /** The error answer is the first three links of the generated list. */
  lemma ErrorLinksArePrefix(companyName: string, slug: string, today: string)
    ensures DepartmentEntries(ErrorDepartments, companyName, slug, today)
      == DepartmentEntries(Departments, companyName, slug, today)[..3]
  {
    assert ErrorDepartments == Departments[..3];
  }

  /** Generated links all point to the company's page. */
  lemma DepartmentLinksPointHome(departments: seq<string>, companyName: string, slug: string, today: string)
    ensures forall i :: 0 <= i < |departments| ==>
      DepartmentEntries(departments, companyName, slug, today)[i].url == GupyHome + slug
  {
  }

  // ---------------------------------------------------------------- the cascade

  /** Which part of `scrapeGupyJobs` produced the answer. */
  datatype Tier = CompanyPage | Api | PortalSearch | GeneratedLinks | ErrorLinks

  /**
   * The tier that answers: the first one that finds something. A failed page or
   * search request gives the error answer; the API's failure only moves on.
   */
  function AnsweringTier(companyName: string, page: Fetch<PageCard>, api: ApiReply, search: Fetch<SearchCard>): (t: Tier)
    ensures t == CompanyPage <==>
      page.Fetched? && exists i :: 0 <= i < |page.items| && HasTitle(page.items[i])
    ensures t == Api <==>
      && page.Fetched? && (forall i :: 0 <= i < |page.items| ==> !HasTitle(page.items[i]))
      && api.JobArray?
      && exists i :: 0 <= i < |BeforeNull(api.jobs)| && Listed(BeforeNull(api.jobs)[i])
    ensures t == ErrorLinks <==>
      page.FetchFailed? || (t != CompanyPage && t != Api && search.FetchFailed?)
    ensures t == PortalSearch ==> page.Fetched? && search.Fetched?
  {
    match page
    case FetchFailed => ErrorLinks
    case Fetched(cards) =>
      PositionsEmpty(cards, HasTitle);
      if Positions(cards, HasTitle) != [] then CompanyPage
      else if api.JobArray? && (PositionsEmpty(BeforeNull(api.jobs), Listed); Positions(BeforeNull(api.jobs), Listed) != []) then Api
      else
        match search
        case FetchFailed => ErrorLinks
        case Fetched(results) =>
          if Positions(results, MatchesName(companyName)) != [] then PortalSearch else GeneratedLinks
  }

  /**
   * `scrapeGupyJobs`. The page, API and search answers are what the three
   * requests would return; a tier's answer is only looked at when the tiers
   * before it found nothing.
   */
  function ScrapeGupyJobs(companyName: string, today: string, page: Fetch<PageCard>, api: ApiReply, search: Fetch<SearchCard>): seq<JobEntry> {
    TierEntries(AnsweringTier(companyName, page, api, search), companyName, Slug(companyName), today, page, api, search)
  }

  /** The entries tier `t` answers with. */
  function TierEntries(t: Tier, companyName: string, slug: string, today: string,
                       page: Fetch<PageCard>, api: ApiReply, search: Fetch<SearchCard>): seq<JobEntry>
    requires t == CompanyPage ==> page.Fetched?
    requires t == PortalSearch ==> search.Fetched?
  {
    match t
    case CompanyPage => PageEntries(page.items, companyName, slug, today)
    case Api => ApiEntries(api, companyName, slug, today)
    case PortalSearch => SearchEntries(search.items, companyName, today)
    case GeneratedLinks => DepartmentEntries(Departments, companyName, slug, today)
    case ErrorLinks => DepartmentEntries(ErrorDepartments, companyName, slug, today)
  }

  /** The answer is never empty. */
  lemma GupyNeverEmpty(companyName: string, today: string, page: Fetch<PageCard>, api: ApiReply, search: Fetch<SearchCard>)
    ensures ScrapeGupyJobs(companyName, today, page, api, search) != []
  {
    match AnsweringTier(companyName, page, api, search)
    case CompanyPage =>
      PositionsEmpty(page.items, HasTitle);
    case Api =>
      PositionsEmpty(BeforeNull(api.jobs), Listed);
    case PortalSearch =>
      PositionsEmpty(search.items, MatchesName(companyName));
    case GeneratedLinks =>
    case ErrorLinks =>
  }

  /** Every entry of the answer is a job-board entry dated today. */
  lemma GupyStamped(companyName: string, today: string, page: Fetch<PageCard>, api: ApiReply, search: Fetch<SearchCard>)
    ensures var jobs := ScrapeGupyJobs(companyName, today, page, api, search);
      AllFrom(jobs, Gupy) && AllDated(jobs, today)
  {
    TierStamped(AnsweringTier(companyName, page, api, search), companyName, Slug(companyName), today, page, api, search);
  }

  lemma TierStamped(t: Tier, companyName: string, slug: string, today: string,
                    page: Fetch<PageCard>, api: ApiReply, search: Fetch<SearchCard>)
    requires t == CompanyPage ==> page.Fetched?
    requires t == PortalSearch ==> search.Fetched?
    ensures var jobs := TierEntries(t, companyName, slug, today, page, api, search);
      AllFrom(jobs, Gupy) && AllDated(jobs, today)
  {
  }

  /** The tier that answers is the first non-empty one; the answer is that tier's entries. */
  lemma GupyAnswer(companyName: string, today: string, page: Fetch<PageCard>, api: ApiReply, search: Fetch<SearchCard>)
    ensures var slug := Slug(companyName);
      var jobs := ScrapeGupyJobs(companyName, today, page, api, search);
      && (page.FetchFailed? ==> |jobs| == 3)
      && (page.Fetched? && PageEntries(page.items, companyName, slug, today) != [] ==>
            jobs == PageEntries(page.items, companyName, slug, today))
      && (page.Fetched? && PageEntries(page.items, companyName, slug, today) == []
            && ApiEntries(api, companyName, slug, today) != [] ==>
            jobs == ApiEntries(api, companyName, slug, today))
  {
  }

  /** Once the company page lists jobs, the API and the search do not matter. */
  lemma LaterTiersUnused(companyName: string, today: string, page: Fetch<PageCard>,
                         api1: ApiReply, search1: Fetch<SearchCard>, api2: ApiReply, search2: Fetch<SearchCard>)
    requires page.Fetched? && exists i :: 0 <= i < |page.items| && HasTitle(page.items[i])
    ensures ScrapeGupyJobs(companyName, today, page, api1, search1) == ScrapeGupyJobs(companyName, today, page, api2, search2)
  {
  }

  /** Once the API lists jobs, the search does not matter. */
  lemma SearchUnusedAfterApi(companyName: string, today: string, page: Fetch<PageCard>, api: ApiReply,
                             search1: Fetch<SearchCard>, search2: Fetch<SearchCard>)
    requires AnsweringTier(companyName, page, api, search1) == Api
    ensures ScrapeGupyJobs(companyName, today, page, api, search1) == ScrapeGupyJobs(companyName, today, page, api, search2)
  {
  }

  /**
   * The five generated links answer exactly when every request that matters
   * succeeded and none found a job.
   */
  lemma GeneratedLinksWhenNothingFound(companyName: string, page: Fetch<PageCard>, api: ApiReply, search: Fetch<SearchCard>)
    ensures AnsweringTier(companyName, page, api, search) == GeneratedLinks <==>
      && page.Fetched? && (forall i :: 0 <= i < |page.items| ==> !HasTitle(page.items[i]))
      && (api.JobArray? ==> forall i :: 0 <= i < |BeforeNull(api.jobs)| ==> !Listed(BeforeNull(api.jobs)[i]))
      && search.Fetched? && (forall i :: 0 <= i < |search.items| ==> !Matches(search.items[i], companyName))
  {
    GeneratedLinksTier(companyName, page, api, search);
    if page.Fetched? {
      PositionsEmpty(page.items, HasTitle);
    }
    if api.JobArray? {
      PositionsEmpty(BeforeNull(api.jobs), Listed);
    }
    if search.Fetched? {
      NoMatches(search.items, companyName);
    }
  }

  /** The generated links answer when each tier's list of positions is empty. */
  lemma GeneratedLinksTier(companyName: string, page: Fetch<PageCard>, api: ApiReply, search: Fetch<SearchCard>)
    ensures AnsweringTier(companyName, page, api, search) == GeneratedLinks <==>
      && page.Fetched? && Positions(page.items, HasTitle) == []
      && (api.JobArray? ==> Positions(BeforeNull(api.jobs), Listed) == [])
      && search.Fetched? && Positions(search.items, MatchesName(companyName)) == []
  {
  }

  lemma NoMatches(cards: seq<SearchCard>, companyName: string)
    ensures Positions(cards, MatchesName(companyName)) == [] <==>
      forall i :: 0 <= i < |cards| ==> !Matches(cards[i], companyName)
  {
    PositionsEmpty(cards, MatchesName(companyName));
  }

  /** Entries numbered by distinct positions under one prefix have distinct ids. */
  lemma IndexedIdsDistinct(jobs: seq<JobEntry>, prefix: string, ps: seq<nat>)
    requires |jobs| == |ps|
    requires forall j, k :: 0 <= j < k < |ps| ==> ps[j] < ps[k]
    requires forall k :: 0 <= k < |jobs| ==> jobs[k].id == IndexedId(prefix, ps[k])
    ensures DistinctIds(jobs)
  {
    forall i, j | 0 <= i < j < |jobs| ensures jobs[i].id != jobs[j].id {
      IndexedIdInjective(prefix, ps[i], ps[j]);
    }
  }

  /** Whatever tier answers, the ids of its entries are pairwise different. */
  lemma GupyIdsDistinct(companyName: string, today: string, page: Fetch<PageCard>, api: ApiReply, search: Fetch<SearchCard>)
    ensures DistinctIds(ScrapeGupyJobs(companyName, today, page, api, search))
  {
    TierIdsDistinct(AnsweringTier(companyName, page, api, search), companyName, Slug(companyName), today, page, api, search);
  }

  lemma TierIdsDistinct(t: Tier, companyName: string, slug: string, today: string,
                        page: Fetch<PageCard>, api: ApiReply, search: Fetch<SearchCard>)
    requires t == CompanyPage ==> page.Fetched?
    requires t == PortalSearch ==> search.Fetched?
    ensures DistinctIds(TierEntries(t, companyName, slug, today, page, api, search))
  {
    match t
    case CompanyPage => PageIdsDistinct(page.items, companyName, slug, today);
    case Api => ApiIdsDistinct(api, companyName, slug, today);
    case PortalSearch => SearchIdsDistinct(search.items, companyName, today);
    case GeneratedLinks => DepartmentIdsDistinct(Departments, companyName, slug, today);
    case ErrorLinks => DepartmentIdsDistinct(ErrorDepartments, companyName, slug, today);
  }

  lemma PageIdsDistinct(cards: seq<PageCard>, companyName: string, slug: string, today: string)
    ensures DistinctIds(PageEntries(cards, companyName, slug, today))
  {
    IndexedIdsDistinct(PageEntries(cards, companyName, slug, today), "gupy-", Positions(cards, HasTitle));
  }

  lemma ApiIdsDistinct(reply: ApiReply, companyName: string, slug: string, today: string)
    ensures DistinctIds(ApiEntries(reply, companyName, slug, today))
  {
    if reply.JobArray? {
      IndexedIdsDistinct(ApiEntries(reply, companyName, slug, today), "gupy-api-", Positions(BeforeNull(reply.jobs), Listed));
    }
  }

  lemma SearchIdsDistinct(cards: seq<SearchCard>, companyName: string, today: string)
    ensures DistinctIds(SearchEntries(cards, companyName, today))
  {
    IndexedIdsDistinct(SearchEntries(cards, companyName, today), "gupy-search-", Positions(cards, MatchesName(companyName)));
  }

  lemma DepartmentIdsDistinct(departments: seq<string>, companyName: string, slug: string, today: string)
    ensures DistinctIds(DepartmentEntries(departments, companyName, slug, today))
  {
    IndexedIdsDistinct(DepartmentEntries(departments, companyName, slug, today), "gupy-",
      seq(|departments|, i requires 0 <= i < |departments| => i));
  }
}
