/**
 * The professional-network source (`scrapeLinkedInJobs`): a synthetic entry
 * linking to the search restricted to Brazil, then one entry per result card
 * that has both a title and a company element.
 */
module LinkedIn {
  import opened Options
  import opened Strings
  import opened UriEncoding
  import opened UrlQuery
  import opened Jobs

  /**
   * One `.job-search-card`: the text of its title, subtitle and location
   * elements and the `href` of its first link, each absent when the element is.
   */
  datatype Card = Card(
    title: Option<string>,
    company: Option<string>,
    location: Option<string>,
    link: Option<string>)

  const JobSearchBase := "https://www.linkedin.com/jobs/search/"
  const ProxyBase := "https://api.allorigins.win/raw"
  const UnknownLocation := "Não especificado"

  /** The page requested: the encoded name as keywords, restricted to `Brazil`. */
  function FetchUrl(companyName: string): string {
    Link(JobSearchBase, [Pair("keywords", EncodeUriComponent(companyName)), Pair("location", "Brazil")])
  }

  /** The CORS proxy wrapping a target link as its encoded `url` parameter. */
  function ProxyUrl(target: string): string {
    Link(ProxyBase, [Pair("url", EncodeUriComponent(target))])
  }

  /** The link of the synthetic entry: the same search with `location=Brasil`. */
  function BrasilSearchUrl(companyName: string): string {
    Link(JobSearchBase, [Pair("keywords", EncodeUriComponent(companyName)), Pair("location", "Brasil")])
  }

  /** The link used for a card without an anchor: a keyword search for title and company. */
  function KeywordSearchUrl(keywords: string): string {
    Link(JobSearchBase, [Pair("keywords", EncodeUriComponent(keywords))])
  }

  function BrasilEntry(companyName: string, today: string): JobEntry {
    JobEntry(
      id := "linkedin-brasil",
      title := "Vagas na " + companyName + " (Brasil)",
      company := companyName,
      location := "Brasil",
      date := today,
      source := LinkedIn,
      url := BrasilSearchUrl(companyName),
      isJobList := false,
      highlight := false)
  }

  /** A card is kept when its title and company elements exist, even with empty text. */
  predicate Complete(card: Card) {
    card.title.Some? && card.company.Some?
  }

  /**
   * The entry for a kept card at position `index` among all cards: numbered by
   * that position, with the trimmed texts, `Não especificado` for a missing
   * location and a keyword search for title and company for a missing link.
   */
  function CardEntry(card: Card, index: nat, today: string): (e: JobEntry)
    requires Complete(card)
    ensures e.id == IndexedId("linkedin-", index)
    ensures e.title == Trim(card.title.value) && e.company == Trim(card.company.value)
    ensures card.location.None? ==> e.location == UnknownLocation
    ensures card.location.Some? ==> e.location == Trim(card.location.value)
    ensures card.link.Some? ==> e.url == card.link.value
    ensures card.link.None? ==> e.url == KeywordSearchUrl(e.title + " " + e.company)
    ensures e.date == today && e.source == LinkedIn && !e.isJobList && !e.highlight
  {
    var title := Trim(card.title.value);
    var company := Trim(card.company.value);
    JobEntry(
      id := IndexedId("linkedin-", index),
      title := title,
      company := company,
      location := if card.location.Some? then Trim(card.location.value) else UnknownLocation,
      date := today,
      source := LinkedIn,
      url := if card.link.Some? then card.link.value else KeywordSearchUrl(title + " " + company),
      isJobList := false,
      highlight := false)
  }

  /** The positions of the kept cards, in increasing order. */
  function KeptPositions(cards: seq<Card>): seq<nat> {
    Positions(cards, Complete)
  }

  /**
   * The `forEach` over the cards: one entry per kept card, in card order, each
   * numbered by its position among all cards, and every card with a title and
   * a company has its entry.
   */
  function CardEntries(cards: seq<Card>, today: string): (r: seq<JobEntry>)
    ensures |r| == |KeptPositions(cards)| <= |cards|
    ensures forall k :: 0 <= k < |r| ==>
      var p := KeptPositions(cards)[k];
      && p < |cards| && Complete(cards[p])
      && r[k] == CardEntry(cards[p], p, today)
    ensures forall i :: 0 <= i < |cards| && Complete(cards[i]) ==>
      exists k :: 0 <= k < |r| && r[k].id == IndexedId("linkedin-", i)
  {
    var ps := KeptPositions(cards);
    assert forall k :: 0 <= k < |ps| ==> ps[k] < |cards| && Complete(cards[ps[k]]);
    var r := seq(|ps|, k requires 0 <= k < |ps| => CardEntry(cards[ps[k]], ps[k], today));
    forall i | 0 <= i < |cards| && Complete(cards[i])
      ensures exists k :: 0 <= k < |r| && r[k].id == IndexedId("linkedin-", i)
    {
      var k :| 0 <= k < |ps| && ps[k] == i;
      assert r[k] == CardEntry(cards[i], i, today);
    }
    r
  }

  /** `scrapeLinkedInJobs`: the synthetic entry, then the kept cards; nothing if the fetch failed. */
  function ScrapeLinkedInJobs(companyName: string, today: string, page: Fetch<Card>): (jobs: seq<JobEntry>)
    ensures page.FetchFailed? ==> jobs == []
    ensures page.Fetched? ==> |jobs| == 1 + |KeptPositions(page.items)| && jobs[0] == BrasilEntry(companyName, today)
    ensures page.Fetched? ==> jobs[1..] == CardEntries(page.items, today)
  {
    match page
    case FetchFailed => []
    case Fetched(cards) => [BrasilEntry(companyName, today)] + CardEntries(cards, today)
  }

  /** The card entries carry the ids `linkedin-<position>`, pairwise different. */
  lemma CardIdsDistinct(cards: seq<Card>, today: string)
    ensures forall k :: 0 <= k < |CardEntries(cards, today)| ==>
      CardEntries(cards, today)[k].id == IndexedId("linkedin-", KeptPositions(cards)[k])
    ensures DistinctIds(CardEntries(cards, today))
  {
    var ps := KeptPositions(cards);
    var r := CardEntries(cards, today);
    forall i, j | 0 <= i < j < |r| ensures r[i].id != r[j].id {
      IndexedIdInjective("linkedin-", ps[i], ps[j]);
    }
  }

  /** All entries of one scrape carry different ids. */
  lemma LinkedInIdsDistinct(companyName: string, today: string, page: Fetch<Card>)
    ensures DistinctIds(ScrapeLinkedInJobs(companyName, today, page))
  {
    if page.Fetched? {
      var ps := KeptPositions(page.items);
      var rest := CardEntries(page.items, today);
      CardIdsDistinct(page.items, today);
      forall k | 0 <= k < |rest| ensures rest[k].id != BrasilEntry(companyName, today).id {
        CardIdNotFixed(ps[k]);
      }
      DistinctIdsCons(BrasilEntry(companyName, today), rest);
    }
  }

  /** `id` is `linkedin-<p>` for a position `p` whose card has a title and a company. */
  predicate NamesCompleteCard(id: string, cards: seq<Card>) {
    exists p :: 0 <= p < |cards| && Complete(cards[p]) && id == IndexedId("linkedin-", p)
  }

  /**
   * The ids name where each entry came from: the first is `linkedin-brasil`,
   * and every other one names a card with a title and a company.
   */
  lemma LinkedInIdsNameCards(companyName: string, today: string, page: Fetch<Card>)
    requires page.Fetched?
    ensures var jobs := ScrapeLinkedInJobs(companyName, today, page);
      && jobs[0].id == "linkedin-brasil"
      && forall k :: 1 <= k < |jobs| ==> NamesCompleteCard(jobs[k].id, page.items)
  {
    var jobs := ScrapeLinkedInJobs(companyName, today, page);
    var rest := CardEntries(page.items, today);
    var ps := KeptPositions(page.items);
    forall k | 1 <= k < |jobs| ensures NamesCompleteCard(jobs[k].id, page.items) {
      assert 0 <= k - 1 < |rest| && jobs[k] == rest[k - 1];
      var p := ps[k - 1];
      assert p < |page.items| && Complete(page.items[p]) && rest[k - 1] == CardEntry(page.items[p], p, today);
      assert jobs[k].id == IndexedId("linkedin-", p);
    }
  }

  /** Kept titles and companies never start or end with white space. */
  lemma CardFieldsTrimmed(card: Card, index: nat, today: string)
    requires Complete(card)
    ensures Unpadded(CardEntry(card, index, today).title)
    ensures Unpadded(CardEntry(card, index, today).company)
  {
    TrimUnpadded(card.title.value);
    TrimUnpadded(card.company.value);
  }

  /** The links' bases have no `?` or `#` and their keys no `&` or `#`. */
  lemma LinkParts()
    ensures '?' !in JobSearchBase && '?' !in ProxyBase && '#' !in JobSearchBase && '#' !in ProxyBase
    ensures '&' !in "keywords" && '&' !in "url" && '&' !in Pair("location", "Brasil") && '&' !in Pair("location", "Brazil")
    ensures '#' !in "keywords" && '#' !in "url" && '#' !in Pair("location", "Brasil") && '#' !in Pair("location", "Brazil")
  {
    SearchBaseHasNoQuery();
    ProxyBaseHasNoQuery();
    KeysHaveNoAmpersand();
    KeysHaveNoHash();
  }

  lemma SearchBaseHasNoQuery()
    ensures '?' !in JobSearchBase && '#' !in JobSearchBase
  {
  }

  lemma ProxyBaseHasNoQuery()
    ensures '?' !in ProxyBase && '#' !in ProxyBase
  {
  }

  lemma KeysHaveNoAmpersand()
    ensures '&' !in "keywords" && '&' !in "url" && '&' !in Pair("location", "Brasil") && '&' !in Pair("location", "Brazil")
  {
  }

  lemma KeysHaveNoHash()
    ensures '#' !in "keywords" && '#' !in "url" && '#' !in Pair("location", "Brasil") && '#' !in Pair("location", "Brazil")
  {
  }

  /** The synthetic entry's `keywords` decode to the company name. */
  lemma BrasilLinkKeywords(companyName: string, today: string)
    ensures var e := BrasilEntry(companyName, today);
      exists k :: QueryParam(e.url, "keywords") == Some(k) && DecodeUriComponent(k) == Some(companyName)
  {
    var enc := EncodeUriComponent(companyName);
    NoDelimiterInEncoding(companyName);
    LinkParts();
    LinkFirstParam(JobSearchBase, "keywords", enc, [Pair("location", "Brasil")]);
    DecodeEncode(companyName);
  }

  /** The page fetched names the company the same way and asks for `Brazil`. */
  lemma FetchUrlKeywords(companyName: string)
    ensures exists k :: QueryParam(FetchUrl(companyName), "keywords") == Some(k) && DecodeUriComponent(k) == Some(companyName)
  {
    var enc := EncodeUriComponent(companyName);
    NoDelimiterInEncoding(companyName);
    LinkParts();
    LinkFirstParam(JobSearchBase, "keywords", enc, [Pair("location", "Brazil")]);
    DecodeEncode(companyName);
  }

  /** The proxy passes the target link through intact: its `url` parameter decodes to it. */
  lemma ProxyRoundTrip(target: string)
    ensures exists k :: QueryParam(ProxyUrl(target), "url") == Some(k) && DecodeUriComponent(k) == Some(target)
  {
    var enc := EncodeUriComponent(target);
    NoDelimiterInEncoding(target);
    LinkParts();
    LinkFirstParam(ProxyBase, "url", enc, []);
    DecodeEncode(target);
  }

  /** A card without a link points to a keyword search that decodes to `title company`. */
  lemma FallbackLinkKeywords(card: Card, index: nat, today: string)
    requires Complete(card) && card.link.None?
    ensures var e := CardEntry(card, index, today);
      exists k :: QueryParam(e.url, "keywords") == Some(k) && DecodeUriComponent(k) == Some(e.title + " " + e.company)
  {
    var e := CardEntry(card, index, today);
    var keywords := e.title + " " + e.company;
    assert e.url == KeywordSearchUrl(keywords);
    NoDelimiterInEncoding(keywords);
    LinkParts();
    LinkFirstParam(JobSearchBase, "keywords", EncodeUriComponent(keywords), []);
    DecodeEncode(keywords);
  }
}
