/**
 * The rendered result list (`displayResults` and `createJobCard`), as data: the
 * header with its counts, one section per source that has entries, and one card
 * per entry. Class attributes are lists of class tokens.
 */
module ResultsView {
  import opened Jobs
  import opened Filters

  // ---------------------------------------------------------------- grouping

  /** `jobs.filter(job => job.source === s)`. */
  function FromSource(jobs: seq<JobEntry>, s: Source): (r: seq<JobEntry>)
    ensures |r| <= |jobs|
    ensures forall i :: 0 <= i < |r| ==> r[i].source == s
    ensures forall e :: e in r <==> e in jobs && e.source == s
  {
    if |jobs| == 0 then []
    else
      var rest := FromSource(jobs[1..], s);
      assert forall e :: e in jobs <==> e == jobs[0] || e in jobs[1..];
      if jobs[0].source == s then [jobs[0]] + rest else rest
  }

  /** Filtering a concatenation filters each part. */
  lemma {:induction false} FromSourceAppend(a: seq<JobEntry>, b: seq<JobEntry>, s: Source)
    ensures FromSource(a + b, s) == FromSource(a, s) + FromSource(b, s)
  {
    if |a| == 0 {
      assert a + b == b;
    } else {
      assert (a + b)[0] == a[0];
      assert (a + b)[1..] == a[1..] + b;
      FromSourceAppend(a[1..], b, s);
    }
  }

  /** Entries all of one source are kept whole, in order. */
  lemma {:induction false} FromSourceAll(jobs: seq<JobEntry>, s: Source)
    requires AllFrom(jobs, s)
    ensures FromSource(jobs, s) == jobs
  {
    if |jobs| > 0 {
      FromSourceAll(jobs[1..], s);
      assert jobs == [jobs[0]] + jobs[1..];
    }
  }

  /** Entries of another source are all dropped. */
  lemma {:induction false} FromSourceNone(jobs: seq<JobEntry>, s: Source, other: Source)
    requires AllFrom(jobs, other) && other != s
    ensures FromSource(jobs, s) == []
  {
    if |jobs| > 0 {
      FromSourceNone(jobs[1..], s, other);
    }
  }

  /**
   * When every entry comes from the search engine or the professional network,
   * the two groups together hold every entry exactly once.
   */
  lemma {:induction false} GroupsCover(jobs: seq<JobEntry>)
    requires forall i :: 0 <= i < |jobs| ==> jobs[i].source == Google || jobs[i].source == LinkedIn
    ensures multiset(FromSource(jobs, Google)) + multiset(FromSource(jobs, LinkedIn)) == multiset(jobs)
    ensures |FromSource(jobs, Google)| + |FromSource(jobs, LinkedIn)| == |jobs|
  {
    if |jobs| > 0 {
      GroupsCover(jobs[1..]);
      assert jobs == [jobs[0]] + jobs[1..];
    }
  }

  // ---------------------------------------------------------------- one card

  /** A job card as rendered: class tokens, `data-source`, labels and the entry's text. */
  datatype CardView = CardView(
    classes: seq<string>,
    dataSource: string,
    sourceName: string,
    url: string,
    buttonClasses: seq<string>,
    iconClasses: seq<string>,
    buttonText: string,
    title: string,
    company: string,
    location: string)

  const JobListButton := "Ver Lista de Vagas"
  const JobButton := "Ver Vaga"

  /** The source's name on a card: the source tag itself for any source without its own label. */
  function SourceName(s: Source): string {
    match s
    case Google => "Google Jobs"
    case LinkedIn => "LinkedIn"
    case _ => s.Tag()
  }

  function CreateJobCard(job: JobEntry): CardView {
    CardView(
      classes := ["card", "job-card", job.source.Tag(), "mb-3"]
        + (if job.highlight then ["border-primary", "highlight-card"] else []),
      dataSource := job.source.Tag(),
      sourceName := SourceName(job.source),
      url := job.url,
      buttonClasses := ["btn"] + (if job.highlight then ["btn-primary"] else ["btn-sm", "btn-outline-primary"]),
      iconClasses := (if job.isJobList then ["fas", "fa-list"] else ["fas", "fa-external-link-alt"]) + ["me-1"],
      buttonText := if job.isJobList then JobListButton else JobButton,
      title := job.title,
      company := job.company,
      location := job.location)
  }

  /**
   * The highlight classes appear exactly on highlighted entries, the list button
   * and icon exactly on job-list entries, and every card is a `job-card` that
   * carries its source as a class and as `data-source`.
   */
  lemma CardFlags(job: JobEntry)
    ensures var card := CreateJobCard(job);
      && ("highlight-card" in card.classes <==> job.highlight)
      && ("border-primary" in card.classes <==> job.highlight)
      && ("btn-primary" in card.buttonClasses <==> job.highlight)
      && (card.buttonText == JobListButton <==> job.isJobList)
      && ("fa-list" in card.iconClasses <==> job.isJobList)
      && "job-card" in card.classes && job.source.Tag() in card.classes
  {
    var card := CreateJobCard(job);
    assert card.classes[1] == "job-card" && card.classes[2] == job.source.Tag();
    if job.highlight {
      assert card.classes[5] == "highlight-card" && card.classes[4] == "border-primary";
      assert card.buttonClasses[1] == "btn-primary";
    } else {
      assert |card.classes| == 4;
    }
    if job.isJobList {
      assert card.iconClasses[1] == "fa-list";
    }
    TagsAreNotFlags(job.source);
  }

  lemma TagsAreNotFlags(s: Source)
    ensures s.Tag() != "highlight-card" && s.Tag() != "border-primary"
  {
  }

  /** A card's `data-source` tells its entry's source back. */
  lemma CardNamesSource(a: JobEntry, b: JobEntry)
    ensures CreateJobCard(a).dataSource == CreateJobCard(b).dataSource <==> a.source == b.source
  {
    TagInjective(a.source, b.source);
  }

  /** Only the two labelled sources are shown under another name than their tag. */
  lemma SourceNameIsTag(s: Source)
    ensures SourceName(s) == s.Tag() <==> s != Google && s != LinkedIn
  {
  }

  // ---------------------------------------------------------------- the list

  /** One section of the list: its header, and the cards of one source. */
  datatype SectionView = SectionView(
    source: Source,
    headerShown: bool,
    heading: string,
    countShown: bool,
    count: nat,
    cards: seq<CardView>)

  /** The results header: `data.jobCount`, the company name and the two group sizes. */
  datatype ResultsPage = ResultsPage(
    total: nat,
    companyName: string,
    googleCount: nat,
    linkedinCount: nat,
    sections: seq<SectionView>)

  function Cards(jobs: seq<JobEntry>): (r: seq<CardView>)
    ensures |r| == |jobs|
  {
    seq(|jobs|, i requires 0 <= i < |jobs| => CreateJobCard(jobs[i]))
  }

  /** The label of a section header: none for the search engine, whose header is hidden. */
  function SectionLabel(s: Source): string {
    match s
    case Google => ""
    case LinkedIn => "LinkedIn"
    case _ => s.Tag()
  }

  function Section(group: seq<JobEntry>, s: Source): SectionView {
    SectionView(s, s != Google, SectionLabel(s), s != Google, |group|, Cards(group))
  }

  /** `displayResults`: the header, then a section per non-empty group, search engine first. */
  function DisplayResults(data: AggregationResult): ResultsPage {
    var google := FromSource(data.jobs, Google);
    var linkedin := FromSource(data.jobs, LinkedIn);
    ResultsPage(
      data.jobCount,
      data.companyName,
      |google|,
      |linkedin|,
      (if |google| > 0 then [Section(google, Google)] else [])
        + (if |linkedin| > 0 then [Section(linkedin, LinkedIn)] else []))
  }

  /** Every card of the page, section by section. */
  function PageCards(sections: seq<SectionView>): seq<CardView> {
    if |sections| == 0 then [] else sections[0].cards + PageCards(sections[1..])
  }

  /** The `data-source` of each card. */
  function CardSources(cards: seq<CardView>): (r: seq<string>)
    ensures |r| == |cards|
  {
    seq(|cards|, i requires 0 <= i < |cards| => cards[i].dataSource)
  }

  lemma CardSourcesAppend(a: seq<CardView>, b: seq<CardView>)
    ensures CardSources(a + b) == CardSources(a) + CardSources(b)
  {
  }

  /** Counting tag `t` among the cards of a group of source `s`. */
  lemma GroupTagCount(group: seq<JobEntry>, s: Source, t: Source)
    requires AllFrom(group, s)
    ensures Occurrences(CardSources(Cards(group)), t.Tag()) == if s == t then |group| else 0
  {
    var tags := CardSources(Cards(group));
    assert forall i :: 0 <= i < |tags| ==> tags[i] == s.Tag();
    TagInjective(s, t);
    OccurrencesUniform(tags, t.Tag());
  }

  /** The cards of the page are the search-engine cards, then the professional-network cards. */
  lemma DisplayedCards(data: AggregationResult)
    ensures PageCards(DisplayResults(data).sections)
      == Cards(FromSource(data.jobs, Google)) + Cards(FromSource(data.jobs, LinkedIn))
  {
    var google := FromSource(data.jobs, Google);
    var linkedin := FromSource(data.jobs, LinkedIn);
    var gs := if |google| > 0 then [Section(google, Google)] else [];
    var ls := if |linkedin| > 0 then [Section(linkedin, LinkedIn)] else [];
    assert DisplayResults(data).sections == gs + ls;
    if |google| > 0 {
      assert (gs + ls)[1..] == ls;
    } else {
      assert gs + ls == ls;
    }
    if |linkedin| > 0 {
      assert PageCards(ls) == Cards(linkedin) + PageCards([]);
    }
  }

  /**
   * Each header count is the number of cards on the page carrying that source,
   * and no card of the job board is ever shown.
   */
  lemma DisplayCounts(data: AggregationResult)
    ensures var page := DisplayResults(data);
      var tags := CardSources(PageCards(page.sections));
      && Occurrences(tags, Google.Tag()) == page.googleCount
      && Occurrences(tags, LinkedIn.Tag()) == page.linkedinCount
      && Occurrences(tags, Gupy.Tag()) == 0
      && |tags| == page.googleCount + page.linkedinCount
  {
    var google := FromSource(data.jobs, Google);
    var linkedin := FromSource(data.jobs, LinkedIn);
    DisplayedCards(data);
    CardSourcesAppend(Cards(google), Cards(linkedin));
    forall t: Source
      ensures Occurrences(CardSources(Cards(google)) + CardSources(Cards(linkedin)), t.Tag())
        == (if t == Google then |google| else 0) + (if t == LinkedIn then |linkedin| else 0)
    {
      OccurrencesAppend(CardSources(Cards(google)), CardSources(Cards(linkedin)), t.Tag());
      GroupTagCount(google, Google, t);
      GroupTagCount(linkedin, LinkedIn, t);
    }
  }

  /** The sections appear search engine first, each for a non-empty group, labelled by source. */
  lemma DisplaySections(data: AggregationResult)
    ensures var page := DisplayResults(data);
      && (forall k :: 0 <= k < |page.sections| ==>
            var sec := page.sections[k];
            sec.count > 0 && sec.cards == Cards(FromSource(data.jobs, sec.source))
              && (sec.headerShown <==> sec.source != Google))
      && |page.sections| == (if page.googleCount > 0 then 1 else 0) + (if page.linkedinCount > 0 then 1 else 0)
      && (|page.sections| == 2 ==> page.sections[0].source == Google && page.sections[1].source == LinkedIn)
  {
  }
}
