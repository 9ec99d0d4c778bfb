/**
 * The search form (`handleSearch`): validate the trimmed input, run the
 * aggregation, then either show the results, save the search and reset the
 * filters, or show the no-results or error message.
 */
module SearchFlow {
  import opened Options
  import opened Strings
  import opened Jobs
  import opened History
  import opened Filters
  import opened ResultsView
  import opened CompanyName
  import opened GoogleJobs
  import opened LinkedIn
  import opened Aggregate

  /** The two error messages of the form. */
  datatype Notice = EmptyInput | SearchFailed {
    function Text(): string {
      match this
      case EmptyInput => "Por favor, insira a URL da empresa."
      case SearchFailed => "Ocorreu um erro ao buscar vagas. Por favor, tente novamente."
    }
  }

  /** What the results area shows after a search. */
  datatype Screen =
    | ErrorMessage(notice: Notice)
    | NoResults(companyName: string)
    | Results(page: ResultsPage)

  /**
   * The state a search leaves behind. `requested` is the link handed to the
   * aggregation, `None` when no aggregation was started.
   */
  datatype SearchOutcome = SearchOutcome(
    requested: Option<string>,
    screen: Screen,
    history: seq<HistoryRecord>,
    buttons: seq<FilterButton>)

  /** The aggregation as seen by the form: its result, or `None` when it rejects. */
  type Scraper = string -> Option<AggregationResult>

  /** A result worth listing and saving. */
  predicate Found(data: AggregationResult) {
    data.success && |data.jobs| > 0
  }

  /**
   * `handleSearch` with the input field's value, the saved history, the filter
   * buttons, the aggregation and the clock reading for the history record.
   */
  function HandleSearch(input: string, history: seq<HistoryRecord>, buttons: seq<FilterButton>,
                        scrape: Scraper, timestamp: string): SearchOutcome {
    var companyUrl := Trim(input);
    if companyUrl == "" then
      SearchOutcome(None, ErrorMessage(EmptyInput), history, buttons)
    else
      Respond(companyUrl, scrape(companyUrl), history, buttons, timestamp)
  }

  /**
   * The rest of `handleSearch`, once the aggregation for `companyUrl` has
   * answered (or rejected). Results are listed exactly when the answer is a
   * successful non-empty result; then the search is recorded first in the
   * history, with its job count, and only the `all` buttons stay active.
   * Otherwise the error or no-results message is shown and the history and
   * the buttons are kept.
   */
  function Respond(companyUrl: string, answer: Option<AggregationResult>, history: seq<HistoryRecord>,
                   buttons: seq<FilterButton>, timestamp: string): (o: SearchOutcome)
    ensures o.requested == Some(companyUrl)
    ensures o.screen.Results? <==> answer.Some? && Found(answer.value)
    ensures answer.None? ==> o.screen == ErrorMessage(SearchFailed)
    ensures answer.Some? && !Found(answer.value) ==> o.screen == NoResults(answer.value.companyName)
    ensures o.screen.Results? ==>
      && 0 < |o.history| <= |history| + 1
      && o.history[0] == HistoryRecord(companyUrl, answer.value.companyName, timestamp, |answer.value.jobs|)
      && o.history[1..] == history[..|o.history| - 1]
      && |o.buttons| == |buttons|
      && forall i :: 0 <= i < |buttons| ==>
           o.buttons[i].filter == buttons[i].filter && (o.buttons[i].active <==> buttons[i].filter == ShowAll)
    ensures !o.screen.Results? ==> o.history == history && o.buttons == buttons
  {
    match answer
    case None =>
      SearchOutcome(Some(companyUrl), ErrorMessage(SearchFailed), history, buttons)
    case Some(data) =>
      if Found(data) then
        var record := HistoryRecord(companyUrl, data.companyName, timestamp, |data.jobs|);
        SearchOutcome(Some(companyUrl), Results(DisplayResults(data)), Remember(history, record), ResetFilters(buttons))
      else
        SearchOutcome(Some(companyUrl), NoResults(data.companyName), history, buttons)
  }

  /**
   * An input that is blank after trimming starts no aggregation, shows the
   * validation message and changes nothing else. Any other input is passed on
   * trimmed: non-empty, with no white space at either end.
   */
  lemma BlankInputRejected(input: string, history: seq<HistoryRecord>, buttons: seq<FilterButton>,
                           scrape: Scraper, timestamp: string)
    ensures var o := HandleSearch(input, history, buttons, scrape, timestamp);
      && (o.requested.None? <==> AllWhitespace(input))
      && (o.requested.None? ==>
            o.screen == ErrorMessage(EmptyInput) && o.history == history && o.buttons == buttons)
      && (o.requested.Some? ==>
            o.requested.value == Trim(input) && o.requested.value != [] && Unpadded(o.requested.value))
  {
    TrimUnpadded(input);
    SearchStart(input, history, buttons, scrape, timestamp);
  }

  /** Which link a search hands on, and what a blank one leaves behind. */
  lemma SearchStart(input: string, history: seq<HistoryRecord>, buttons: seq<FilterButton>,
                    scrape: Scraper, timestamp: string)
    ensures var o := HandleSearch(input, history, buttons, scrape, timestamp);
      && o.requested == (if Trim(input) == [] then None else Some(Trim(input)))
      && (Trim(input) == [] ==> o == SearchOutcome(None, ErrorMessage(EmptyInput), history, buttons))
  {
  }

  /**
   * The search is saved, listed and the filters reset exactly when the
   * aggregation answered with a successful non-empty result; otherwise the
   * history and the buttons stay as they were.
   */
  lemma SavedOnlyWhenFound(input: string, history: seq<HistoryRecord>, buttons: seq<FilterButton>,
                           scrape: Scraper, timestamp: string)
    ensures var o := HandleSearch(input, history, buttons, scrape, timestamp);
      && (o.screen.Results? <==>
            o.requested.Some? && scrape(o.requested.value).Some? && Found(scrape(o.requested.value).value))
      && (o.screen.Results? ==>
            var data := scrape(o.requested.value).value;
            && o.history == Remember(history, HistoryRecord(o.requested.value, data.companyName, timestamp, |data.jobs|))
            && o.history[0].jobCount == |data.jobs|
            && o.buttons == ResetFilters(buttons)
            && o.screen.page == DisplayResults(data))
      && (!o.screen.Results? ==> o.history == history && o.buttons == buttons)
  {
    var url := Trim(input);
    SearchStart(input, history, buttons, scrape, timestamp);
    if url != "" {
      var o := Respond(url, scrape(url), history, buttons, timestamp);
      assert HandleSearch(input, history, buttons, scrape, timestamp) == o;
      match scrape(url)
      case None =>
        assert o == SearchOutcome(Some(url), ErrorMessage(SearchFailed), history, buttons);
      case Some(data) =>
        if Found(data) {
          var record := HistoryRecord(url, data.companyName, timestamp, |data.jobs|);
          assert o == SearchOutcome(Some(url), Results(DisplayResults(data)), Remember(history, record), ResetFilters(buttons));
        } else {
          assert o == SearchOutcome(Some(url), NoResults(data.companyName), history, buttons);
        }
    }
  }

  /** The search-engine entry comes from the search engine. */
  lemma GoogleFromGoogle(companyName: string, today: string)
    ensures AllFrom(ScrapeGoogleJobs(companyName, today), Google)
  {
  }

  /**
   * The groups of a run: the search-engine group is its one entry, and the
   * professional-network group is that scraper's output.
   */
  lemma RunGroups(companyUrl: string, today: string, page: Fetch<Card>, when: DateValue)
    ensures var result := ScrapeAllJobs(companyUrl, today, page, when);
      && FromSource(result.jobs, Google) == ScrapeGoogleJobs(result.companyName, today)
      && FromSource(result.jobs, LinkedIn) == ScrapeLinkedInJobs(result.companyName, today, page)
  {
    var result := ScrapeAllJobs(companyUrl, today, page, when);
    var google := ScrapeGoogleJobs(result.companyName, today);
    var linkedin := ScrapeLinkedInJobs(result.companyName, today, page);
    ResultShape(companyUrl, today, page, when);
    LinkedInDated(result.companyName, today, page);
    GoogleFromGoogle(result.companyName, today);
    FromSourceAppend(google, linkedin, Google);
    FromSourceAppend(google, linkedin, LinkedIn);
    FromSourceAll(google, Google);
    FromSourceAll(linkedin, LinkedIn);
    FromSourceNone(google, LinkedIn, Google);
    FromSourceNone(linkedin, Google, LinkedIn);
  }

  /** The aggregation of this model as the form sees it: it always answers. */
  function LiveScraper(today: string, page: Fetch<Card>, when: DateValue): (scrape: Scraper)
    ensures forall url :: scrape(url) == Some(ScrapeAllJobs(url, today, page, when))
  {
    url => Some(ScrapeAllJobs(url, today, page, when))
  }

  /**
   * With the aggregation of this model, every non-blank search is listed and
   * saved: the aggregation never rejects and always returns the search-engine
   * entry. The header counts one search-engine entry and the whole
   * professional-network output.
   */
  lemma EverySearchListed(input: string, history: seq<HistoryRecord>, buttons: seq<FilterButton>,
                          today: string, page: Fetch<Card>, when: DateValue, timestamp: string)
    requires !AllWhitespace(input)
    ensures var o := HandleSearch(input, history, buttons, LiveScraper(today, page, when), timestamp);
      var name := ExtractCompanyName(Trim(input));
      && o.screen.Results?
      && |o.history| > 0 && o.history[0].companyName == name
      && o.screen.page.googleCount == 1
      && o.screen.page.linkedinCount == |ScrapeLinkedInJobs(name, today, page)|
  {
    var scrape := LiveScraper(today, page, when);
    var url := Trim(input);
    var result := ScrapeAllJobs(url, today, page, when);
    var o := HandleSearch(input, history, buttons, scrape, timestamp);
    BlankInputRejected(input, history, buttons, scrape, timestamp);
    assert scrape(url) == Some(result);
    ResultShape(url, today, page, when);
    assert Found(result);
    SavedOnlyWhenFound(input, history, buttons, scrape, timestamp);
    assert o.screen.page == DisplayResults(result);
    RunGroups(url, today, page, when);
  }

  /**
   * After the results are listed, clicking the filter button of the search
   * engine or the professional network shows as many cards as the header
   * counts for that source.
   */
  lemma FilterMatchesHeader(data: AggregationResult, buttons: seq<FilterButton>, clicked: nat, s: Source)
    requires clicked < |buttons| && buttons[clicked].filter == s.Tag() && s != Gupy
    ensures var page := DisplayResults(data);
      var shown := HandleFilter(buttons, clicked, CardSources(PageCards(page.sections))).shown;
      ShownCount(shown) == if s == Google then page.googleCount else page.linkedinCount
  {
    var page := DisplayResults(data);
    DisplayCounts(data);
    TagIsNotShowAll(s);
    ShownCountOfFilter(buttons, clicked, CardSources(PageCards(page.sections)));
  }

  lemma TagIsNotShowAll(s: Source)
    ensures s.Tag() != ShowAll
  {
  }
}
