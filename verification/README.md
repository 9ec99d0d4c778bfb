# busca_vaga — a Dafny model of the job aggregator and its search page

busca_vaga is a small browser application. The user types a company's web
address. The page derives a company name from it and builds a job list from
two sources:
- a generated search-engine link (`scrapeGoogleJobs`);
- the result cards of a professional-network job search (`scrapeLinkedInJobs`).

It merges and date-sorts the two lists (`scrapeAllJobs`). It shows them grouped
by source, with a filter bar (`displayResults`, `createJobCard`, `handleFilter`,
`resetFilters`). It also keeps a session history of the last ten searches
(`handleSearch`). A third source, the job-board cascade `scrapeGupyJobs`, is
still in the code but is neither exported nor called. It is modelled all the
same.

The model is purely functional:
- Pages fetched over the network are abstract sequences of card records, with
  optional fields standing for absent elements.
- A failed request is a `FetchFailed` value.
- The clock reading is a `today` string, and the date parser is a
  `string -> int` parameter.
- The DOM is modelled as data: buttons with an `active` flag, cards with class
  token lists, and one shown/hidden flag per card.

Modules, one per concern:

| module | file | models |
|---|---|---|
| `Options`, `Strings` | strings.dfy | `Option`; ASCII case mapping; JavaScript white space; `trim`; `indexOf`; `includes`; `split`/`join`; decimal numbers |
| `UriEncoding` | uri_encoding.dfy | `encodeURIComponent` (UTF-8, percent escapes), and a decoder to state its round trip |
| `UrlQuery` | url_query.dfy | reading a query parameter back out of a built link, up to the first `#` |
| `Jobs` | jobs.dfy | the job entry, the source tag, the aggregation result, the positions a filtering `forEach` keeps |
| `CompanyName` | company_name.dfy | `extractCompanyName` |
| `GoogleJobs` | google_jobs.dfy | the query, link and entry of `scrapeGoogleJobs` |
| `LinkedIn` | linkedin.dfy | the links, the synthetic entry and the card selection of `scrapeLinkedInJobs` |
| `Aggregate` | aggregate.dfy | `scrapeAllJobs`: combine, stable sort by date, result |
| `Gupy` | gupy.dfy | the slug and the four-tier cascade of `scrapeGupyJobs`, with its error answer |
| `History` | history.dfy | the capped search history |
| `Filters` | filters.dfy | `handleFilter` and `resetFilters` |
| `ResultsView` | results_view.dfy | `displayResults` grouping and counts, `createJobCard` labels and flags |
| `SearchFlow` | search_flow.dfy | `handleSearch`: validation, outcome, when the history is saved |

Points of the code's behaviour that the model keeps as written:
- `extractCompanyName("")` is `""`. The `'Unknown Company'` fallback sits in a
  `catch` that no string input reaches (`CompanyName.EmptyUrl`).
- When the professional-network request fails, the `catch` returns `[]`.
  The synthetic entry pushed in the `try` block is lost with the array
  (job-scraper.js:205-208), so a failed request yields no entries at all.
- The search-engine query is not percent-encoded. Only white-space runs
  become `+`. A company name containing `&` therefore ends the `q`
  parameter early: `GoogleJobs.AmpersandCutsName`, and
  `GoogleJobs.AmpersandExample` for `At&t`. A `#` starts the link's fragment,
  which is never sent, so it cuts `q` and drops `oq` altogether:
  `GoogleJobs.HashCutsName`, and `GoogleJobs.HashExample` for `C#`. Since a
  host name cannot contain `&` or `#`, this is recorded as behaviour rather
  than as a defect.
- `Array.prototype.sort` is stable (ECMAScript 2019 onwards). Because every
  entry of one run carries the same date, the sort leaves the combined list
  as it is (`Aggregate.ResultShape`).

## Model

| member | source | states |
|---|---|---|
| CompanyName.ExtractCompanyName | assets/js/job-scraper.js:52-81 | the name has no `.` and no `-`, and it is the host label written character by character: same length, a space for each hyphen, each word's first character upper case and its other characters lower case |
| CompanyName.NameOfLabelUnique | assets/js/job-scraper.js:67-79 | that character-level description fixes the name completely: two names satisfying it for one label are equal |
| CompanyName.StripHttps | assets/js/job-scraper.js:55 | a leading `https://` in any letter case is removed |
| CompanyName.StripHttp | assets/js/job-scraper.js:55 | a leading `http://` in any letter case is removed |
| CompanyName.StripLeadingWww | assets/js/job-scraper.js:58 | one leading `www.` in any letter case is removed |
| CompanyName.BeforeFirstDot | assets/js/job-scraper.js:62-65 | the kept part has no `.`, is a prefix of the host, and is followed in the host by a `.` whenever it is shorter |
| CompanyName.BeforeDotOfConcat | assets/js/job-scraper.js:62-65 | a dot-free label followed by `.rest` is cut back to the label |
| CompanyName.CapitalizeWordsFrom | assets/js/job-scraper.js:71-79 | splitting on spaces, capitalising each word and re-joining equals the reference character-by-character title casing |
| CompanyName.CapitalizeWordsIsTitleCase | assets/js/job-scraper.js:71-79 | on a string without hyphens, the capitalised string has each character after a space, and the first, upper-cased and every other character lower-cased |
| CompanyName.TitleCaseOfSpaced | assets/js/job-scraper.js:67-79 | title casing after turning hyphens into spaces yields the character-level name of the original label, with no `.` or `-` |
| CompanyName.CleanNameFixedPoint | assets/js/job-scraper.js:52-81 | a name with no scheme, no dot, no hyphen and already title-cased is returned unchanged |
| CompanyName.ExtractIdempotent | assets/js/job-scraper.js:52-81 | extracting again from an extracted name changes nothing, unless that name itself starts with a scheme |
| CompanyName.NotIdempotentOnDoubledScheme | assets/js/job-scraper.js:55 | only one scheme is stripped: `http://http://x` gives `Http://x`, which gives `X` |
| CompanyName.EmptyUrl | assets/js/job-scraper.js:52-85 | the empty input gives the empty name, not the fallback text |
| CompanyName.AcmeIsFixedPoint | assets/js/job-scraper.js:52-81 | `Acme` gives `Acme` |
| CompanyName.VivoExample | assets/js/job-scraper.js:52-81 | `https://www.vivo.com.br` gives `Vivo` |
| CompanyName.HyphenatedExample | assets/js/job-scraper.js:52-81 | `acme-corp.com` gives `Acme Corp` |
| CompanyName.SchemeAndWwwExample | assets/js/job-scraper.js:52-81 | `https://www.acme-corp.com.br` gives `Acme Corp` |
| CompanyName.LabelAfterHttpsWww | assets/js/job-scraper.js:55-65 | after `https://` and `www.`, each in any letter case, a label without a dot followed by `.rest` is the name's label |
| CompanyName.LabelAfterHttp | assets/js/job-scraper.js:55-65 | after `http://` in any letter case, a host without a dot is the whole label, whatever it starts with |
| CompanyName.LabelOfBareHost | assets/js/job-scraper.js:55-65 | a host with neither a scheme nor `www.` in any letter case keeps the text before its first `.` |
| GoogleJobs.CollapseRemovesWhitespace | assets/js/job-scraper.js:97 | replacing white-space runs by `+` leaves no white space and never lengthens the text |
| GoogleJobs.CollapseKeepsText | assets/js/job-scraper.js:97 | the characters other than white space and `+` are kept, in order |
| GoogleJobs.CollapseAddsOnlyPlus | assets/js/job-scraper.js:97 | no character other than `+` is introduced |
| GoogleJobs.CollapseIdentity | assets/js/job-scraper.js:97 | text without white space is unchanged |
| GoogleJobs.CollapseIdempotent | assets/js/job-scraper.js:97 | collapsing twice is collapsing once |
| GoogleJobs.CollapseAppend | assets/js/job-scraper.js:97 | after a part that does not end in white space, the two parts collapse separately |
| GoogleJobs.FormattedQueryShape | assets/js/job-scraper.js:96-97 | the query is the collapsed, right-trimmed company name followed by `+Vagas`; it has no white space; its text is the name's text followed by `Vagas` |
| GoogleJobs.PlainNameQuery | assets/js/job-scraper.js:96-97 | a name without white space gives exactly `name+Vagas` |
| GoogleJobs.GoogleUrlCarriesQuery | assets/js/job-scraper.js:100 | for a query without `&` or `#`, both the `q` and the `oq` parameters of the link read back as the query |
| GoogleJobs.AmpersandCutsQuery | assets/js/job-scraper.js:100 | for a query with `&` and no `#` before it, the `q` parameter reads back as the text before the first `&` |
| GoogleJobs.HashCutsQuery | assets/js/job-scraper.js:100 | for a query with `#` and no `&` before it, `q` reads back as the text before the first `#` and there is no `oq` |
| GoogleJobs.ScrapeGoogleJobs | assets/js/job-scraper.js:93-119 | exactly one entry: id `google-main`, source `google`, titled `Lista de Vagas Gerada para <name>`, the given company, dated today, located `Brasil`, a highlighted job list; without `&` or `#` in the name its `q` and `oq` are the formatted query |
| GoogleJobs.AmpersandCutsName | assets/js/job-scraper.js:96-113 | for a name without white space that contains `&` with no `#` before it, the entry's `q` is the name up to its first `&` |
| GoogleJobs.AmpersandExample | assets/js/job-scraper.js:96-113 | for `At&t` the entry's `q` is `At` |
| GoogleJobs.HashCutsName | assets/js/job-scraper.js:96-113 | for a name without white space that contains `#` with no `&` before it, the entry's `q` is the name up to its first `#` and it has no `oq` |
| GoogleJobs.HashExample | assets/js/job-scraper.js:96-113 | for `C#` the entry's `q` is `C` and it has no `oq` |
| Jobs.Positions | assets/js/job-scraper.js:180-186 | the kept positions are listed in increasing order, each one in range and satisfying the test, and every position that satisfies the test is listed |
| Jobs.PositionsEmpty | assets/js/job-scraper.js:180-186 | no position is kept exactly when no element passes the test |
| Jobs.IndexedIdInjective | assets/js/job-scraper.js:193 | `<prefix><index>` ids with different indices differ |
| LinkedIn.ScrapeLinkedInJobs | assets/js/job-scraper.js:150-208 | a failed request gives no entries; otherwise the synthetic `Brasil` entry comes first, followed by exactly the card entries, one per card that has both a title and a company |
| LinkedIn.CardEntries | assets/js/job-scraper.js:180-202 | the entries follow card order; each is the entry of a card with a title and a company, numbered by that card's position among all cards; every such card has its entry; there are never more entries than cards |
| LinkedIn.CardEntry | assets/js/job-scraper.js:186-200 | a kept card's entry: id `linkedin-<position>`; trimmed title and company; the trimmed location, or `Não especificado` without one; the anchor's link, or a keyword search for title, space and company; dated today, source `linkedin`, neither a list nor highlighted |
| LinkedIn.CardIdsDistinct | assets/js/job-scraper.js:193 | the card entries carry the ids `linkedin-<position>` and no two are equal |
| LinkedIn.LinkedInIdsDistinct | assets/js/job-scraper.js:170-202 | no two entries of the source share an id, the synthetic one included |
| LinkedIn.LinkedInIdsNameCards | assets/js/job-scraper.js:170-193 | the first id is `linkedin-brasil` and every other id is `linkedin-<p>` for a position `p` whose card has a title and a company |
| LinkedIn.CardFieldsTrimmed | assets/js/job-scraper.js:187-188 | a card entry's title and company have no white space at either end |
| LinkedIn.BrasilLinkKeywords | assets/js/job-scraper.js:152-177 | the synthetic entry's `keywords` parameter decodes to the company name |
| LinkedIn.FetchUrlKeywords | assets/js/job-scraper.js:152-154 | the requested page's `keywords` parameter decodes to the company name |
| LinkedIn.ProxyRoundTrip | assets/js/job-scraper.js:157 | the proxy link's `url` parameter decodes to the target link |
| LinkedIn.FallbackLinkKeywords | assets/js/job-scraper.js:190 | a card without a link points to a search whose `keywords` decode to its title, a space and its company |
| Aggregate.SortByDate | assets/js/job-scraper.js:29 | the sorted list is a permutation of the combined list |
| Aggregate.SortIsOrdered | assets/js/job-scraper.js:29 | the sorted list is newest first |
| Aggregate.SortIsStable | assets/js/job-scraper.js:29 | the entries of any one date keep their relative order |
| Aggregate.SameDateKeepsOrder | assets/js/job-scraper.js:29 | a list whose entries all carry one date is left as it is |
| Aggregate.InsertSorted | assets/js/job-scraper.js:29 | inserting one entry into a newest-first list keeps it newest first |
| Aggregate.ScrapeAllJobs | assets/js/job-scraper.js:11-39 | the result succeeds, its count is its length, its name is the extracted name, its entries are a permutation of both sources' entries, newest first |
| Aggregate.ResultShape | assets/js/job-scraper.js:14-38 | the entries are the search-engine entry followed by the network entries, unreordered; the first is `google-main`; ids are distinct; the count is 1 when the request failed, else 2 plus the kept cards |
| Aggregate.RunIdsDistinct | assets/js/job-scraper.js:11-39 | the combined list of one run has pairwise different ids |
| Aggregate.LinkedInDated | assets/js/job-scraper.js:170-200 | every network entry is dated today and tagged with its source |
| Gupy.SlugAlphabet | assets/js/job-scraper.js:219 | the slug holds only lower-case ASCII letters and digits and is never longer than the name |
| Gupy.SlugIdempotent | assets/js/job-scraper.js:219 | the slug of a slug is itself |
| Gupy.SlugIgnoresCase | assets/js/job-scraper.js:219 | an ASCII-lower-cased name has the same slug |
| Gupy.SlugAppend | assets/js/job-scraper.js:219 | the slug of a concatenation is the concatenation of the slugs |
| Gupy.SlugIsUriSafe | assets/js/job-scraper.js:219-223 | encoding a slug as a URI component leaves it unchanged |
| Gupy.ProxyRoundTrip | assets/js/job-scraper.js:223 | the job-board proxy's query decodes to the target link |
| Gupy.SearchUrlTerm | assets/js/job-scraper.js:292 | the portal search's `searchTerm` decodes to the company name |
| Gupy.PageEntries | assets/js/job-scraper.js:236-258 | the entries follow card order; each is the entry of a card with a title, numbered by its position among all cards; every titled card has its entry |
| Gupy.PageEntry | assets/js/job-scraper.js:242-255 | a titled card's entry: id `gupy-<position>`; trimmed title; the company name; the trimmed location, or `Brasil`; the anchor's link, or the job page `/job/<position>`; dated today, source `gupy` |
| Gupy.ApiEntries | assets/js/job-scraper.js:266-287 | a failed or non-array answer gives nothing; an array gives the entries of its listed jobs |
| Gupy.ListedEntries | assets/js/job-scraper.js:270-283 | the entries follow array order; each comes from a job with a title or a name and no `null` before it, numbered by its index; every such job has its entry |
| Gupy.ApiEntry | assets/js/job-scraper.js:272-281 | a listed job's entry: id `gupy-api-<index>`; `title` when non-empty, else `name`; `location`, else `workplace`, else `Brasil`, each only when non-empty; `url` when non-empty, else the job page named by the job's id or else its index; dated today, source `gupy` |
| Gupy.BeforeNull | assets/js/job-scraper.js:271-272 | the jobs reached are the longest prefix without `null`; when it stops early, it stops at a `null` |
| Gupy.ApiEntryFields | assets/js/job-scraper.js:275-280 | an API entry's title and location are non-empty; the title is the job's title when that is non-empty; without a URL the link is the job's page |
| Gupy.SearchEntries | assets/js/job-scraper.js:301-325 | the entries follow result order; each comes from a result with a title whose company text, lower-cased, contains the lower-cased name, numbered by its position; every such result has its entry |
| Gupy.SearchEntry | assets/js/job-scraper.js:308-322 | a matching result's entry: id `gupy-search-<position>`; trimmed title and company text; the trimmed location, or `Brasil`; the anchor's link, or the portal search link; dated today, source `gupy` |
| Gupy.ErrorLinksArePrefix | assets/js/job-scraper.js:329-373 | the error answer is the first three of the five generated department links |
| Gupy.DepartmentLinksPointHome | assets/js/job-scraper.js:338-347 | every generated link points to the company's page |
| Gupy.AnsweringTier | assets/js/job-scraper.js:236-349 | the company page answers exactly when it was fetched with a titled card; the API exactly when it did not and the API lists a job; the error answer exactly when the page or the needed search request failed |
| Gupy.GeneratedLinksWhenNothingFound | assets/js/job-scraper.js:329-349 | the five generated links answer exactly when the page and the search were fetched and no tier found a job |
| Gupy.GupyAnswer | assets/js/job-scraper.js:236-373 | a failed page gives three links; a page with entries gives them; otherwise non-empty API entries give those |
| Gupy.LaterTiersUnused | assets/js/job-scraper.js:236-326 | once the page lists a job, the API and search answers do not change the result |
| Gupy.SearchUnusedAfterApi | assets/js/job-scraper.js:291 | once the API answers, the search answer does not change the result |
| Gupy.GupyNeverEmpty | assets/js/job-scraper.js:216-375 | the cascade always answers with at least one entry |
| Gupy.GupyStamped | assets/js/job-scraper.js:216-375 | every entry is tagged `gupy` and dated today |
| Gupy.GupyIdsDistinct | assets/js/job-scraper.js:216-375 | whatever tier answers, its entries have pairwise different ids |
| History.Remember | assets/js/main.js:67-77 | the new record is first, followed by the old history in order, which loses its last record only when it was already at the cap |
| History.RememberWithinCap | assets/js/main.js:67-77 | from a history of at most ten, the result is the new record followed by at most the first nine old ones, and has at most ten records |
| History.OnlyOldestEvicted | assets/js/main.js:74-77 | every old record except the last stays, one place later |
| History.RememberAllShape | assets/js/main.js:66-78 | after a run of saves, the history is the saved records newest first followed by the old history, cut to ten |
| History.CapPreserved | assets/js/main.js:74-77 | starting within the cap, no run of saves takes the history past ten |
| History.ElevenSaves | assets/js/main.js:74-77 | eleven different saves from empty leave ten, the newest first and the first one gone |
| SearchFlow.BlankInputRejected | assets/js/main.js:30-35 | a blank input starts no aggregation, shows the validation message and changes nothing; any other input is passed on trimmed, non-empty and without white space at either end |
| SearchFlow.Respond | assets/js/main.js:56-89 | results are listed exactly when the answer is a successful non-empty result; then the search is the newest history record with its job count, the older records follow, and only the `all` buttons are active; a rejection shows the error message and an empty result the no-results message, both keeping history and buttons |
| SearchFlow.SavedOnlyWhenFound | assets/js/main.js:56-89 | results are listed, the search saved and the filters reset exactly when the aggregation answered successfully with entries; otherwise history and buttons are unchanged |
| SearchFlow.EverySearchListed | assets/js/main.js:30-83 | with this model's aggregation, every non-blank search is listed and saved under the extracted name, with one search-engine entry and all network entries counted |
| SearchFlow.RunGroups | assets/js/main.js:105-106 | the page's search-engine group is the one generated entry and its network group is the network's output |
| SearchFlow.FilterMatchesHeader | assets/js/main.js:104-121 | clicking the search-engine or network filter shows as many cards as the header counts for it |
| ResultsView.FromSource | assets/js/main.js:105-106 | the group holds exactly the entries of that source, none longer than the list |
| ResultsView.FromSourceAppend | assets/js/main.js:119-120 | grouping a concatenation groups each part |
| ResultsView.GroupsCover | assets/js/main.js:118-121 | when every entry is from the two listed sources, the two groups together hold every entry exactly once |
| ResultsView.DisplayCounts | assets/js/main.js:104-159 | each header count equals the number of cards shown with that source; no job-board card is shown; the cards total the two counts |
| ResultsView.DisplaySections | assets/js/main.js:124-159 | one section per non-empty group, search engine first; each holds its group's cards; only the search-engine header is hidden |
| ResultsView.DisplayedCards | assets/js/main.js:124-157 | the page's cards are the search-engine cards followed by the network cards |
| ResultsView.CardFlags | assets/js/main.js:170-222 | highlight classes and the primary button exactly on highlighted entries; the list label and icon exactly on job lists; every card is a `job-card` with its source class |
| ResultsView.SourceNameIsTag | assets/js/main.js:182-192 | only the search engine and the network are shown under another name than their tag |
| ResultsView.CardNamesSource | assets/js/main.js:179 | two cards have the same `data-source` exactly when their entries have the same source |
| Filters.HandleFilter | assets/js/main.js:228-247 | exactly the clicked button is active; a card is shown exactly when the filter is `all` or the card's source equals the filter |
| Filters.ShownCountOfFilter | assets/js/main.js:240-246 | the shown cards number all of them under `all`, otherwise the cards of the chosen source |
| Filters.ResetFilters | assets/js/main.js:252-259 | exactly the buttons whose filter is `all` are active afterwards, and no filter value changes |
| Filters.ResetIdempotent | assets/js/main.js:252-259 | resetting twice is resetting once |
| Filters.ResetForgetsClick | assets/js/main.js:252-259 | a reset undoes any earlier click |
| Filters.ClickAllIsReset | assets/js/main.js:228-259 | with one `all` button, clicking it leaves the buttons as a reset does |
| Strings.TrimUnpadded | assets/js/main.js:30 | a trimmed string has no white space at either end, and is empty exactly when the input was all white space |
| Strings.TrimSpec | assets/js/job-scraper.js:187-189 | the trimmed string is the input with white-space-only text removed from both ends |
| Strings.JoinSplit | assets/js/job-scraper.js:71-79 | joining the parts of a split gives the string back |
| Strings.SplitJoin | assets/js/job-scraper.js:71-79 | splitting a join of separator-free parts gives the parts back |
| Strings.Contains | assets/js/job-scraper.js:308 | `includes` holds exactly when the text occurs at some position |
| Strings.NatToStringInjective | assets/js/job-scraper.js:193 | different indices print differently |
| Strings.ParseNatToString | assets/js/job-scraper.js:193 | reading a printed index gives the index back |
| UriEncoding.DecodeEncode | assets/js/job-scraper.js:152 | decoding the `encodeURIComponent` form gives the string back |
| UriEncoding.EncodedAlphabet | assets/js/job-scraper.js:152 | the encoding holds only unreserved characters and `%`, every `%` is followed by two hexadecimal digits, it is never shorter, and it leaves unreserved text unchanged |
| UrlQuery.LinkFirstParam | assets/js/job-scraper.js:154 | a link built from `key=value` pairs reads back its first parameter's value |

## Left out

- Network requests, `DOMParser` and `querySelector` are not modelled. Each fetched page is an abstract sequence of card records, each element a field that is present or absent. A failed request or parse is `FetchFailed`.
- `new Date()`, `toLocaleDateString` and `toISOString` are clock- and locale-dependent. One run's date is the parameter `today`, and the history timestamp is a parameter. The date parser of the sort comparator is a `string -> int` parameter.
- The `Math.random` job estimate in the search-engine `catch` (job-scraper.js:120-142) is left out. That `catch` is unreachable because building a string cannot throw, and the estimate is random.
- The loader's `show`/`hide`, the `console.error` calls and the rethrow in `scrapeAllJobs`' `catch` are left out. In the model neither scraper throws, so the rethrow is unreachable. `handleSearch`'s own error message is modelled through a scraper parameter that may reject.
- `innerHTML` rendering, the spinner text and `showNoResults`/`showError` markup are not modelled. The model keeps what is shown as data: the header counts, the sections, and the classes, labels and texts of each card.
- `sessionStorage` and JSON are not modelled; the history is a sequence. A corrupt stored value makes `JSON.parse` throw into the save step's `catch`, which skips the save; that case is not modelled.
- assets/js/sidebar.js and assets/js/loader.js are not part of this model. They only toggle CSS classes and run timers.
- Case mapping is ASCII only. `toUpperCase`/`toLowerCase` on other letters, and the resulting length changes, are not modelled. The exception is the Gupy slug, which models the two non-ASCII characters that lower-case into `[a-z]`.
- Strings are sequences of Unicode scalar values. JavaScript's UTF-16 code units, and the `URIError` that `encodeURIComponent` throws on a lone surrogate, are not modelled.
- A click on an element inside a filter button (`event.target` being the child; main.js:228-235) is not modelled. The click is always on the button itself.
- API fields that are neither strings nor absent are read as absent. Negative or fractional numeric ids are left out: a numeric id is a `nat`.
- Gupy.ApiEntry: a numeric API `id` is printed as its exact decimal digits in the job-page fallback (job-scraper.js:280). JavaScript numbers are doubles, so `${job.id}` prints an id of 2^53 or more rounded to the nearest double (`2**60` as `1152921504606847000`), and one of 10^21 or more in exponent form (`1e+21`). Those ids are not modelled; below 2^53 the two printings agree. The `forEach` indices are always below 2^32, so the other numbered ids are exact.
- LinkedIn.ScrapeLinkedInJobs: a card's link is the anchor's `href` as given (job-scraper.js:190). The browser's resolution of a relative `href` against the page address is not modelled.
- Gupy.PageEntry: a card's link is the anchor's `href` as given (job-scraper.js:245); relative `href` resolution is not modelled.
- Gupy.SearchEntry: a result's link is the anchor's `href` as given (job-scraper.js:312); relative `href` resolution is not modelled.
- Gupy.AnsweringTier: the API answer is not modelled beyond "failed", "not an array" or an array of jobs. Any element after the first `null` is never read, as in the code.
