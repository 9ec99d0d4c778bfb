/**
 * The search-engine source (`scrapeGoogleJobs`): no request is made; one entry
 * carries a generated search link for `"<company> Vagas"`.
 */
module GoogleJobs {
  import opened Options
  import opened Strings
  import opened Jobs
  import opened UrlQuery

  /**
   * `replace(/\s+/g, '+')`: every maximal run of white space becomes one `+`;
   * every other character is kept.
   */
  function CollapseWhitespace(s: string): string
    decreases |s|
  {
    if |s| == 0 then []
    else if IsJsWhitespace(s[0]) then "+" + CollapseWhitespace(TrimStart(s))
    else [s[0]] + CollapseWhitespace(s[1..])
  }

  /** The result has no white space and is never longer than the input. */
  lemma {:induction false} CollapseRemovesWhitespace(s: string)
    ensures NoWhitespace(CollapseWhitespace(s))
    ensures |CollapseWhitespace(s)| <= |s|
    decreases |s|
  {
    if |s| > 0 {
      if IsJsWhitespace(s[0]) {
        CollapseRemovesWhitespace(TrimStart(s));
      } else {
        CollapseRemovesWhitespace(s[1..]);
      }
    }
  }

  /** Collapsing introduces no character other than `+`. */
  lemma {:induction false} CollapseAddsOnlyPlus(s: string, c: char)
    requires c != '+' && c !in s
    ensures c !in CollapseWhitespace(s)
    decreases |s|
  {
    if |s| > 0 {
      if IsJsWhitespace(s[0]) {
        var t := TrimStart(s);
        assert t == s[|s| - |t|..];
        assert c !in t;
        CollapseAddsOnlyPlus(t, c);
      } else {
        assert c !in s[1..];
        CollapseAddsOnlyPlus(s[1..], c);
      }
    }
  }

  /** The characters of `s` other than white space and `+`, in order. */
  function Text(s: string): string {
    if |s| == 0 then []
    else if IsJsWhitespace(s[0]) || s[0] == '+' then Text(s[1..])
    else [s[0]] + Text(s[1..])
  }

  lemma {:induction false} TextSkipsWhitespace(s: string, k: nat)
    requires k <= |s| && AllWhitespace(s[..k])
    ensures Text(s) == Text(s[k..])
  {
    if k > 0 {
      assert s[1..][..k - 1] == s[1..k];
      assert s[1..][k - 1..] == s[k..];
      TextSkipsWhitespace(s[1..], k - 1);
    }
  }

  /** Collapsing keeps every character that is neither white space nor `+`, in order. */
  lemma {:induction false} CollapseKeepsText(s: string)
    ensures Text(CollapseWhitespace(s)) == Text(s)
    decreases |s|
  {
    if |s| > 0 {
      if IsJsWhitespace(s[0]) {
        var t := TrimStart(s);
        CollapseKeepsText(t);
        TextSkipsWhitespace(s, |s| - |t|);
        assert ("+" + CollapseWhitespace(t))[1..] == CollapseWhitespace(t);
      } else {
        CollapseKeepsText(s[1..]);
        assert ([s[0]] + CollapseWhitespace(s[1..]))[1..] == CollapseWhitespace(s[1..]);
      }
    }
  }

  /** A string without white space is left as it is. */
  lemma {:induction false} CollapseIdentity(s: string)
    requires NoWhitespace(s)
    ensures CollapseWhitespace(s) == s
  {
    if |s| > 0 {
      CollapseIdentity(s[1..]);
    }
  }

  /** Collapsing twice is collapsing once. */
  lemma CollapseIdempotent(s: string)
    ensures CollapseWhitespace(CollapseWhitespace(s)) == CollapseWhitespace(s)
  {
    CollapseRemovesWhitespace(s);
    CollapseIdentity(CollapseWhitespace(s));
  }

  /** White-space runs never straddle a point after a non-space character. */
  lemma {:induction false} CollapseAppend(a: string, b: string)
    requires a == [] || !IsJsWhitespace(a[|a| - 1])
    ensures CollapseWhitespace(a + b) == CollapseWhitespace(a) + CollapseWhitespace(b)
    decreases |a|
  {
    if |a| == 0 {
      assert a + b == b;
    } else if IsJsWhitespace(a[0]) {
      var t := TrimStart(a);
      TrimStartKeepsLast(a);
      calc {
        CollapseWhitespace(a + b);
        { CollapseStep(a + b); }
        "+" + CollapseWhitespace(TrimStart(a + b));
        { TrimStartAppend(a, b); }
        "+" + CollapseWhitespace(t + b);
        { CollapseAppend(t, b); }
        "+" + (CollapseWhitespace(t) + CollapseWhitespace(b));
        { AppendAssoc("+", CollapseWhitespace(t), CollapseWhitespace(b)); }
        ("+" + CollapseWhitespace(t)) + CollapseWhitespace(b);
        { CollapseStep(a); }
        CollapseWhitespace(a) + CollapseWhitespace(b);
      }
    } else {
      calc {
        CollapseWhitespace(a + b);
        { CollapseStep(a + b); assert (a + b)[1..] == a[1..] + b; }
        [a[0]] + CollapseWhitespace(a[1..] + b);
        { CollapseAppend(a[1..], b); }
        [a[0]] + (CollapseWhitespace(a[1..]) + CollapseWhitespace(b));
        { AppendAssoc([a[0]], CollapseWhitespace(a[1..]), CollapseWhitespace(b)); }
        ([a[0]] + CollapseWhitespace(a[1..])) + CollapseWhitespace(b);
        { CollapseStep(a); }
        CollapseWhitespace(a) + CollapseWhitespace(b);
      }
    }
  }

  /** Leading white space never reaches a last character that is not white space. */
  lemma TrimStartKeepsLast(a: string)
    requires |a| > 0 && !IsJsWhitespace(a[|a| - 1])
    ensures !AllWhitespace(a)
    ensures |TrimStart(a)| > 0 && TrimStart(a)[|TrimStart(a)| - 1] == a[|a| - 1]
  {
    var t := TrimStart(a);
    var k := |a| - |t|;
    forall j | 0 <= j < k
      ensures IsJsWhitespace(a[j])
    {
      assert a[..k][j] == a[j];
    }
    assert |t| > 0;
    assert t[|t| - 1] == a[k..][|t| - 1];
  }

  /** One step of `CollapseWhitespace`, at the first character. */
  lemma CollapseStep(s: string)
    requires |s| > 0
    ensures CollapseWhitespace(s) == if IsJsWhitespace(s[0]) then "+" + CollapseWhitespace(TrimStart(s))
                                     else [s[0]] + CollapseWhitespace(s[1..])
  {
  }

  /** The search query `"<company> Vagas"` with its white-space runs collapsed. */
  function FormattedQuery(companyName: string): string {
    CollapseWhitespace(companyName + " " + "Vagas")
  }

  /**
   * The query is the company name, with trailing white space absorbed and every
   * inner run collapsed, followed by `+Vagas`.
   */
  lemma FormattedQueryShape(companyName: string)
    ensures FormattedQuery(companyName) == CollapseWhitespace(TrimEnd(companyName)) + "+" + "Vagas"
    ensures NoWhitespace(FormattedQuery(companyName))
    ensures Text(FormattedQuery(companyName)) == Text(companyName) + "Vagas"
  {
    var word := "Vagas";
    VagasIsPlain();
    CollapseRemovesWhitespace(companyName + " " + word);
    CollapseBeforeWord(companyName, word);
    TextBeforeWord(companyName, word);
  }

  lemma VagasIsPlain()
    ensures NoWhitespace("Vagas") && '+' !in "Vagas"
  {
  }

  /** `name + " " + word` collapses to the trimmed name, a `+`, and the word. */
  lemma CollapseBeforeWord(name: string, word: string)
    requires |word| > 0 && NoWhitespace(word) && '+' !in word
    ensures CollapseWhitespace(name + " " + word) == CollapseWhitespace(TrimEnd(name)) + "+" + word
  {
    var head := TrimEnd(name);
    var gap := TrailingGap(name);
    var tail := gap + word;
    var c := CollapseWhitespace(head);
    calc {
      CollapseWhitespace(name + " " + word);
      { Reassociate(name + " ", head, gap, word); }
      CollapseWhitespace(head + tail);
      { CollapseAppend(head, tail); }
      c + CollapseWhitespace(tail);
      { WordAfterGap(gap, word); }
      c + ("+" + word);
      { Reassociate(c + "+", c, "+", word); }
      c + "+" + word;
    }
  }

  /** The trailing white space of `name` and one more space. */
  lemma TrailingGap(name: string) returns (gap: string)
    ensures |gap| > 0 && AllWhitespace(gap)
    ensures name + " " == TrimEnd(name) + gap
  {
    var head := TrimEnd(name);
    var w := name[|head|..];
    gap := w + " ";
    assert name == head + w by {
      assert head == name[..|head|];
    }
    assert AllWhitespace(w);
    assert IsJsWhitespace(' ');
    forall i | 0 <= i < |gap| ensures IsJsWhitespace(gap[i]) {
      if i < |w| { assert gap[i] == w[i]; } else { assert gap[i] == ' '; }
    }
  }

  lemma TextBeforeWord(name: string, word: string)
    requires NoWhitespace(word) && '+' !in word
    ensures Text(CollapseWhitespace(name + " " + word)) == Text(name) + word
  {
    var tail := " " + word;
    assert name + " " + word == name + tail;
    CollapseKeepsText(name + tail);
    TextAppend(name, tail);
    assert tail[1..] == word;
    assert Text(tail) == Text(word);
    TextPlain(word);
  }

  /** A string without white space or `+` is all text. */
  lemma {:induction false} TextPlain(s: string)
    requires NoWhitespace(s) && '+' !in s
    ensures Text(s) == s
  {
    if |s| > 0 {
      TextPlain(s[1..]);
    }
  }

  /** White space before a word without white space becomes a single `+`. */
  lemma WordAfterGap(gap: string, word: string)
    requires |gap| > 0 && AllWhitespace(gap)
    requires |word| > 0 && NoWhitespace(word)
    ensures CollapseWhitespace(gap + word) == "+" + word
  {
    var run := gap + word;
    assert IsJsWhitespace(run[0]);
    TrimStartOfRun(gap, word);
    CollapseIdentity(word);
  }

  lemma {:induction false} TextAppend(a: string, b: string)
    ensures Text(a + b) == Text(a) + Text(b)
  {
    if |a| > 0 {
      assert (a + b)[1..] == a[1..] + b;
      TextAppend(a[1..], b);
    } else {
      assert a + b == b;
    }
  }

  const GoogleSearchBase := "https://www.google.com/search"

  /** The fixed parameters after `oq`. */
  const GoogleTrackingParams :=
    "gs_lcrp=EgZjaHJvbWUyBggAEEUYOTIKCAEQ" + "ABiABBiiBDIHCAIQABjvBTIKCAMQABiABBii"
    + "BDIKCAQQABiABBiiBDIHCAUQABjvBdIBCDM1" + "MjdqMGo3qAIIsAIB8QUaGziIae2Haw"
    + "&sourceid=chrome&ie=UTF-8&jbr=sep:0&udm=8"

  /** The link template: the formatted query is placed after `q=` and after `&oq=`. */
  function GoogleSearchUrl(query: string): string {
    SearchLink(query, GoogleTrackingParams)
  }

  function SearchLink(query: string, params: string): string {
    GoogleSearchBase + "?" + Pair("q", query) + "&" + Pair("oq", query) + "&" + params
  }

  lemma LinkLetters()
    ensures '?' !in GoogleSearchBase && '&' !in "q" && '&' !in "oq"
    ensures '#' !in GoogleSearchBase && '#' !in "q" && '#' !in "oq"
    ensures ("q" + "=")[0] == 'q' && ("oq" + "=")[0] == 'o'
  {
  }

  /** The fixed parameters carry no fragment mark (checked piece by piece, each literal kept short). */
  lemma TrackingHasNoHash()
    ensures '#' !in GoogleTrackingParams
  {
    var a, b, c := "gs_lcrp=EgZjaHJvbWUyBggAEEUYOTIKCAEQ", "ABiABBiiBDIHCAIQABjvBTIKCAMQABiABBii",
      "BDIKCAQQABiABBiiBDIHCAUQABjvBdIBCDM1";
    var d, e := "MjdqMGo3qAIIsAIB8QUaGziIae2Haw", "&sourceid=chrome&ie=UTF-8&jbr=sep:0&udm=8";
    assert GoogleTrackingParams == a + b + c + d + e;
    TrackingPiece1();
    TrackingPiece2();
    TrackingPiece3();
    TrackingPiece4();
    TrackingPiece5();
    NoHashIn(a, b);
    NoHashIn(a + b, c);
    NoHashIn(a + b + c, d);
    NoHashIn(a + b + c + d, e);
  }

  lemma NoHashIn(a: string, b: string)
    requires '#' !in a && '#' !in b
    ensures '#' !in a + b
  {
  }

  lemma TrackingPiece1()
    ensures '#' !in "gs_lcrp=EgZjaHJvbWUyBggAEEUYOTIKCAEQ"
  {
  }

  lemma TrackingPiece2()
    ensures '#' !in "ABiABBiiBDIHCAIQABjvBTIKCAMQABiABBii"
  {
  }

  lemma TrackingPiece3()
    ensures '#' !in "BDIKCAQQABiABBiiBDIHCAUQABjvBdIBCDM1"
  {
  }

  lemma TrackingPiece4()
    ensures '#' !in "MjdqMGo3qAIIsAIB8QUaGziIae2Haw"
  {
  }

  lemma TrackingPiece5()
    ensures '#' !in "&sourceid=chrome&ie=UTF-8&jbr=sep:0&udm=8"
  {
  }

  /** Regrouping a left-nested concatenation of six parts. */
  lemma Regroup6(x: string, a: string, b: string, c: string, d: string, e: string)
    ensures x + a + b + c + d + e == x + ((a + b) + ((c + d) + e))
  {
  }

  lemma SearchLinkQuery(query: string, params: string)
    ensures QueryOf(SearchLink(query, params))
      == BeforeFragment((Pair("q", query) + "&") + ((Pair("oq", query) + "&") + params))
  {
    var rest := (Pair("q", query) + "&") + ((Pair("oq", query) + "&") + params);
    Regroup6(GoogleSearchBase, "?", Pair("q", query), "&", Pair("oq", query), "&" + params);
    calc {
      SearchLink(query, params);
      { Regroup6(GoogleSearchBase + "?", Pair("q", query), "&", Pair("oq", query), "&", params); }
      (GoogleSearchBase + "?") + rest;
    }
    LinkLetters();
    QueryAfterBase(GoogleSearchBase, rest);
  }

  /** A query without `&` or `#` can be read back from both `q` and `oq`. */
  lemma GoogleUrlCarriesQuery(query: string)
    requires '&' !in query && '#' !in query
    ensures QueryParam(GoogleSearchUrl(query), "q") == Some(query)
    ensures QueryParam(GoogleSearchUrl(query), "oq") == Some(query)
  {
    TrackingHasNoHash();
    SearchLinkCarriesQuery(query, GoogleTrackingParams);
  }

  lemma SearchLinkCarriesQuery(query: string, params: string)
    requires '&' !in query && '#' !in query && '#' !in params
    ensures QueryParam(SearchLink(query, params), "q") == Some(query)
    ensures QueryParam(SearchLink(query, params), "oq") == Some(query)
  {
    var q := Pair("q", query);
    var oq := Pair("oq", query);
    var tail := Split(params, '&');
    LinkLetters();
    NoAmpersandPair("q", query);
    NoAmpersandPair("oq", query);
    assert '#' !in (q + "&") + ((oq + "&") + params);
    calc {
      Split(QueryOf(SearchLink(query, params)), '&');
      { SearchLinkQuery(query, params); }
      Split((q + "&") + ((oq + "&") + params), '&');
      { SplitAround(q, (oq + "&") + params, '&'); }
      Split(q, '&') + Split((oq + "&") + params, '&');
      { SplitAround(oq, params, '&'); }
      Split(q, '&') + (Split(oq, '&') + tail);
      { SplitWithoutSeparator(q, '&'); SplitWithoutSeparator(oq, '&'); }
      [q] + ([oq] + tail);
    }
    LookupFirst("q", query, [oq] + tail);
    LookupSkip("oq", q, [oq] + tail);
    LookupFirst("oq", query, tail);
  }

  /**
   * The query is not percent-encoded: an `&` in it, with no `#` before it, ends
   * the `q` parameter early, so the link searches only for the text before the
   * first `&`.
   */
  lemma AmpersandCutsQuery(query: string)
    requires '&' in query && '#' !in query[..IndexOf(query, '&')]
    ensures QueryParam(GoogleSearchUrl(query), "q") == Some(query[..IndexOf(query, '&')])
  {
    SearchLinkCutsQuery(query, GoogleTrackingParams);
  }

  lemma SearchLinkCutsQuery(query: string, params: string)
    requires '&' in query && '#' !in query[..IndexOf(query, '&')]
    ensures QueryParam(SearchLink(query, params), "q") == Some(query[..IndexOf(query, '&')])
  {
    var k := IndexOf(query, '&');
    var a, b := query[..k], query[k + 1..];
    var rest := (Pair("oq", query) + "&") + params;
    var after := b + "&" + rest;
    CutAt(query, '&', k);
    LinkLetters();
    NoAmpersandPair("q", a);
    assert '#' !in Pair("q", a) + "&";
    calc {
      QueryOf(SearchLink(query, params));
      { SearchLinkQuery(query, params); }
      BeforeFragment((Pair("q", query) + "&") + rest);
      BeforeFragment((Pair("q", a + "&" + b) + "&") + rest);
      { Regroup("q" + "=", a, b, rest); }
      BeforeFragment((Pair("q", a) + "&") + after);
      { BeforeFragmentAppend(Pair("q", a) + "&", after); }
      Pair("q", a) + "&" + BeforeFragment(after);
    }
    FirstPair("q", a, BeforeFragment(after));
  }

  /**
   * The query is not percent-encoded: a `#` in it, with no `&` before it, starts
   * the link's fragment, so `q` holds only the text before the `#` and `oq` is
   * not sent at all.
   */
  lemma HashCutsQuery(query: string)
    requires '#' in query && '&' !in query[..IndexOf(query, '#')]
    ensures QueryParam(GoogleSearchUrl(query), "q") == Some(query[..IndexOf(query, '#')])
    ensures QueryParam(GoogleSearchUrl(query), "oq") == None
  {
    SearchLinkHashCut(query, GoogleTrackingParams);
  }

  lemma SearchLinkHashCut(query: string, params: string)
    requires '#' in query && '&' !in query[..IndexOf(query, '#')]
    ensures QueryParam(SearchLink(query, params), "q") == Some(query[..IndexOf(query, '#')])
    ensures QueryParam(SearchLink(query, params), "oq") == None
  {
    var k := IndexOf(query, '#');
    var a, b := query[..k], query[k + 1..];
    var rest := (Pair("oq", query) + "&") + params;
    var q := Pair("q", a);
    CutAt(query, '#', k);
    LinkLetters();
    NoAmpersandPair("q", a);
    assert '#' !in q;
    calc {
      QueryOf(SearchLink(query, params));
      { SearchLinkQuery(query, params); }
      BeforeFragment((Pair("q", query) + "&") + rest);
      BeforeFragment((Pair("q", a + "#" + b) + "&") + rest);
      { HashRegroup("q" + "=", a, b, rest); }
      BeforeFragment(q + ("#" + b + "&" + rest));
      { BeforeFragmentAppend(q, "#" + b + "&" + rest); }
      q + BeforeFragment("#" + b + "&" + rest);
      { assert BeforeFragment("#" + b + "&" + rest) == []; }
      q;
    }
    SplitWithoutSeparator(q, '&');
    assert Split(q, '&') == [q] + [];
    LookupFirst("q", a, []);
    assert !StartsWith(q, "oq" + "=") by { assert q[0] == 'q'; }
    LookupSkip("oq", q, []);
  }

  lemma HashRegroup(p: string, a: string, b: string, r: string)
    ensures (p + (a + "#" + b)) + "&" + r == (p + a) + ("#" + b + "&" + r)
  {
  }

  lemma NoAmpersandPair(key: string, value: string)
    requires '&' !in key && '&' !in value
    ensures '&' !in Pair(key, value)
  {
  }

  /** The first pair of `key=value&rest` names `key`, when `value` has no `&`. */
  lemma FirstPair(key: string, value: string, rest: string)
    requires '&' !in Pair(key, value)
    ensures Lookup(Split(Pair(key, value) + "&" + rest, '&'), key) == Some(value)
  {
    var head := Pair(key, value);
    SplitAround(head, rest, '&');
    SplitWithoutSeparator(head, '&');
    LookupFirst(key, value, Split(rest, '&'));
  }

  lemma Reassociate(whole: string, a: string, b: string, c: string)
    requires whole == a + b
    ensures whole + c == a + (b + c)
  {
  }

  /** The first `c` of `s` cuts it into the text before and the text after. */
  lemma CutAt(s: string, c: char, k: int)
    requires k == IndexOf(s, c) && c in s
    ensures 0 <= k < |s| && c !in s[..k]
    ensures s == s[..k] + [c] + s[k + 1..]
  {
    assert s[k] == c;
    Around(s, k);
  }

  lemma Around(s: string, k: nat)
    requires k < |s|
    ensures s == s[..k] + [s[k]] + s[k + 1..]
  {
  }

  lemma Regroup(p: string, a: string, b: string, r: string)
    ensures (p + (a + "&" + b)) + "&" + r == (p + a) + "&" + (b + "&" + r)
  {
  }

  /** `scrapeGoogleJobs`: exactly one highlighted list entry linking to the search. */
  function ScrapeGoogleJobs(companyName: string, today: string): (jobs: seq<JobEntry>)
    ensures |jobs| == 1
    ensures jobs[0].id == "google-main" && jobs[0].source == Google
    ensures jobs[0].title == "Lista de Vagas Gerada para " + companyName
    ensures jobs[0].company == companyName && jobs[0].date == today && jobs[0].location == "Brasil"
    ensures jobs[0].isJobList && jobs[0].highlight
    ensures '&' !in companyName && '#' !in companyName ==>
      QueryParam(jobs[0].url, "q") == Some(FormattedQuery(companyName))
      && QueryParam(jobs[0].url, "oq") == Some(FormattedQuery(companyName))
  {
    if '&' !in companyName && '#' !in companyName then
      var text := companyName + " " + "Vagas";
      assert '&' !in text && '#' !in text;
      CollapseAddsOnlyPlus(text, '&');
      CollapseAddsOnlyPlus(text, '#');
      GoogleUrlCarriesQuery(FormattedQuery(companyName));
      [GoogleEntry(companyName, today)]
    else
      [GoogleEntry(companyName, today)]
  }

  function GoogleEntry(companyName: string, today: string): JobEntry {
    JobEntry(
      id := "google-main",
      title := "Lista de Vagas Gerada para " + companyName,
      company := companyName,
      location := "Brasil",
      date := today,
      source := Google,
      url := GoogleSearchUrl(FormattedQuery(companyName)),
      isJobList := true,
      highlight := true)
  }

  /**
   * The query is not percent-encoded: for a name without white space that
   * contains an `&` with no `#` before it, the link's `q` is the part of the
   * name before the first `&`.
   */
  lemma AmpersandCutsName(name: string, today: string)
    requires NoWhitespace(name) && '&' in name && '#' !in name[..IndexOf(name, '&')]
    ensures QueryParam(ScrapeGoogleJobs(name, today)[0].url, "q") == Some(name[..IndexOf(name, '&')])
  {
    var query := FormattedQuery(name);
    PlainNameQuery(name);
    CutOfPlainQuery(name, query, '&');
    AmpersandCutsQuery(query);
    GoogleLinkOf(name, today);
  }

  /**
   * The query is not percent-encoded: for a name without white space that
   * contains a `#` with no `&` before it, the link's `q` is the part of the name
   * before the first `#`, and no `oq` is sent.
   */
  lemma HashCutsName(name: string, today: string)
    requires NoWhitespace(name) && '#' in name && '&' !in name[..IndexOf(name, '#')]
    ensures QueryParam(ScrapeGoogleJobs(name, today)[0].url, "q") == Some(name[..IndexOf(name, '#')])
    ensures QueryParam(ScrapeGoogleJobs(name, today)[0].url, "oq") == None
  {
    var query := FormattedQuery(name);
    PlainNameQuery(name);
    CutOfPlainQuery(name, query, '#');
    HashCutsQuery(query);
    GoogleLinkOf(name, today);
  }

  /** The query of a plain name is cut at the same place as the name. */
  lemma CutOfPlainQuery(name: string, query: string, c: char)
    requires query == name + "+Vagas" && c in name
    ensures c in query && query[..IndexOf(query, c)] == name[..IndexOf(name, c)]
  {
    IndexOfAppend(name, "+Vagas", c);
    var k := IndexOf(name, c);
    assert query[..k] == name[..k];
  }

  /** The entry links to the search for the formatted query. */
  lemma GoogleLinkOf(name: string, today: string)
    ensures ScrapeGoogleJobs(name, today)[0].url == GoogleSearchUrl(FormattedQuery(name))
  {
  }

  /** `At&t` yields a link whose `q` is only `At`. */
  lemma AmpersandExample(today: string)
    ensures QueryParam(ScrapeGoogleJobs("At&t", today)[0].url, "q") == Some("At")
  {
    var name := "At&t";
    assert name[2] == '&' && name[..2] == "At";
    IndexOfFirst(name, '&', 2);
    AmpersandCutsName(name, today);
  }

  /** `C#` yields a link whose `q` is only `C` and which carries no `oq`. */
  lemma HashExample(today: string)
    ensures QueryParam(ScrapeGoogleJobs("C#", today)[0].url, "q") == Some("C")
    ensures QueryParam(ScrapeGoogleJobs("C#", today)[0].url, "oq") == None
  {
    var name := "C#";
    assert name[1] == '#' && name[..1] == "C";
    IndexOfFirst(name, '#', 1);
    HashCutsName(name, today);
  }

  /** A name without white space is kept as it is, followed by `+Vagas`. */
  lemma PlainNameQuery(name: string)
    requires NoWhitespace(name)
    ensures FormattedQuery(name) == name + "+Vagas"
  {
    calc {
      FormattedQuery(name);
      { FormattedQueryShape(name); }
      CollapseWhitespace(TrimEnd(name)) + "+" + "Vagas";
      { assert name == [] || !IsJsWhitespace(name[|name| - 1]); }
      CollapseWhitespace(name) + "+" + "Vagas";
      { CollapseIdentity(name); }
      name + "+" + "Vagas";
      { AppendAssoc(name, "+", "Vagas"); }
      name + ("+" + "Vagas");
    }
  }
}
