/**
 * Deriving a display name for a company from the URL the user typed
 * (`extractCompanyName`): strip the scheme and one `www.`, keep the first DNS
 * label, turn hyphens into spaces and capitalise every space-separated word.
 */
module CompanyName {
  import opened Strings

  /** `/^(?:https?:\/\/)/i`: one leading `http://` or `https://`, in any letter case. */
  predicate HasScheme(s: string) {
    StartsWithIgnoreCase(s, "https://") || StartsWithIgnoreCase(s, "http://")
  }

  function StripScheme(s: string): (r: string)
    ensures HasScheme(s) ==> |r| < |s|
    ensures !HasScheme(s) ==> r == s
  {
    if StartsWithIgnoreCase(s, "https://") then s[8..]
    else if StartsWithIgnoreCase(s, "http://") then s[7..]
    else s
  }

  /** `/^www\./i`: one leading `www.`, in any letter case. */
  function StripWww(s: string): string {
    if StartsWithIgnoreCase(s, "www.") then s[4..] else s
  }

  /** The part of `s` before its first `.`, or all of `s` when it has none. */
  function BeforeFirstDot(s: string): (r: string)
    ensures '.' !in r
    ensures StartsWith(s, r)
    ensures |r| < |s| ==> s[|r|] == '.'
  {
    var i := IndexOf(s, '.');
    if i != -1 then s[..i] else s
  }

  /** The leftmost host label of a URL: the text the company name is built from. */
  function Label(url: string): string {
    BeforeFirstDot(StripWww(StripScheme(url)))
  }

  /** `replace(/[\.-]/g, ' ')`. */
  function DotsAndHyphensToSpaces(s: string): (r: string)
    ensures |r| == |s|
    ensures forall i :: 0 <= i < |s| ==> r[i] == (if s[i] == '.' || s[i] == '-' then ' ' else s[i])
  {
    seq(|s|, i requires 0 <= i < |s| => if s[i] == '.' || s[i] == '-' then ' ' else s[i])
  }

  /** First character upper case, the rest lower case; the empty word stays empty. */
  function Capitalize(w: string): string {
    if |w| > 0 then [ToUpper(w[0])] + LowerString(w[1..]) else w
  }

  function CapitalizeAll(words: seq<string>): (r: seq<string>)
    ensures |r| == |words|
  {
    seq(|words|, k requires 0 <= k < |words| => Capitalize(words[k]))
  }

  /** `split(' ').map(capitalize).join(' ')`. */
  function CapitalizeWords(s: string): string {
    Join(CapitalizeAll(Split(s, ' ')), ' ')
  }

  /** `extractCompanyName`. */
  function ExtractCompanyName(url: string): (name: string)
    ensures '.' !in name && '-' !in name
    ensures NameOfLabel(Label(url), name)
  {
    var spaced := DotsAndHyphensToSpaces(Label(url));
    CapitalizeWordsIsTitleCase(spaced);
    TitleCaseOfSpaced(Label(url), CapitalizeWords(spaced));
    CapitalizeWords(spaced)
  }

  /**
   * Character-level description of the name built from a host label: same length,
   * a space wherever the label has a hyphen, every word's first character upper
   * case and its other characters lower case.
   */
  predicate NameOfLabel(dnsLabel: string, name: string) {
    && |name| == |dnsLabel|
    && forall i :: 0 <= i < |dnsLabel| ==>
         name[i] == (if dnsLabel[i] == '-' then ' '
                     else if StartsWord(dnsLabel, i) then ToUpper(dnsLabel[i])
                     else ToLower(dnsLabel[i]))
  }

  lemma TitleCaseOfSpaced(s: string, r: string)
    requires '.' !in s
    requires TitleCased(DotsAndHyphensToSpaces(s), r)
    ensures NameOfLabel(s, r)
    ensures '.' !in r && '-' !in r
  {
    var spaced := DotsAndHyphensToSpaces(s);
    forall i | 0 <= i < |s|
      ensures r[i] == (if s[i] == '-' then ' ' else if StartsWord(s, i) then ToUpper(s[i]) else ToLower(s[i]))
      ensures r[i] != '.' && r[i] != '-'
    {
      assert StartsWord(spaced, i) <==> StartsWord(s, i);
      CaseMapFacts(s[i]);
      if s[i] == '-' {
        assert spaced[i] == ' ';
      } else {
        assert spaced[i] == s[i];
      }
    }
  }

  /** Position `i` of `s` opens a word: it is the first character or follows a separator. */
  predicate StartsWord(s: string, i: int)
    requires 0 <= i < |s|
  {
    i == 0 || s[i - 1] in {' ', '-'}
  }

  /** `r` is `s` with each word's first letter upper-cased and its other letters lower-cased. */
  predicate TitleCased(s: string, r: string) {
    |r| == |s| &&
    forall i :: 0 <= i < |s| ==> r[i] == (if StartsWord(s, i) then ToUpper(s[i]) else ToLower(s[i]))
  }

  /**
   * Reference definition of word capitalisation, one character at a time;
   * `atStart` says whether the first character opens a word.
   */
  function TitleFrom(s: string, atStart: bool): (r: string)
    ensures |r| == |s|
    ensures forall i :: 0 <= i < |s| ==>
      r[i] == (if (if i == 0 then atStart else s[i - 1] == ' ') then ToUpper(s[i]) else ToLower(s[i]))
  {
    if |s| == 0 then []
    else [if atStart then ToUpper(s[0]) else ToLower(s[0])] + TitleFrom(s[1..], s[0] == ' ')
  }

  /**
   * The words re-joined after capitalising all but the first, which is
   * capitalised when `atStart` and lower-cased otherwise.
   */
  function CapitalizeFrom(words: seq<string>, atStart: bool): string
    requires |words| > 0
  {
    Join([if atStart then Capitalize(words[0]) else LowerString(words[0])] + CapitalizeAll(words[1..]), ' ')
  }

  lemma {:induction false} CapitalizeWordsFrom(s: string, atStart: bool)
    ensures CapitalizeFrom(Split(s, ' '), atStart) == TitleFrom(s, atStart)
  {
    if |s| > 0 {
      var rest := Split(s[1..], ' ');
      var first := if atStart then ToUpper(s[0]) else ToLower(s[0]);
      CapitalizeWordsFrom(s[1..], s[0] == ' ');
      if s[0] == ' ' {
        calc {
          CapitalizeFrom(Split(s, ' '), atStart);
          CapitalizeFrom([""] + rest, atStart);
          { CapitalizeAfterSpace(rest, atStart); }
          [' '] + CapitalizeFrom(rest, true);
          [first] + TitleFrom(s[1..], true);
        }
      } else {
        calc {
          CapitalizeFrom(Split(s, ' '), atStart);
          CapitalizeFrom([[s[0]] + rest[0]] + rest[1..], atStart);
          { CapitalizeInWord(s[0], rest, atStart); }
          [first] + CapitalizeFrom(rest, false);
          [first] + TitleFrom(s[1..], false);
        }
      }
    }
  }

  /** A space ends an empty first word: it is kept, and the next word is capitalised. */
  lemma CapitalizeAfterSpace(rest: seq<string>, atStart: bool)
    requires |rest| > 0
    ensures CapitalizeFrom([""] + rest, atStart) == [' '] + CapitalizeFrom(rest, true)
  {
    var words := [""] + rest;
    var head := if atStart then Capitalize(words[0]) else LowerString(words[0]);
    var tail := CapitalizeAll(rest);
    assert words[0] == "" && words[1..] == rest;
    assert head == "";
    calc {
      CapitalizeFrom(words, atStart);
      Join([head] + CapitalizeAll(words[1..]), ' ');
      Join([""] + tail, ' ');
      { JoinCons("", tail, ' '); }
      "" + [' '] + Join(tail, ' ');
      { assert "" + [' '] == [' ']; }
      [' '] + Join(tail, ' ');
      { CapitalizeAllCons(rest); }
      [' '] + CapitalizeFrom(rest, true);
    }
  }

  /** Capitalising a list of words is capitalising its first and then the others. */
  lemma CapitalizeAllCons(words: seq<string>)
    requires |words| > 0
    ensures CapitalizeAll(words) == [Capitalize(words[0])] + CapitalizeAll(words[1..])
  {
  }

  /** Any other character belongs to the first word and takes that word's case. */
  lemma CapitalizeInWord(c: char, rest: seq<string>, atStart: bool)
    requires |rest| > 0
    ensures CapitalizeFrom([[c] + rest[0]] + rest[1..], atStart)
      == [if atStart then ToUpper(c) else ToLower(c)] + CapitalizeFrom(rest, false)
  {
    var words := [[c] + rest[0]] + rest[1..];
    var first := if atStart then ToUpper(c) else ToLower(c);
    assert words[0] == [c] + rest[0] && words[1..] == rest[1..];
    assert words[0][1..] == rest[0];
    LowerStringCons(c, rest[0]);
    assert (if atStart then Capitalize(words[0]) else LowerString(words[0])) == [first] + LowerString(rest[0]);
    JoinConsHead(first, LowerString(rest[0]), CapitalizeAll(rest[1..]), ' ');
  }

  /** Splitting on spaces, capitalising and re-joining title-cases the string in place. */
  lemma CapitalizeWordsIsTitleCase(s: string)
    requires '-' !in s
    ensures TitleCased(s, CapitalizeWords(s))
  {
    var words := Split(s, ' ');
    CapitalizeAllCons(words);
    assert CapitalizeWords(s) == CapitalizeFrom(words, true);
    CapitalizeWordsFrom(s, true);
    TitleFromIsTitleCase(s, TitleFrom(s, true));
  }

  /** Without hyphens, only spaces separate words, which is what `TitleFrom` follows. */
  lemma TitleFromIsTitleCase(s: string, r: string)
    requires '-' !in s && |r| == |s|
    requires forall i :: 0 <= i < |s| ==>
      r[i] == (if (if i == 0 then true else s[i - 1] == ' ') then ToUpper(s[i]) else ToLower(s[i]))
    ensures TitleCased(s, r)
  {
    forall i | 0 <= i < |s|
      ensures r[i] == (if StartsWord(s, i) then ToUpper(s[i]) else ToLower(s[i]))
    {
      if i == 0 {
        assert r[0] == ToUpper(s[0]);
      } else {
        assert s[i - 1] in s;
        assert StartsWord(s, i) <==> s[i - 1] == ' ';
        assert r[i] == (if s[i - 1] == ' ' then ToUpper(s[i]) else ToLower(s[i]));
      }
    }
  }

  /** A name that extraction leaves as it is. */
  predicate IsCleanName(s: string) {
    && !HasScheme(s)
    && '.' !in s && '-' !in s
    && TitleCased(s, s)
  }

  lemma NoWwwWithoutDot(s: string)
    requires '.' !in s
    ensures !StartsWithIgnoreCase(s, "www.")
  {
    if |s| >= 4 {
      assert s[3] in s;
      assert ToLower(s[3]) != '.';
    }
  }

  /** A clean name is a fixed point of extraction: `"Acme"` stays `"Acme"`. */
  lemma CleanNameFixedPoint(s: string)
    requires IsCleanName(s)
    ensures ExtractCompanyName(s) == s
  {
    NoWwwWithoutDot(s);
    assert Label(s) == s;
    var r := ExtractCompanyName(s);
    forall i | 0 <= i < |s|
      ensures r[i] == s[i]
    {
      CaseMapFacts(s[i]);
    }
  }

  /**
   * Extraction is idempotent unless its result still starts with a scheme,
   * which only a doubled scheme such as `http://http://x` can cause.
   */
  lemma ExtractIdempotent(url: string)
    requires !HasScheme(ExtractCompanyName(url))
    ensures ExtractCompanyName(ExtractCompanyName(url)) == ExtractCompanyName(url)
  {
    var n := ExtractCompanyName(url);
    var dnsLabel := Label(url);
    forall i | 0 <= i < |n|
      ensures n[i] == (if StartsWord(n, i) then ToUpper(n[i]) else ToLower(n[i]))
    {
      CaseMapFacts(dnsLabel[i]);
      if i > 0 {
        CaseMapFacts(dnsLabel[i - 1]);
        assert StartsWord(n, i) <==> StartsWord(dnsLabel, i);
      }
    }
    assert IsCleanName(n);
    CleanNameFixedPoint(n);
  }

  /** The name is determined by the label. */
  lemma NameOfLabelUnique(dnsLabel: string, a: string, b: string)
    requires NameOfLabel(dnsLabel, a) && NameOfLabel(dnsLabel, b)
    ensures a == b
  {
  }

  /** `https://` in any letter case is stripped. */
  lemma StripHttps(scheme: string, rest: string)
    requires |scheme| == 8 && StartsWithIgnoreCase(scheme, "https://")
    ensures StripScheme(scheme + rest) == rest
  {
    var s := scheme + rest;
    assert forall i :: 0 <= i < 8 ==> s[i] == scheme[i];
    assert s[8..] == rest;
  }

  /** `http://` in any letter case is stripped. */
  lemma StripHttp(scheme: string, rest: string)
    requires |scheme| == 7 && StartsWithIgnoreCase(scheme, "http://")
    ensures StripScheme(scheme + rest) == rest
  {
    var s := scheme + rest;
    assert forall i :: 0 <= i < 7 ==> s[i] == scheme[i];
    assert ToLower(s[4]) == ToLower("http://"[4]) == ':';
    assert ToLower("https://"[4]) == 's';
    assert s[7..] == rest;
  }

  /** One leading `www.` in any letter case is stripped. */
  lemma StripLeadingWww(www: string, rest: string)
    requires |www| == 4 && StartsWithIgnoreCase(www, "www.")
    ensures StripWww(www + rest) == rest
  {
    var s := www + rest;
    assert forall i :: 0 <= i < 4 ==> s[i] == www[i];
    assert s[4..] == rest;
  }

  lemma BeforeDotOfConcat(a: string, b: string)
    requires '.' !in a && |b| > 0 && b[0] == '.'
    ensures BeforeFirstDot(a + b) == a
  {
    assert (a + b)[..|a|] == a;
    IndexOfFirst(a + b, '.', |a|);
  }

  /** A prefix test fails on the first character. */
  lemma NotStartingWith(s: string, prefix: string)
    requires |s| > 0 && |prefix| > 0 && ToLower(s[0]) != ToLower(prefix[0])
    ensures !StartsWithIgnoreCase(s, prefix)
  {
  }

  /** A host with no scheme and no `www.` keeps its first label. */
  lemma LabelOfBareHost(name: string, rest: string)
    requires !HasScheme(name + rest) && !StartsWithIgnoreCase(name + rest, "www.")
    requires '.' !in name && |rest| > 0 && rest[0] == '.'
    ensures Label(name + rest) == name
  {
    BeforeDotOfConcat(name, rest);
  }

  /** `https://www.`, in any letter case, in front of a host is dropped before the first label is taken. */
  lemma LabelAfterHttpsWww(scheme: string, www: string, name: string, rest: string)
    requires |scheme| == 8 && StartsWithIgnoreCase(scheme, "https://")
    requires |www| == 4 && StartsWithIgnoreCase(www, "www.")
    requires '.' !in name && |rest| > 0 && rest[0] == '.'
    ensures Label(scheme + (www + (name + rest))) == name
  {
    StripHttps(scheme, www + (name + rest));
    StripLeadingWww(www, name + rest);
    BeforeDotOfConcat(name, rest);
  }

  /** After an `http://` in any case, a dot-free host is the label. */
  lemma LabelAfterHttp(scheme: string, host: string)
    requires |scheme| == 7 && StartsWithIgnoreCase(scheme, "http://")
    requires '.' !in host
    ensures Label(scheme + host) == host
  {
    StripHttp(scheme, host);
    NoWwwWithoutDot(host);
  }

  /** The empty input gives the empty name, not the `"Unknown Company"` fallback. */
  lemma EmptyUrl()
    ensures ExtractCompanyName("") == ""
  {
  }

  lemma AcmeIsFixedPoint()
    ensures ExtractCompanyName("Acme") == "Acme"
  {
    assert TitleCased("Acme", "Acme");
    assert !HasScheme("Acme");
    CleanNameFixedPoint("Acme");
  }

  lemma VivoExample()
    ensures ExtractCompanyName("https://www.vivo.com.br") == "Vivo"
  {
    VivoLabel();
    VivoName();
    NameOfLabelUnique("vivo", "Vivo", ExtractCompanyName("https://www.vivo.com.br"));
  }

  lemma VivoLabel()
    ensures Label("https://www.vivo.com.br") == "vivo"
  {
    assert "https://www.vivo.com.br" == "https://" + ("www." + ("vivo" + ".com.br"));
    SchemeLiterals();
    LabelAfterHttpsWww("https://", "www.", "vivo", ".com.br");
  }

  lemma VivoName()
    ensures NameOfLabel("vivo", "Vivo")
  {
    var name := "Vivo";
    assert name[0] == ToUpper('v') && name[1] == ToLower('i');
    assert name[2] == ToLower('v') && name[3] == ToLower('o');
  }

  lemma HyphenatedExample()
    ensures ExtractCompanyName("acme-corp.com") == "Acme Corp"
  {
    var url := "acme-corp.com";
    assert url == "acme-corp" + ".com";
    AcmeCorpIsBare();
    LabelOfBareHost("acme-corp", ".com");
    AcmeCorpName();
    NameOfLabelUnique("acme-corp", "Acme Corp", ExtractCompanyName(url));
  }

  lemma SchemeAndWwwExample()
    ensures ExtractCompanyName("https://www.acme-corp.com.br") == "Acme Corp"
  {
    SchemeAndWwwLabel();
    AcmeCorpName();
    NameOfLabelUnique("acme-corp", "Acme Corp", ExtractCompanyName("https://www.acme-corp.com.br"));
  }

  lemma AcmeCorpIsBare()
    ensures !HasScheme("acme-corp" + ".com") && !StartsWithIgnoreCase("acme-corp" + ".com", "www.")
  {
    var s := "acme-corp" + ".com";
    assert s[0] == 'a';
    NotStartingWith(s, "https://");
    NotStartingWith(s, "http://");
    NotStartingWith(s, "www.");
  }

  lemma SchemeLiterals()
    ensures StartsWithIgnoreCase("https://", "https://") && StartsWithIgnoreCase("www.", "www.")
  {
  }

  lemma SchemeAndWwwLabel()
    ensures Label("https://www.acme-corp.com.br") == "acme-corp"
  {
    assert "https://www.acme-corp.com.br" == "https://" + ("www." + ("acme-corp" + ".com.br"));
    SchemeLiterals();
    LabelAfterHttpsWww("https://", "www.", "acme-corp", ".com.br");
  }

  lemma AcmeCorpName()
    ensures NameOfLabel("acme-corp", "Acme Corp")
  {
    var dnsLabel := "acme-corp";
    var name := "Acme Corp";
    forall i | 0 <= i < |dnsLabel|
      ensures name[i] == (if dnsLabel[i] == '-' then ' '
                          else if StartsWord(dnsLabel, i) then ToUpper(dnsLabel[i])
                          else ToLower(dnsLabel[i]))
    {
      if i == 0 || i == 5 {
        assert StartsWord(dnsLabel, i);
        assert name[i] == ToUpper(dnsLabel[i]);
      } else if i == 4 {
        assert name[i] == ' ';
      } else {
        assert !StartsWord(dnsLabel, i);
        assert dnsLabel[i] != '-';
        assert name[i] == ToLower(dnsLabel[i]);
      }
    }
  }

  /** `http://http://x` is the kind of input on which extraction is not idempotent. */
  lemma NotIdempotentOnDoubledScheme()
    ensures ExtractCompanyName("http://http://x") == "Http://x"
    ensures ExtractCompanyName("Http://x") == "X"
  {
    DoubledSchemeLabels();
    DoubledSchemeNames();
    NameOfLabelUnique("http://x", "Http://x", ExtractCompanyName("http://http://x"));
    NameOfLabelUnique("x", "X", ExtractCompanyName("Http://x"));
  }

  lemma DoubledSchemeLabels()
    ensures Label("http://http://x") == "http://x"
    ensures Label("Http://x") == "x"
  {
    DoubledSchemeOuterLabel();
    DoubledSchemeInnerLabel();
  }

  lemma DoubledSchemeOuterLabel()
    ensures Label("http://http://x") == "http://x"
  {
    var scheme := "http://";
    assert StartsWithIgnoreCase(scheme, "http://");
    assert "http://http://x" == scheme + "http://x";
    LabelAfterHttp(scheme, "http://x");
  }

  lemma DoubledSchemeInnerLabel()
    ensures Label("Http://x") == "x"
  {
    var scheme := "Http://";
    assert ToLower(scheme[0]) == 'h';
    assert forall i :: 1 <= i < 7 ==> scheme[i] == "http://"[i];
    assert "Http://x" == scheme + "x";
    LabelAfterHttp(scheme, "x");
  }

  lemma DoubledSchemeNames()
    ensures NameOfLabel("http://x", "Http://x")
    ensures NameOfLabel("x", "X")
  {
    var name := "Http://x";
    assert name[0] == ToUpper('h') && name[1] == ToLower('t') && name[2] == ToLower('t');
    assert name[3] == ToLower('p') && name[4] == ToLower(':') && name[5] == ToLower('/');
    assert name[6] == ToLower('/') && name[7] == ToLower('x');
    assert "X"[0] == ToUpper('x');
  }
}
