/**
 * Reading a parameter back out of a generated link as a browser does: the
 * fragment starts at the first `#` and is not sent; the query is the text after
 * the first `?` before it; its pairs are separated by `&`; and the value of
 * `key` is the rest of the first pair that starts with `key=`. Values are
 * returned raw, not decoded.
 */
module UrlQuery {
  import opened Options
  import opened Strings

  /** The link without its fragment: everything before the first `#`. */
  function BeforeFragment(url: string): (r: string)
    ensures '#' !in r && StartsWith(url, r)
    ensures '#' in url ==> url[|r|] == '#'
    ensures '#' !in url ==> r == url
  {
    var j := IndexOf(url, '#');
    if j == -1 then url else url[..j]
  }

  function QueryOf(url: string): string {
    var body := BeforeFragment(url);
    var i := IndexOf(body, '?');
    if i == -1 then "" else body[i + 1..]
  }

  /** A fragment-free start is kept whole, and the fragment is looked for after it. */
  lemma BeforeFragmentAppend(p: string, x: string)
    requires '#' !in p
    ensures BeforeFragment(p + x) == p + BeforeFragment(x)
  {
    if '#' in x {
      var j := IndexOf(x, '#');
      assert (p + x)[..|p| + j] == p + x[..j];
      IndexOfFirst(p + x, '#', |p| + j);
    } else {
      assert '#' !in p + x;
    }
  }

  function Lookup(pairs: seq<string>, key: string): (r: Option<string>)
    ensures r.Some? ==> exists k :: 0 <= k < |pairs| && pairs[k] == key + "=" + r.value
  {
    if |pairs| == 0 then None
    else if StartsWith(pairs[0], key + "=") then
      assert pairs[0] == key + "=" + pairs[0][|key| + 1..];
      Some(pairs[0][|key| + 1..])
    else
      var r := Lookup(pairs[1..], key);
      if r.Some? then
        var k :| 0 <= k < |pairs| - 1 && pairs[1..][k] == key + "=" + r.value;
        assert pairs[k + 1] == key + "=" + r.value;
        r
      else r
  }

  /** The raw value of parameter `key` in `url`, if any pair names it. */
  function QueryParam(url: string, key: string): Option<string> {
    Lookup(Split(QueryOf(url), '&'), key)
  }

  /** The query of `base + "?" + rest` when `base` has no `?` and no `#`: `rest` up to its fragment. */
  lemma QueryAfterBase(base: string, rest: string)
    requires '?' !in base && '#' !in base
    ensures QueryOf(base + "?" + rest) == BeforeFragment(rest)
  {
    var url := base + "?" + rest;
    var body := BeforeFragment(url);
    assert url == (base + "?") + rest;
    BeforeFragmentAppend(base + "?", rest);
    assert body == (base + "?") + BeforeFragment(rest);
    assert body[..|base|] == base;
    assert body[|base|] == '?';
    IndexOfFirst(body, '?', |base|);
    assert body[|base| + 1..] == BeforeFragment(rest);
  }

  /** The first pair decides when it names the key. */
  lemma LookupFirst(key: string, value: string, rest: seq<string>)
    ensures Lookup([key + "=" + value] + rest, key) == Some(value)
  {
    var p := key + "=" + value;
    assert p[..|key| + 1] == key + "=";
    assert p[|key| + 1..] == value;
  }

  /** A first pair that does not name the key is skipped. */
  lemma LookupSkip(key: string, first: string, rest: seq<string>)
    requires !StartsWith(first, key + "=")
    ensures Lookup([first] + rest, key) == Lookup(rest, key)
  {
    assert ([first] + rest)[1..] == rest;
  }

  /** One `key=value` pair. */
  function Pair(key: string, value: string): string {
    key + "=" + value
  }

  /** A link: `base`, a `?`, and the pairs joined by `&`. */
  function Link(base: string, pairs: seq<string>): string {
    base + "?" + Join(pairs, '&')
  }

  /**
   * A link built from `&`-free pairs under a `?`-free base gives back each
   * parameter as the first pair naming it.
   */
  lemma LinkParams(base: string, pairs: seq<string>, key: string)
    requires '?' !in base && '#' !in base && |pairs| >= 1
    requires forall k :: 0 <= k < |pairs| ==> '&' !in pairs[k] && '#' !in pairs[k]
    ensures QueryParam(Link(base, pairs), key) == Lookup(pairs, key)
  {
    QueryAfterBase(base, Join(pairs, '&'));
    JoinAvoids(pairs, '&', '#');
    SplitJoin(pairs, '&');
  }

  /** The first pair of a link is read back as its value. */
  lemma LinkFirstParam(base: string, key: string, value: string, rest: seq<string>)
    requires '?' !in base && '#' !in base
    requires '&' !in key && '&' !in value && '#' !in key && '#' !in value
    requires forall k :: 0 <= k < |rest| ==> '&' !in rest[k] && '#' !in rest[k]
    ensures QueryParam(Link(base, [Pair(key, value)] + rest), key) == Some(value)
  {
    var pairs := [Pair(key, value)] + rest;
    assert '&' !in Pair(key, value) && '#' !in Pair(key, value);
    assert forall k :: 1 <= k < |pairs| ==> pairs[k] == rest[k - 1];
    LinkParams(base, pairs, key);
    LookupFirst(key, value, rest);
  }
}
