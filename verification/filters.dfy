/**
 * The source filter of the result list (`handleFilter` and `resetFilters`):
 * a row of buttons, each naming a `data-filter` value, of which the clicked one
 * becomes active, and the cards, each shown or hidden by its `data-source`.
 */
module Filters {

  /** The filter value that shows every card. */
  const ShowAll := "all"

  /** A filter button: its `data-filter` value and whether it carries the `active` class. */
  datatype FilterButton = FilterButton(filter: string, active: bool)

  /** What a click leaves behind: the buttons, and for each card whether it is displayed. */
  datatype FilterResult = FilterResult(buttons: seq<FilterButton>, shown: seq<bool>)

  /** A card is displayed under `filterValue` when that is `all` or the card's source. */
  predicate Visible(filterValue: string, dataSource: string) {
    filterValue == ShowAll || dataSource == filterValue
  }

  /**
   * `handleFilter` for a click on button `clicked`: every button loses `active`,
   * the clicked one gains it, and each card is displayed or hidden by the
   * clicked button's filter value.
   */
  function HandleFilter(buttons: seq<FilterButton>, clicked: nat, cardSources: seq<string>): (r: FilterResult)
    requires clicked < |buttons|
    ensures |r.buttons| == |buttons|
    ensures forall i :: 0 <= i < |buttons| ==>
      r.buttons[i].filter == buttons[i].filter && (r.buttons[i].active <==> i == clicked)
    ensures |r.shown| == |cardSources|
    ensures forall i :: 0 <= i < |cardSources| ==>
      (r.shown[i] <==> buttons[clicked].filter == ShowAll || cardSources[i] == buttons[clicked].filter)
  {
    var value := buttons[clicked].filter;
    FilterResult(
      seq(|buttons|, i requires 0 <= i < |buttons| => FilterButton(buttons[i].filter, i == clicked)),
      seq(|cardSources|, i requires 0 <= i < |cardSources| => Visible(value, cardSources[i])))
  }

  /** `resetFilters`: exactly the buttons whose filter value is `all` are active. */
  function ResetFilters(buttons: seq<FilterButton>): (r: seq<FilterButton>)
    ensures |r| == |buttons|
    ensures forall i :: 0 <= i < |buttons| ==>
      r[i].filter == buttons[i].filter && (r[i].active <==> buttons[i].filter == ShowAll)
  {
    seq(|buttons|, i requires 0 <= i < |buttons| => FilterButton(buttons[i].filter, buttons[i].filter == ShowAll))
  }

  /** The number of occurrences of `x` in `xs`. */
  function Occurrences(xs: seq<string>, x: string): (n: nat)
    ensures n <= |xs|
  {
    if |xs| == 0 then 0 else (if xs[0] == x then 1 else 0) + Occurrences(xs[1..], x)
  }

  lemma {:induction false} OccurrencesAppend(a: seq<string>, b: seq<string>, x: string)
    ensures Occurrences(a + b, x) == Occurrences(a, x) + Occurrences(b, x)
  {
    if |a| == 0 {
      assert a + b == b;
    } else {
      assert (a + b)[1..] == a[1..] + b;
      OccurrencesAppend(a[1..], b, x);
    }
  }

  /** A sequence made of `x` only has all its elements counted; one without `x` has none. */
  lemma {:induction false} OccurrencesUniform(xs: seq<string>, x: string)
    ensures (forall i :: 0 <= i < |xs| ==> xs[i] == x) ==> Occurrences(xs, x) == |xs|
    ensures (forall i :: 0 <= i < |xs| ==> xs[i] != x) ==> Occurrences(xs, x) == 0
  {
    if |xs| > 0 {
      OccurrencesUniform(xs[1..], x);
    }
  }

  /** The number of displayed cards. */
  function ShownCount(shown: seq<bool>): (n: nat)
    ensures n <= |shown|
  {
    if |shown| == 0 then 0 else (if shown[0] then 1 else 0) + ShownCount(shown[1..])
  }

  /**
   * The number of cards a click displays: all of them under `all`, otherwise
   * as many as carry the clicked filter value as their source.
   */
  lemma {:induction false} ShownCountOfFilter(buttons: seq<FilterButton>, clicked: nat, cardSources: seq<string>)
    requires clicked < |buttons|
    ensures var value := buttons[clicked].filter;
      ShownCount(HandleFilter(buttons, clicked, cardSources).shown)
        == if value == ShowAll then |cardSources| else Occurrences(cardSources, value)
    decreases |cardSources|
  {
    if |cardSources| > 0 {
      var shown := HandleFilter(buttons, clicked, cardSources).shown;
      ShownCountOfFilter(buttons, clicked, cardSources[1..]);
      assert shown[1..] == HandleFilter(buttons, clicked, cardSources[1..]).shown;
    }
  }

  /** Resetting twice is resetting once. */
  lemma ResetIdempotent(buttons: seq<FilterButton>)
    ensures ResetFilters(ResetFilters(buttons)) == ResetFilters(buttons)
  {
  }

  /** A reset forgets every earlier click. */
  lemma ResetForgetsClick(buttons: seq<FilterButton>, clicked: nat, cardSources: seq<string>)
    requires clicked < |buttons|
    ensures ResetFilters(HandleFilter(buttons, clicked, cardSources).buttons) == ResetFilters(buttons)
  {
  }

  /** With a single `all` button, clicking it leaves the buttons as a reset does. */
  lemma ClickAllIsReset(buttons: seq<FilterButton>, clicked: nat, cardSources: seq<string>)
    requires clicked < |buttons| && buttons[clicked].filter == ShowAll
    requires forall i :: 0 <= i < |buttons| && i != clicked ==> buttons[i].filter != ShowAll
    ensures HandleFilter(buttons, clicked, cardSources).buttons == ResetFilters(buttons)
  {
  }
}
