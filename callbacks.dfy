/**
 * The callback data the keyboards carry, and how `handle_callbacks` reads it
 * back. Fields are glued together with "_" and taken apart with
 * `data.split("_")` by position, or, for the fuzzy prefix, with
 * `data.replace("fuzzy_search_", "")`.
 */
module Callbacks {
  import opened Wrappers
  import opened Text

  const FUZZY_PREFIX := "fuzzy_search_"
  const PAGE_PREFIX := "page_"
  const FILTER_PREFIX := "filter_"
  const SETFILTER_PREFIX := "setfilter_"
  const BACK_PREFIX := "back_to_results_"
  /** The data of the page indicator button. */
  const CURRENT_PAGE := "current_page"

  lemma JoinCons(head: string, rest: seq<string>)
    requires |rest| >= 1
    ensures Join([head] + rest, '_') == head + "_" + Join(rest, '_')
  {
    assert ([head] + rest)[1..] == rest;
  }

  /** `f"page_{query}_{page}"` */
  function PageData(query: string, page: int): (d: string)
    ensures d == Join(["page", query, IntToString(page)], '_')
  {
    JoinCons("page", [query, IntToString(page)]);
    PAGE_PREFIX + query + "_" + IntToString(page)
  }

  /** `f"filter_{kind}_{query}_{page}"` */
  function FilterData(kind: string, query: string, page: int): (d: string)
    ensures d == Join(["filter", kind, query, IntToString(page)], '_')
  {
    JoinCons("filter", [kind, query, IntToString(page)]);
    JoinCons(kind, [query, IntToString(page)]);
    FILTER_PREFIX + kind + "_" + query + "_" + IntToString(page)
  }

  /** `f"setfilter_{kind}_{value}_{query}_{page}"` */
  function SetFilterData(kind: string, value: string, query: string, page: int): (d: string)
    ensures d == Join(["setfilter", kind, value, query, IntToString(page)], '_')
  {
    JoinCons("setfilter", [kind, value, query, IntToString(page)]);
    JoinCons(kind, [value, query, IntToString(page)]);
    JoinCons(value, [query, IntToString(page)]);
    SETFILTER_PREFIX + kind + "_" + value + "_" + query + "_" + IntToString(page)
  }

  /** `f"back_to_results_{query}_{page}"` */
  function BackData(query: string, page: int): (d: string)
    ensures StartsWith(d, BACK_PREFIX)
  {
    BACK_PREFIX + query + "_" + IntToString(page)
  }

  /** `f"fuzzy_search_{suggestion}"` */
  function FuzzyData(suggestion: string): (d: string)
    ensures StartsWith(d, FUZZY_PREFIX) && d[|FUZZY_PREFIX|..] == suggestion
  {
    FUZZY_PREFIX + suggestion
  }

  /** What `handle_callbacks` makes of a callback's data. */
  datatype Callback =
    | FuzzyPick(query: string)
    | PageTurn(query: string, page: int)
    | OpenFilter(kind: string, query: string, page: int)
    | SetFilter(kind: string, value: string, query: string, page: int)
      /** No branch applies: the query is only answered. */
    | Unhandled
      /** A missing field (IndexError) or a page that is not an integer (ValueError). */
    | Malformed

  /** The `if`/`elif` chain of `handle_callbacks`, in its order. */
  function ParseCallback(data: string): Callback
  {
    if StartsWith(data, FUZZY_PREFIX) then
      FuzzyPick(RemoveAll(data, FUZZY_PREFIX))
    else if StartsWith(data, PAGE_PREFIX) then
      var parts := Split(data, '_');
      if |parts| < 3 then Malformed
      else match ParseInt(parts[2])
        case None => Malformed
        case Some(page) => PageTurn(parts[1], page)
    else if StartsWith(data, FILTER_PREFIX) then
      var parts := Split(data, '_');
      if |parts| < 4 then Malformed
      else match ParseInt(parts[3])
        case None => Malformed
        case Some(page) => OpenFilter(parts[1], parts[2], page)
    else if StartsWith(data, SETFILTER_PREFIX) then
      var parts := Split(data, '_');
      if |parts| < 5 then Malformed
      else match ParseInt(parts[4])
        case None => Malformed
        case Some(page) => SetFilter(parts[1], parts[2], parts[3], page)
    else
      Unhandled
  }

  /** Two prefixes that differ in their first character never both start a string. */
  lemma DistinctPrefixes(data: string, p: string, q: string)
    requires |p| > 0 && |q| > 0 && p[0] != q[0]
    requires StartsWith(data, p)
    ensures !StartsWith(data, q)
  {
    assert data[0] == p[0];
  }

  lemma {:induction false} StartsWithJoin(head: string, parts: seq<string>)
    requires |parts| >= 2 && parts[0] == head
    ensures StartsWith(Join(parts, '_'), head + "_")
  {
    var d := Join(parts, '_');
    assert d == head + "_" + Join(parts[1..], '_');
    assert d[..|head| + 1] == head + "_";
  }

  /** A string that starts with "filter_" does not start with "fuzzy_search_". */
  lemma FilterNotFuzzy(data: string)
    requires StartsWith(data, FILTER_PREFIX)
    ensures !StartsWith(data, FUZZY_PREFIX)
  {
    assert data[1] == 'i';
  }

  /** The page button's data decodes to the query and page it was built from, when the query has no "_". */
  lemma PageRoundTrip(query: string, page: int)
    requires '_' !in query
    ensures ParseCallback(PageData(query, page)) == PageTurn(query, page)
  {
    var parts := ["page", query, IntToString(page)];
    var d := PageData(query, page);
    IntToStringHasNoSep(page, '_');
    SplitJoin(parts, '_');
    StartsWithJoin("page", parts);
    DistinctPrefixes(d, PAGE_PREFIX, FUZZY_PREFIX);
    ParseIntToString(page);
  }

  /** The filter button's data decodes to its kind, query and page, when neither has a "_". */
  lemma FilterRoundTrip(kind: string, query: string, page: int)
    requires '_' !in kind && '_' !in query
    ensures ParseCallback(FilterData(kind, query, page)) == OpenFilter(kind, query, page)
  {
    var parts := ["filter", kind, query, IntToString(page)];
    var d := FilterData(kind, query, page);
    IntToStringHasNoSep(page, '_');
    SplitJoin(parts, '_');
    StartsWithJoin("filter", parts);
    FilterNotFuzzy(d);
    DistinctPrefixes(d, FILTER_PREFIX, PAGE_PREFIX);
    ParseIntToString(page);
  }

  /** A filter option's data decodes to its kind, value, query and page, when none has a "_". */
  lemma SetFilterRoundTrip(kind: string, value: string, query: string, page: int)
    requires '_' !in kind && '_' !in value && '_' !in query
    ensures ParseCallback(SetFilterData(kind, value, query, page)) == SetFilter(kind, value, query, page)
  {
    var parts := ["setfilter", kind, value, query, IntToString(page)];
    var d := SetFilterData(kind, value, query, page);
    IntToStringHasNoSep(page, '_');
    SplitJoin(parts, '_');
    StartsWithJoin("setfilter", parts);
    DistinctPrefixes(d, SETFILTER_PREFIX, FUZZY_PREFIX);
    DistinctPrefixes(d, SETFILTER_PREFIX, PAGE_PREFIX);
    DistinctPrefixes(d, SETFILTER_PREFIX, FILTER_PREFIX);
    ParseIntToString(page);
  }

  /** The Back button has no branch of its own: its data is never acted on. */
  lemma BackIsUnhandled(query: string, page: int)
    ensures ParseCallback(BackData(query, page)) == Unhandled
  {
    var d := BackData(query, page);
    DistinctPrefixes(d, BACK_PREFIX, FUZZY_PREFIX);
    DistinctPrefixes(d, BACK_PREFIX, PAGE_PREFIX);
    DistinctPrefixes(d, BACK_PREFIX, FILTER_PREFIX);
    DistinctPrefixes(d, BACK_PREFIX, SETFILTER_PREFIX);
  }

  /** The page indicator's data is not acted on either. */
  lemma CurrentPageIsUnhandled()
    ensures ParseCallback(CURRENT_PAGE) == Unhandled
  {
    DistinctPrefixes(CURRENT_PAGE, CURRENT_PAGE, FUZZY_PREFIX);
    DistinctPrefixes(CURRENT_PAGE, CURRENT_PAGE, PAGE_PREFIX);
    DistinctPrefixes(CURRENT_PAGE, CURRENT_PAGE, FILTER_PREFIX);
    DistinctPrefixes(CURRENT_PAGE, CURRENT_PAGE, SETFILTER_PREFIX);
  }

  /** A suggestion comes back unchanged when it does not itself contain "fuzzy_search_". */
  lemma FuzzyRoundTrip(suggestion: string)
    requires !Contains(suggestion, FUZZY_PREFIX)
    ensures ParseCallback(FuzzyData(suggestion)) == FuzzyPick(suggestion)
  {
    var d := FuzzyData(suggestion);
    assert d[..|FUZZY_PREFIX|] == FUZZY_PREFIX;
    assert d[|FUZZY_PREFIX|..] == suggestion;
    RemoveAllAbsent(suggestion, FUZZY_PREFIX);
  }

  /**
   * `replace` removes every occurrence, not just the prefix: a suggestion
   * that starts with "fuzzy_search_" loses that part too.
   */
  lemma FuzzyPrefixRemovedTwice(suggestion: string)
    ensures ParseCallback(FuzzyData(FuzzyData(suggestion))) == ParseCallback(FuzzyData(suggestion))
  {
    var inner := FuzzyData(suggestion);
    var d := FuzzyData(inner);
    assert d[..|FUZZY_PREFIX|] == FUZZY_PREFIX;
    assert d[|FUZZY_PREFIX|..] == inner;
    assert inner[..|FUZZY_PREFIX|] == FUZZY_PREFIX;
  }

  /** A query with a "_" never comes back from a page button as itself. */
  lemma UnderscoreQueryNotRecovered(query: string, page: int)
    requires '_' in query
    ensures ParseCallback(PageData(query, page)) != PageTurn(query, page)
  {
    var d := PageData(query, page);
    var parts := ["page", query, IntToString(page)];
    StartsWithJoin("page", parts);
    DistinctPrefixes(d, PAGE_PREFIX, FUZZY_PREFIX);
    var split := Split(d, '_');
    if |split| >= 3 {
      assert '_' !in split[1];
    }
  }

  /**
   * The fields shift: for the query `a_b` the page button reads `a` as the
   * query and `b` as the page number, so the callback fails unless `b` is an
   * integer, and then turns to page `b` of a search for `a`.
   */
  lemma UnderscoreShiftsFields(a: string, b: string, page: int)
    requires '_' !in a && '_' !in b
    ensures ParseCallback(PageData(a + "_" + b, page)) ==
      match ParseInt(b)
      case None => Malformed
      case Some(n) => PageTurn(a, n)
  {
    var parts := ["page", a, b, IntToString(page)];
    var d := PageData(a + "_" + b, page);
    JoinCons("page", [a, b, IntToString(page)]);
    JoinCons(a, [b, IntToString(page)]);
    assert d == Join(parts, '_');
    IntToStringHasNoSep(page, '_');
    SplitJoin(parts, '_');
    StartsWithJoin("page", parts);
    DistinctPrefixes(d, PAGE_PREFIX, FUZZY_PREFIX);
  }
}
