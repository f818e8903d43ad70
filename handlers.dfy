/**
 * What the two user-facing handlers decide: `handle_search` for a text
 * message in the group and `handle_callbacks` for a button press. The
 * message texts, the edits and the deletes they schedule are transport and
 * are not modelled; a reply here records what the user is shown.
 */
module Handlers {
  import opened Wrappers
  import opened Text
  import opened Search
  import opened Pagination
  import opened Callbacks
  import opened Keyboards

  /** The outcome of a button press. */
  datatype Reply =
    | BannedAlert
      /** A results message: `total` matches for `query` under `filters`, `shown` being this page of them. */
    | ResultsView(query: string, filters: Filters, total: nat, shown: seq<FileRecord>, keyboard: Keyboard)
    | FilterMenu(kind: string, keyboard: Keyboard)
      /** Nothing but `callback.answer()`. */
    | Answered
      /** The `except` branch: an "Error occurred!" alert. */
    | ErrorAlert

  /** Page `page` of the search for `query` under `filters`, with its results keyboard. */
  function ResultsPage(catalog: seq<FileRecord>, query: string, filters: Filters, page: int): Reply
  {
    var files := SearchFiles(catalog, query, filters);
    ResultsView(query, filters, |files|, PageSlice(files, page), ResultKeyboard(page, TotalPages(|files|), query))
  }

  /** `handle_callbacks`: the ban check, then the branch the data selects. */
  function HandleCallback(catalog: seq<FileRecord>, data: string, banned: bool): Reply
  {
    if banned then BannedAlert
    else match ParseCallback(data)
      case FuzzyPick(query) => ResultsPage(catalog, query, map[], 1)
      case PageTurn(query, page) => ResultsPage(catalog, query, map[], page)
      case OpenFilter(kind, query, page) => FilterMenu(kind, FilterKeyboard(kind, query, page))
      case SetFilter(kind, value, query, page) => ResultsPage(catalog, query, map[kind := Str(value)], 1)
      case Unhandled => Answered
      case Malformed => ErrorAlert
  }

  /**
   * On a results page that is not the last, the Next button is there and
   * shows the following page, which is not empty.
   */
  lemma NextShowsNextPage(catalog: seq<FileRecord>, query: string, page: int)
    requires '_' !in query && page >= 1
    requires page < TotalPages(|SearchFiles(catalog, query, map[])|)
    ensures var total := TotalPages(|SearchFiles(catalog, query, map[])|);
      var next := Button("Next", PageData(query, page + 1));
      && next in ResultKeyboard(page, total, query)[2]
      && HandleCallback(catalog, next.data, false) == ResultsPage(catalog, query, map[], page + 1)
      && ResultsPage(catalog, query, map[], page + 1).shown != []
  {
    var files := SearchFiles(catalog, query, map[]);
    PageRoundTrip(query, page + 1);
    PageNonEmptyIffCounted(files, page + 1);
  }

  /**
   * Every option of the year and season menus finds nothing: the value
   * arrives as text and the stored year or season is an integer.
   */
  lemma YearAndSeasonOptionsFindNothing(catalog: seq<FileRecord>, kind: string, query: string, page: int, k: nat)
    requires kind == "year" || kind == "season"
    requires '_' !in query && k < |Choices(kind)|
    ensures var r := HandleCallback(catalog, OptionButtons(kind, query, page)[k].data, false);
      r.ResultsView? && r.total == 0 && r.shown == []
  {
    var value := Choices(kind)[k].value;
    ChoiceValueHasNoSep(kind, k);
    SetFilterRoundTrip(kind, value, query, page);
    assert OptionButtons(kind, query, page)[k].data == SetFilterData(kind, value, query, page);
    ChoiceValueNonEmpty(kind, k);
    TextYearOrSeasonMatchesNothing(catalog, query, kind, value);
  }

  lemma ChoiceValueNonEmpty(kind: string, k: nat)
    requires k < |Choices(kind)|
    ensures kind == "year" || kind == "season" ==> Choices(kind)[k].value != []
  {
  }

  /**
   * The quality option captioned "4K" filters on "2160P", so a file whose
   * name says "4k", stored with quality "4K", is never in its results.
   */
  lemma FourKOptionMissesFourKFiles(catalog: seq<FileRecord>, query: string, page: int)
    requires '_' !in query
    ensures var b := OptionButtons("quality", query, page)[3];
      var r := HandleCallback(catalog, b.data, false);
      && b.text == "4K"
      && r == ResultsPage(catalog, query, map["quality" := Str("2160P")], 1)
      && forall x: FileRecord :: x.quality == Some("4K") ==> x !in SearchFiles(catalog, query, r.filters)
  {
    FilterKeyboardDecodes("quality", query, page);
    forall x: FileRecord | x.quality == Some("4K") ensures x !in SearchFiles(catalog, query, map["quality" := Str("2160P")]) {
      FourKNotFoundBy2160P(x, query);
    }
  }

  /**
   * After a filter is chosen the results keyboard forgets it: its Next
   * button shows page 2 of the unfiltered search.
   */
  lemma NextAfterFilterDropsFilter(catalog: seq<FileRecord>, kind: string, value: string, query: string, page: int)
    requires '_' !in kind && '_' !in value && '_' !in query
    requires |SearchFiles(catalog, query, map[kind := Str(value)])| > PAGE_SIZE
    ensures var r := HandleCallback(catalog, SetFilterData(kind, value, query, page), false);
      && r.ResultsView? && r.filters == map[kind := Str(value)]
      && Button("Next", PageData(query, 2)) in r.keyboard[2]
      && HandleCallback(catalog, PageData(query, 2), false) == ResultsPage(catalog, query, map[], 2)
  {
    SetFilterRoundTrip(kind, value, query, page);
    PageRoundTrip(query, 2);
    var files := SearchFiles(catalog, query, map[kind := Str(value)]);
    assert TotalPages(|files|) > 1;
  }

  // ---------------------------------------------------------------------------
  // Group search

  /** The outcome of a text message. */
  datatype SearchReply =
      /** Another chat, or a banned sender: no reply. */
    | Ignored
    | NoResults(query: string)
      /** No match, but fuzzy suggestions, one button each. */
    | DidYouMean(query: string, keyboard: Keyboard)
      /** The first page of results, sent to the user's private chat. */
    | ResultsSent(query: string, total: nat, shown: seq<FileRecord>, keyboard: Keyboard)

  /** How many suggestions get a button: `suggestions[:5]`. */
  const SUGGESTIONS_SHOWN: nat := 5

  /** How much of a suggestion its caption shows: `suggestion[:50]`. */
  const CAPTION_LENGTH: nat := 50

  /** One row per suggestion, each carrying `fuzzy_search_<suggestion>`. */
  function SuggestionKeyboard(suggestions: seq<string>): (kb: Keyboard)
    ensures |kb| == Min(|suggestions|, SUGGESTIONS_SHOWN)
    ensures forall k :: 0 <= k < |kb| ==>
      kb[k] == [Button(PySlice(suggestions[k], 0, CAPTION_LENGTH) + "...", FuzzyData(suggestions[k]))]
  {
    var top := PySlice(suggestions, 0, SUGGESTIONS_SHOWN);
    seq(|top|, k requires 0 <= k < |top| => [Button(PySlice(top[k], 0, CAPTION_LENGTH) + "...", FuzzyData(top[k]))])
  }

  /**
   * The keyboard has one single-button row for each of the first five
   * suggestions, and pressing the button of suggestion `k` asks for a fuzzy
   * pick of exactly that suggestion, unless the suggestion itself contains
   * "fuzzy_search_" (which `replace` would also strip).
   */
  lemma SuggestionButtonsDecode(suggestions: seq<string>)
    ensures var kb := SuggestionKeyboard(suggestions);
      && |kb| == Min(|suggestions|, SUGGESTIONS_SHOWN)
      && forall k :: 0 <= k < |kb| ==>
        && |kb[k]| == 1
        && (!Contains(suggestions[k], FUZZY_PREFIX) ==> ParseCallback(kb[k][0].data) == FuzzyPick(suggestions[k]))
  {
    var kb: Keyboard := SuggestionKeyboard(suggestions);
    forall k | 0 <= k < |kb| && !Contains(suggestions[k], FUZZY_PREFIX)
      ensures ParseCallback(kb[k][0].data) == FuzzyPick(suggestions[k])
    {
      FuzzyRoundTrip(suggestions[k]);
    }
  }

  /** `message.text.strip()` */
  function Strip(s: string): string
  {
    TrimRight(TrimLeft(s))
  }

  /** `handle_search`: exact search first, the fuzzy fallback with `limit=5` only when it finds nothing. */
  function HandleSearch(
    catalog: seq<FileRecord>, chatId: int, groupId: int, banned: bool, text: string,
    scorer: (string, string) -> real): SearchReply
  {
    if chatId != groupId || banned then Ignored
    else
      var query := Strip(text);
      var files := SearchFiles(catalog, query, map[]);
      if files == [] then
        var suggestions := FuzzySearch(catalog, query, scorer, SUGGESTIONS_SHOWN);
        if suggestions == [] then NoResults(query) else DidYouMean(query, SuggestionKeyboard(suggestions))
      else
        ResultsSent(query, |files|, PySlice(files, 0, PAGE_SIZE), ResultKeyboard(1, TotalPages(|files|), query))
  }

  /**
   * When the search finds something, the user gets page 1 of it: the same
   * records and keyboard as turning to page 1, with no Prev button and a
   * Next button exactly when there are more than ten matches.
   */
  lemma SearchSendsFirstPage(
    catalog: seq<FileRecord>, chatId: int, groupId: int, text: string, scorer: (string, string) -> real)
    requires chatId == groupId
    requires '_' !in Strip(text)
    requires SearchFiles(catalog, Strip(text), map[]) != []
    ensures var r := HandleSearch(catalog, chatId, groupId, false, text, scorer);
      var files := SearchFiles(catalog, Strip(text), map[]);
      && r.ResultsSent?
      && ResultsPage(catalog, Strip(text), map[], 1) == ResultsView(r.query, map[], r.total, r.shown, r.keyboard)
      && (forall b :: b in r.keyboard[2] ==> ParseCallback(b.data) != PageTurn(r.query, 0))
      && ((exists b :: b in r.keyboard[2] && ParseCallback(b.data) == PageTurn(r.query, 2)) <==> |files| > PAGE_SIZE)
  {
    var files := SearchFiles(catalog, Strip(text), map[]);
    NavRowDecodes(1, TotalPages(|files|), Strip(text));
    assert TotalPages(|files|) > 1 <==> |files| > PAGE_SIZE;
  }

  /**
   * Pressing a suggestion searches for it again and finds at least the
   * record it was taken from (its name contains itself), provided the
   * suggestion does not contain "fuzzy_search_". This rests on the search
   * being a literal substring match: `search_files` hands the text to
   * `$regex`, so there a name such as `Movie (2019) [720p].mkv` does not
   * match itself (the search finds nothing), and a name with an unbalanced
   * `(` makes the query raise (the user gets the error alert).
   */
  lemma SuggestionFindsItsRecord(
    catalog: seq<FileRecord>, chatId: int, groupId: int, text: string, scorer: (string, string) -> real, k: nat)
    requires chatId == groupId
    requires HandleSearch(catalog, chatId, groupId, false, text, scorer).DidYouMean?
    requires k < |HandleSearch(catalog, chatId, groupId, false, text, scorer).keyboard|
    requires !Contains(FuzzySearch(catalog, Strip(text), scorer, SUGGESTIONS_SHOWN)[k], FUZZY_PREFIX)
    ensures var s := FuzzySearch(catalog, Strip(text), scorer, SUGGESTIONS_SHOWN)[k];
      var b := HandleSearch(catalog, chatId, groupId, false, text, scorer).keyboard[k][0];
      var r := HandleCallback(catalog, b.data, false);
      && r == ResultsPage(catalog, s, map[], 1)
      && r.total >= 1
  {
    var suggestions := FuzzySearch(catalog, Strip(text), scorer, SUGGESTIONS_SHOWN);
    var s := suggestions[k];
    FuzzySearchSpec(catalog, Strip(text), scorer, SUGGESTIONS_SHOWN);
    FuzzyRoundTrip(s);
    var i :| 0 <= i < |catalog| && i < FUZZY_POOL && catalog[i].fileName == s;
    assert OccursAt(LowerStr(s), LowerStr(s), 0);
    assert Matches(catalog[i], s, map[]);
    assert catalog[i] in SearchFiles(catalog, s, map[]);
  }
}
