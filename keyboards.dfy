/**
 * The inline keyboards: `create_result_keyboard` (filter buttons and the
 * Prev / indicator / Next row) and `create_filter_keyboard` (a grid of
 * filter values, then a Back row). Button labels are plain words here.
 */
module Keyboards {
  import opened Text
  import opened Callbacks
  import opened Pagination

  datatype Button = Button(text: string, data: string)

  type Keyboard = seq<seq<Button>>

  // ---------------------------------------------------------------------------
  // Results keyboard

  /** The two rows of filter buttons at the top of every results keyboard. */
  function FilterButtonRows(query: string, page: int): Keyboard
  {
    [ [Button("Quality", FilterData("quality", query, page)), Button("Year", FilterData("year", query, page))],
      [Button("Language", FilterData("language", query, page)), Button("Season", FilterData("season", query, page))] ]
  }

  /** Prev when `page > 1`, always the `page/total` indicator, Next when `page < total`. */
  function NavRow(page: int, total: int, query: string): seq<Button>
  {
    (if page > 1 then [Button("Prev", PageData(query, page - 1))] else [])
    + [Button(IntToString(page) + "/" + IntToString(total), CURRENT_PAGE)]
    + (if page < total then [Button("Next", PageData(query, page + 1))] else [])
  }

  /** `create_result_keyboard(page, total_pages, query=query)`. */
  function ResultKeyboard(page: int, total: int, query: string): Keyboard
  {
    FilterButtonRows(query, page) + [NavRow(page, total, query)]
  }

  /**
   * Read back through `handle_callbacks`, the navigation row offers the
   * previous page exactly when `page > 1` and the next page exactly when
   * `page < total`; every other button in it does nothing.
   */
  lemma NavRowDecodes(page: int, total: int, query: string)
    requires '_' !in query
    ensures var row := NavRow(page, total, query);
      && |row| == 1 + (if page > 1 then 1 else 0) + (if page < total then 1 else 0)
      && ((exists b :: b in row && ParseCallback(b.data) == PageTurn(query, page - 1)) <==> page > 1)
      && ((exists b :: b in row && ParseCallback(b.data) == PageTurn(query, page + 1)) <==> page < total)
      && (forall b :: b in row ==>
            ParseCallback(b.data) in {Unhandled, PageTurn(query, page - 1), PageTurn(query, page + 1)})
  {
    var row := NavRow(page, total, query);
    PageRoundTrip(query, page - 1);
    PageRoundTrip(query, page + 1);
    CurrentPageIsUnhandled();
    var indicator := Button(IntToString(page) + "/" + IntToString(total), CURRENT_PAGE);
    assert indicator in row;
    if page > 1 {
      assert Button("Prev", PageData(query, page - 1)) in row;
    }
    if page < total {
      assert Button("Next", PageData(query, page + 1)) in row;
    }
  }

  /** Every button of the two filter rows opens the menu of its own kind for this query and page. */
  lemma FilterButtonsDecode(query: string, page: int)
    requires '_' !in query
    ensures var rows := FilterButtonRows(query, page);
      && |rows| == 2 && |rows[0]| == 2 && |rows[1]| == 2
      && ParseCallback(rows[0][0].data) == OpenFilter("quality", query, page)
      && ParseCallback(rows[0][1].data) == OpenFilter("year", query, page)
      && ParseCallback(rows[1][0].data) == OpenFilter("language", query, page)
      && ParseCallback(rows[1][1].data) == OpenFilter("season", query, page)
  {
    FilterRoundTrip("quality", query, page);
    FilterRoundTrip("year", query, page);
    FilterRoundTrip("language", query, page);
    FilterRoundTrip("season", query, page);
  }

  // ---------------------------------------------------------------------------
  // Filter keyboard

  /** A filter option: the caption shown and the value sent. */
  datatype Choice = Choice(caption: string, value: string)

  /** Quality options; the one labelled "4K" sends "2160P". */
  const QUALITY_CHOICES: seq<Choice> :=
    [Choice("480p", "480P"), Choice("720p", "720P"), Choice("1080p", "1080P"), Choice("4K", "2160P")]

  const LANGUAGE_CHOICES: seq<string> := ["English", "Hindi", "Tamil", "Telugu", "Kannada", "Malayalam"]

  const CURRENT_YEAR: int := 2025

  /** How many years the year menu shows. */
  const YEARS_SHOWN: nat := 8

  /** `list(range(current_year, 1899, -1))`: 2025 down to 1900. */
  function Years(): (ys: seq<int>)
    ensures |ys| == CURRENT_YEAR - 1899
    ensures forall k :: 0 <= k < |ys| ==> ys[k] == CURRENT_YEAR - k
  {
    seq(CURRENT_YEAR - 1899, k requires 0 <= k => CURRENT_YEAR - k)
  }

  /** `list(range(1, 16))` */
  function Seasons(): (ss: seq<int>)
    ensures |ss| == 15
    ensures forall k :: 0 <= k < |ss| ==> ss[k] == k + 1
  {
    seq(15, k requires 0 <= k => k + 1)
  }

  /** The options of one menu, in the order they are laid out. */
  function Choices(kind: string): seq<Choice>
  {
    if kind == "quality" then QUALITY_CHOICES
    else if kind == "language" then
      seq(|LANGUAGE_CHOICES|, k requires 0 <= k < |LANGUAGE_CHOICES| => Choice(LANGUAGE_CHOICES[k], LANGUAGE_CHOICES[k]))
    else if kind == "year" then
      seq(YEARS_SHOWN, k requires 0 <= k < YEARS_SHOWN =>
        Choice(IntToString(Years()[k]), IntToString(Years()[k])))
    else if kind == "season" then
      seq(|Seasons()|, k requires 0 <= k < |Seasons()| =>
        Choice("S" + IntToString(Seasons()[k]), IntToString(Seasons()[k])))
    else []
  }

  /** Buttons per row of one menu; an unknown kind has no options, so its width never matters. */
  function Columns(kind: string): (c: nat)
    ensures c >= 1
  {
    if kind == "quality" || kind == "language" then 2
    else if kind == "year" then 4
    else if kind == "season" then 5
    else 1
  }

  function OptionButton(kind: string, c: Choice, query: string, page: int): Button
  {
    Button(c.caption, SetFilterData(kind, c.value, query, page))
  }

  function OptionButtons(kind: string, query: string, page: int): (bs: seq<Button>)
    ensures |bs| == |Choices(kind)|
    ensures forall k :: 0 <= k < |bs| ==> bs[k] == OptionButton(kind, Choices(kind)[k], query, page)
  {
    seq(|Choices(kind)|, k requires 0 <= k < |Choices(kind)| => OptionButton(kind, Choices(kind)[k], query, page))
  }

  /** Consecutive rows of `cols` buttons, the last one possibly shorter. */
  function Grid(xs: seq<Button>, cols: nat): Keyboard
    requires cols >= 1
    decreases |xs|
  {
    if xs == [] then []
    else if |xs| <= cols then [xs]
    else [xs[..cols]] + Grid(xs[cols..], cols)
  }

  function Flatten(rows: Keyboard): seq<Button>
  {
    if rows == [] then [] else rows[0] + Flatten(rows[1..])
  }

  /** The row lengths of a grid of `n` buttons in rows of `cols`. */
  function Chunks(n: nat, cols: nat): seq<nat>
    requires cols >= 1
    decreases n
  {
    if n == 0 then [] else if n <= cols then [n] else [cols] + Chunks(n - cols, cols)
  }

  function RowLengths(rows: Keyboard): (ls: seq<nat>)
    ensures |ls| == |rows|
    ensures forall r :: 0 <= r < |rows| ==> ls[r] == |rows[r]|
  {
    seq(|rows|, r requires 0 <= r < |rows| => |rows[r]|)
  }

  /** The Back row closing every filter menu. */
  function BackRow(query: string, page: int): seq<Button>
  {
    [Button("Back", BackData(query, page))]
  }

  /** `create_filter_keyboard(filter_type, query, page)`. */
  function FilterKeyboard(kind: string, query: string, page: int): Keyboard
  {
    Grid(OptionButtons(kind, query, page), Columns(kind)) + [BackRow(query, page)]
  }

  /** Reading a grid row by row gives back the buttons in order. */
  lemma {:induction false} GridFlatten(xs: seq<Button>, cols: nat)
    requires cols >= 1
    ensures Flatten(Grid(xs, cols)) == xs
    decreases |xs|
  {
    if |xs| > cols {
      GridFlatten(xs[cols..], cols);
      var g := Grid(xs, cols);
      assert g[1..] == Grid(xs[cols..], cols);
      assert xs == xs[..cols] + xs[cols..];
    } else if xs != [] {
      assert [xs][1..] == [];
    }
  }

  /** A grid is full rows of `cols` buttons with one shorter last row. */
  lemma {:induction false} GridShape(xs: seq<Button>, cols: nat)
    requires cols >= 1
    ensures RowLengths(Grid(xs, cols)) == Chunks(|xs|, cols)
    decreases |xs|
  {
    if |xs| > cols {
      GridShape(xs[cols..], cols);
      var g := Grid(xs, cols);
      assert RowLengths(g) == [cols] + RowLengths(Grid(xs[cols..], cols));
    }
  }

  /**
   * The menus' layout: quality 2 + 2, language 2 + 2 + 2, years 4 + 4,
   * seasons 5 + 5 + 5, each followed by the one-button Back row; any other
   * kind shows only the Back row.
   */
  lemma FilterKeyboardShape(query: string, page: int, other: string)
    requires other !in {"quality", "language", "year", "season"}
    ensures RowLengths(FilterKeyboard("quality", query, page)) == [2, 2, 1]
    ensures RowLengths(FilterKeyboard("language", query, page)) == [2, 2, 2, 1]
    ensures RowLengths(FilterKeyboard("year", query, page)) == [4, 4, 1]
    ensures RowLengths(FilterKeyboard("season", query, page)) == [5, 5, 5, 1]
    ensures RowLengths(FilterKeyboard(other, query, page)) == [1]
  {
    KindShape("quality", query, page);
    KindShape("language", query, page);
    KindShape("year", query, page);
    KindShape("season", query, page);
    KindShape(other, query, page);
    assert Chunks(4, 2) == [2, 2] by { assert Chunks(2, 2) == [2]; }
    assert Chunks(6, 2) == [2, 2, 2] by { assert Chunks(4, 2) == [2, 2] by { assert Chunks(2, 2) == [2]; } }
    assert Chunks(8, 4) == [4, 4] by { assert Chunks(4, 4) == [4]; }
    assert Chunks(15, 5) == [5, 5, 5] by { assert Chunks(10, 5) == [5, 5] by { assert Chunks(5, 5) == [5]; } }
  }

  /** A menu is its options' grid followed by the one-button Back row. */
  lemma KindShape(kind: string, query: string, page: int)
    ensures RowLengths(FilterKeyboard(kind, query, page)) == Chunks(|Choices(kind)|, Columns(kind)) + [1]
  {
    var g := Grid(OptionButtons(kind, query, page), Columns(kind));
    GridShape(OptionButtons(kind, query, page), Columns(kind));
    assert RowLengths(g + [BackRow(query, page)]) == RowLengths(g) + [1];
  }

  /** The year menu offers the eight years from 2025 down to 2018, label and value alike. */
  lemma YearChoices()
    ensures |Choices("year")| == 8
    ensures forall k :: 0 <= k < 8 ==>
      Choices("year")[k] == Choice(IntToString(2025 - k), IntToString(2025 - k))
  {
  }

  /**
   * Every option of a menu, read back through `handle_callbacks`, sets that
   * menu's filter to the option's value for the same query and page; the
   * Back button does nothing.
   */
  lemma FilterKeyboardDecodes(kind: string, query: string, page: int)
    requires '_' !in kind && '_' !in query
    ensures var kb := FilterKeyboard(kind, query, page);
      && Flatten(kb) == OptionButtons(kind, query, page) + BackRow(query, page)
      && (forall k :: 0 <= k < |Choices(kind)| ==>
            ParseCallback(OptionButtons(kind, query, page)[k].data)
              == SetFilter(kind, Choices(kind)[k].value, query, page))
      && ParseCallback(kb[|kb| - 1][0].data) == Unhandled
  {
    var xs := OptionButtons(kind, query, page);
    var g := Grid(xs, Columns(kind));
    GridFlatten(xs, Columns(kind));
    FlattenAppend(g, [BackRow(query, page)]);
    forall k | 0 <= k < |Choices(kind)|
      ensures ParseCallback(xs[k].data) == SetFilter(kind, Choices(kind)[k].value, query, page)
    {
      ChoiceValueHasNoSep(kind, k);
      SetFilterRoundTrip(kind, Choices(kind)[k].value, query, page);
    }
    BackIsUnhandled(query, page);
  }

  lemma {:induction false} FlattenAppend(a: Keyboard, b: Keyboard)
    ensures Flatten(a + b) == Flatten(a) + Flatten(b)
  {
    if a != [] {
      FlattenAppend(a[1..], b);
      assert (a + b)[1..] == a[1..] + b;
    } else {
      assert a + b == b;
    }
  }

  /** No option value contains the field separator. */
  lemma ChoiceValueHasNoSep(kind: string, k: nat)
    requires k < |Choices(kind)|
    ensures '_' !in Choices(kind)[k].value
  {
    if kind == "year" {
      IntToStringHasNoSep(Years()[k], '_');
    } else if kind == "season" {
      IntToStringHasNoSep(Seasons()[k], '_');
    } else if kind == "language" {
      assert Choices(kind)[k].value == LANGUAGE_CHOICES[k];
    } else {
      assert Choices(kind)[k] in QUALITY_CHOICES;
    }
  }

  /** `create_filter_keyboard`: the nested loops that fill the grid row by row, then the Back row. */
  method CreateFilterKeyboard(kind: string, query: string, page: int) returns (rows: Keyboard)
    ensures rows == FilterKeyboard(kind, query, page)
  {
    var choices := Choices(kind);
    var cols := Columns(kind);
    ghost var xs := OptionButtons(kind, query, page);
    var n := |choices|;
    rows := [];
    var i := 0;
    while i < n
      invariant 0 <= i
      invariant rows + Grid(xs[Min(i, n)..], cols) == Grid(xs, cols)
      decreases n - i
    {
      var row := BuildRow(kind, choices, cols, i, query, page);
      GridAdvance(xs, cols, i);
      rows := rows + [row];
      i := i + cols;
    }
    rows := rows + [BackRow(query, page)];
  }

  /** The inner loop: the buttons for options `i` to `i + cols - 1` that exist. */
  method BuildRow(kind: string, choices: seq<Choice>, cols: nat, i: nat, query: string, page: int)
    returns (row: seq<Button>)
    requires choices == Choices(kind) && i < |choices|
    ensures row == OptionButtons(kind, query, page)[i..Min(i + cols, |choices|)]
  {
    ghost var xs := OptionButtons(kind, query, page);
    var n := |choices|;
    row := [];
    var j := 0;
    while j < cols
      invariant 0 <= j <= cols
      invariant row == xs[i..Min(i + j, n)]
    {
      if i + j < n {
        row := row + [OptionButton(kind, choices[i + j], query, page)];
      }
      j := j + 1;
    }
  }

  /** Taking one row off the front of what is left of the grid. */
  lemma GridAdvance(xs: seq<Button>, cols: nat, i: nat)
    requires cols >= 1 && i < |xs|
    ensures Grid(xs[i..], cols) == [xs[i..Min(i + cols, |xs|)]] + Grid(xs[Min(i + cols, |xs|)..], cols)
  {
    GridStep(xs[i..], cols);
    assert xs[i..][..Min(cols, |xs| - i)] == xs[i..Min(i + cols, |xs|)];
    assert xs[i..][Min(cols, |xs| - i)..] == xs[Min(i + cols, |xs|)..];
  }

  /** One step of the grid: the first row, then the grid of the rest. */
  lemma GridStep(xs: seq<Button>, cols: nat)
    requires cols >= 1 && xs != []
    ensures Grid(xs, cols) == [xs[..Min(cols, |xs|)]] + Grid(xs[Min(cols, |xs|)..], cols)
  {
    if |xs| <= cols {
      assert xs[..|xs|] == xs;
      assert xs[|xs|..] == [];
    }
  }
}
