/**
 * Filename metadata extraction (`parse_file_info`): four independent scans of
 * the file name, each a regular-expression search modelled as a left-to-right
 * scan for the first position where the pattern matches.
 */
module FileInfo {
  import opened Wrappers
  import opened Text

  /** The alternatives of the quality pattern `480p|720p|1080p|2160p|4k`, in the order they are tried. */
  const QUALITY_TOKENS: seq<string> := ["480p", "720p", "1080p", "2160p", "4k"]

  /** The values a stored quality can take: the upper-cased alternatives. */
  const QUALITY_VALUES: set<string> := {"480P", "720P", "1080P", "2160P", "4K"}

  /** The fixed language list, in the order the extraction loop visits it. */
  const LANGUAGES: seq<string> := ["Hindi", "English", "Tamil", "Telugu", "Kannada", "Malayalam"]

  /** The `info` dictionary: `None` is an absent attribute, `language` may be empty. */
  datatype Info = Info(quality: Option<string>, year: Option<int>, language: seq<string>, season: Option<int>)

  /** The first alternative that occurs in `l` at position `i`. */
  function FirstAlternative(l: string, i: nat, alts: seq<string>): (r: Option<string>)
    ensures r.Some? ==> r.value in alts && OccursAt(r.value, l, i)
    ensures r.None? ==> forall t :: t in alts ==> !OccursAt(t, l, i)
  {
    if alts == [] then None
    else if OccursAt(alts[0], l, i) then Some(alts[0])
    else FirstAlternative(l, i, alts[1..])
  }

  /** The quality pattern at position `i`, case-insensitively; the captured text is upper-cased. */
  function QualityAt(s: string, i: nat): (r: Option<string>)
    ensures r.Some? ==> r.value in QUALITY_VALUES
  {
    match FirstAlternative(LowerStr(s), i, QUALITY_TOKENS)
    case None => None
    case Some(t) =>
      var captured := s[i..i + |t|];
      TokensLowerCase(t);
      assert LowerStr(captured) == LowerStr(s)[i..i + |t|] == t == LowerStr(t);
      UpperStrOfMatch(captured, t);
      TokensUpperCase(t);
      Some(UpperStr(captured))
  }

  /**
   * The quality pattern matches at `i` exactly when one of its alternatives
   * occurs there ignoring case, and the value is the matched text upper-cased.
   */
  lemma QualityAtCaptures(s: string, i: nat)
    ensures QualityAt(s, i).None? <==> forall t :: t in QUALITY_TOKENS ==> !OccursAt(t, LowerStr(s), i)
    ensures QualityAt(s, i).Some? ==>
      exists t :: t in QUALITY_TOKENS && OccursAt(t, LowerStr(s), i) && QualityAt(s, i).value == UpperStr(s[i..i + |t|])
  {
    var alt := FirstAlternative(LowerStr(s), i, QUALITY_TOKENS);
    if alt.Some? {
      var t := alt.value;
      assert QualityAt(s, i) == Some(UpperStr(s[i..i + |t|]));
      assert t in QUALITY_TOKENS && OccursAt(t, LowerStr(s), i);
    } else {
      assert QualityAt(s, i).None?;
    }
  }

  lemma TokensLowerCase(t: string)
    requires t in QUALITY_TOKENS
    ensures LowerStr(t) == t
  {
    assert t == "480p" || t == "720p" || t == "1080p" || t == "2160p" || t == "4k";
  }

  lemma UpperTokens()
    ensures UpperStr("480p") == "480P" && UpperStr("720p") == "720P" && UpperStr("1080p") == "1080P"
    ensures UpperStr("2160p") == "2160P" && UpperStr("4k") == "4K"
  {
  }

  lemma TokensUpperCase(t: string)
    requires t in QUALITY_TOKENS
    ensures UpperStr(t) in QUALITY_VALUES
  {
    assert t == "480p" || t == "720p" || t == "1080p" || t == "2160p" || t == "4k";
    UpperTokens();
  }

  /** No alternative of the quality pattern starts with a character other than 4, 7, 1 or 2. */
  lemma NoQualityAt(s: string, j: nat)
    requires j < |s| ==> Lower(s[j]) !in "4712"
    ensures QualityAt(s, j).None?
  {
    var l := LowerStr(s);
    forall t | t in QUALITY_TOKENS ensures !OccursAt(t, l, j) {
    }
  }

  /** The year pattern `19\d{2}|20\d{2}` at position `i`, as the integer it spells. */
  function YearAt(s: string, i: nat): (r: Option<int>)
    ensures r.Some? ==> 1900 <= r.value <= 2099
    ensures r.Some? ==> i + 4 <= |s| && ParseInt(s[i..i + 4]) == r
    ensures i + 4 <= |s| && (s[i..i + 2] == "19" || s[i..i + 2] == "20") && AllDigits(s[i + 2..i + 4]) ==> r.Some?
  {
    if i + 4 <= |s| && ((s[i] == '1' && s[i + 1] == '9') || (s[i] == '2' && s[i + 1] == '0'))
       && IsDigit(s[i + 2]) && IsDigit(s[i + 3])
    then
      var t := s[i..i + 4];
      FourDigits(t);
      Some(1000 * DigitValue(s[i]) + 100 * DigitValue(s[i + 1]) + 10 * DigitValue(s[i + 2]) + DigitValue(s[i + 3]))
    else
      None
  }

  /** Four digits read by `int(...)` spell the number with those decimal digits. */
  lemma FourDigits(t: string)
    requires |t| == 4 && AllDigits(t)
    ensures ParseInt(t) == Some(1000 * DigitValue(t[0]) + 100 * DigitValue(t[1]) + 10 * DigitValue(t[2]) + DigitValue(t[3]))
  {
    ParseDigits(t);
    assert t[..3][..2] == t[..2] && t[..2][..1] == t[..1] && t[..1][..0] == [];
    assert DigitsValue(t[..1]) == DigitValue(t[0]);
    assert DigitsValue(t[..2]) == 10 * DigitValue(t[0]) + DigitValue(t[1]);
    assert DigitsValue(t[..3]) == 100 * DigitValue(t[0]) + 10 * DigitValue(t[1]) + DigitValue(t[2]);
    assert t[..4] == t;
  }

  /** One or two digits read by `int(...)`. */
  lemma TwoDigits(t: string)
    requires 1 <= |t| <= 2 && AllDigits(t)
    ensures ParseInt(t) == Some(if |t| == 1 then DigitValue(t[0]) else 10 * DigitValue(t[0]) + DigitValue(t[1]))
  {
    ParseDigits(t);
    assert t[..1][..0] == [];
    assert DigitsValue(t[..1]) == DigitValue(t[0]);
    if |t| == 2 {
      assert t[..2] == t;
    } else {
      assert t[..1] == t;
    }
  }

  /** The season pattern `S(\d{1,2})`, case-insensitively and greedy, at position `i`. */
  function SeasonAt(s: string, i: nat): (r: Option<int>)
    ensures r.Some? ==> 0 <= r.value <= 99
    ensures r.Some? ==> i + 2 <= |s| && Lower(s[i]) == 's' && IsDigit(s[i + 1])
    ensures r.Some? ==> var stop := if i + 3 <= |s| && IsDigit(s[i + 2]) then i + 3 else i + 2;
      ParseInt(s[i + 1..stop]) == r
    ensures i + 2 <= |s| && Lower(s[i]) == 's' && IsDigit(s[i + 1]) ==> r.Some?
  {
    if i + 2 <= |s| && Lower(s[i]) == 's' && IsDigit(s[i + 1]) then
      if i + 3 <= |s| && IsDigit(s[i + 2]) then
        TwoDigits(s[i + 1..i + 3]);
        Some(10 * DigitValue(s[i + 1]) + DigitValue(s[i + 2]))
      else
        TwoDigits(s[i + 1..i + 2]);
        Some(DigitValue(s[i + 1]))
    else
      None
  }

  /** The leftmost position at or after `i` where `at` matches. */
  function Leftmost<T>(s: string, i: nat, at: (string, nat) -> Option<T>): (r: Option<nat>)
    requires i <= |s|
    ensures r.Some? ==> i <= r.value < |s| && at(s, r.value).Some?
    ensures r.Some? ==> forall j: nat :: i <= j < r.value ==> at(s, j).None?
    ensures r.None? ==> forall j: nat :: i <= j < |s| ==> at(s, j).None?
    decreases |s| - i
  {
    if i == |s| then None
    else if at(s, i).Some? then Some(i)
    else Leftmost(s, i + 1, at)
  }

  /** `re.search`: the match at the leftmost matching position, if any. */
  function Search<T>(s: string, at: (string, nat) -> Option<T>): Option<T>
  {
    match Leftmost(s, 0, at)
    case None => None
    case Some(k) => at(s, k)
  }

  /** The search result is the match at the first position that matches, and absent only when none does. */
  lemma SearchIsLeftmost<T>(s: string, at: (string, nat) -> Option<T>, k: nat)
    requires k < |s| && at(s, k).Some?
    requires forall j: nat :: j < k ==> at(s, j).None?
    ensures Search(s, at) == at(s, k)
  {
  }

  lemma SearchAbsent<T>(s: string, at: (string, nat) -> Option<T>)
    requires forall j: nat :: j < |s| ==> at(s, j).None?
    ensures Search(s, at).None?
  {
  }

  predicate Mentions(filename: string, lang: string)
  {
    Contains(LowerStr(filename), LowerStr(lang))
  }

  /** The members of `langs` whose lower-case form occurs in the lower-cased file name, in list order. */
  function LanguagesIn(filename: string, langs: seq<string>): (r: seq<string>)
    ensures |r| <= |langs|
    ensures forall x :: x in r <==> x in langs && Mentions(filename, x)
  {
    if langs == [] then []
    else
      var last := langs[|langs| - 1];
      LanguagesIn(filename, langs[..|langs| - 1]) + (if Mentions(filename, last) then [last] else [])
  }

  function FileInfoOf(filename: string): Info
  {
    Info(Search(filename, QualityAt), Search(filename, YearAt), LanguagesIn(filename, LANGUAGES),
         Search(filename, SeasonAt))
  }

  /** `parse_file_info`: total; the language list is built by the loop over the fixed list. */
  method ParseFileInfo(filename: string) returns (info: Info)
    ensures info == FileInfoOf(filename)
  {
    var language: seq<string> := [];
    var lower := LowerStr(filename);
    for k := 0 to |LANGUAGES|
      invariant language == LanguagesIn(filename, LANGUAGES[..k])
    {
      var lang := LANGUAGES[k];
      LanguagesInStep(filename, k);
      if Contains(lower, LowerStr(lang)) {
        language := language + [lang];
      }
    }
    assert LANGUAGES[..|LANGUAGES|] == LANGUAGES;
    info := Info(Search(filename, QualityAt), Search(filename, YearAt), language, Search(filename, SeasonAt));
  }

  /** One more language of the fixed list visited by the loop. */
  lemma LanguagesInStep(filename: string, k: nat)
    requires k < |LANGUAGES|
    ensures LanguagesIn(filename, LANGUAGES[..k + 1]) ==
      LanguagesIn(filename, LANGUAGES[..k]) + (if Mentions(filename, LANGUAGES[k]) then [LANGUAGES[k]] else [])
  {
    PrefixStep(filename, LANGUAGES, k);
  }

  lemma PrefixStep(filename: string, langs: seq<string>, k: nat)
    requires k < |langs|
    ensures LanguagesIn(filename, langs[..k + 1]) ==
      LanguagesIn(filename, langs[..k]) + (if Mentions(filename, langs[k]) then [langs[k]] else [])
  {
    assert langs[..k + 1][..k] == langs[..k];
    assert langs[..k + 1][k] == langs[k];
  }

  /** Every attribute is absent or within the range its pattern allows. */
  lemma ExtractionBounds(filename: string)
    ensures var info := FileInfoOf(filename);
      && (info.quality.None? || info.quality.value in QUALITY_VALUES)
      && (info.year.None? || 1900 <= info.year.value <= 2099)
      && (info.season.None? || 0 <= info.season.value <= 99)
      && (forall l :: l in info.language ==> l in LANGUAGES)
  {
    var info := FileInfoOf(filename);
    match Leftmost(filename, 0, QualityAt) {
      case None =>
      case Some(k) => assert info.quality == QualityAt(filename, k);
    }
    match Leftmost(filename, 0, YearAt) {
      case None =>
      case Some(k) => assert info.year == YearAt(filename, k);
    }
    match Leftmost(filename, 0, SeasonAt) {
      case None =>
      case Some(k) => assert info.season == SeasonAt(filename, k);
    }
  }

  function IndexOf(xs: seq<string>, x: string): (k: nat)
    requires x in xs
    ensures k < |xs| && xs[k] == x
    ensures forall j :: 0 <= j < k ==> xs[j] != x
  {
    if xs[0] == x then 0 else 1 + IndexOf(xs[1..], x)
  }

  predicate Distinct(xs: seq<string>)
  {
    forall j, k :: 0 <= j < k < |xs| ==> xs[j] != xs[k]
  }

  /** The members of `r` occur in `langs` in the order they occur in `r`. */
  predicate InListOrder(r: seq<string>, langs: seq<string>)
    requires forall x :: x in r ==> x in langs
  {
    forall j, k :: 0 <= j < k < |r| ==> IndexOf(langs, r[j]) < IndexOf(langs, r[k])
  }

  /** The languages found appear in the order of the list, so without repetition. */
  lemma {:induction false} LanguagesInListOrder(filename: string, langs: seq<string>)
    requires Distinct(langs)
    ensures InListOrder(LanguagesIn(filename, langs), langs)
  {
    if langs != [] {
      var n := |langs| - 1;
      var init := langs[..n];
      LanguagesInListOrder(filename, init);
      var r0 := LanguagesIn(filename, init);
      assert Distinct(init);
      var r := LanguagesIn(filename, langs);
      forall x | x in init ensures IndexOf(langs, x) == IndexOf(init, x) < n {
        var i := IndexOf(init, x);
        assert langs[i] == x;
        assert IndexOf(langs, x) <= i;
        assert IndexOf(langs, x) >= i;
      }
      assert IndexOf(langs, langs[n]) == n;
      forall j, k | 0 <= j < k < |r| ensures IndexOf(langs, r[j]) < IndexOf(langs, r[k]) {
        assert r[j] == r0[j] && r0[j] in init;
        if k < |r0| {
          assert r[k] == r0[k] && r0[k] in init;
          assert IndexOf(init, r0[j]) < IndexOf(init, r0[k]);
        } else {
          assert r[k] == langs[n];
        }
      }
    }
  }

  /**
   * The languages `parse_file_info` reports for any file name follow the
   * order of the fixed list and name no language twice.
   */
  lemma FileInfoLanguages(filename: string)
    ensures var r := FileInfoOf(filename).language;
      (forall x :: x in r ==> x in LANGUAGES) && InListOrder(r, LANGUAGES) && Distinct(r)
  {
    assert Distinct(LANGUAGES);
    LanguagesInListOrder(filename, LANGUAGES);
    var r := FileInfoOf(filename).language;
    forall j, k | 0 <= j < k < |r| ensures r[j] != r[k] {
      assert IndexOf(LANGUAGES, r[j]) < IndexOf(LANGUAGES, r[k]);
    }
  }

  /** A typical release name: 720p, the year 2019, Hindi, and no season. */
  lemma ReleaseNameExample(s: string)
    requires s == "Radha.2019.720p.Hindi.avi"
    ensures FileInfoOf(s) == Info(Some("720P"), Some(2019), ["Hindi"], None)
  {
    ReleaseCharsOf(s);
    var l := ReleaseLower(s);
    ReleaseQuality(s, l);
    ReleaseYear(s);
    NoSeasonWithoutS(s);
    ReleaseLanguages(s, l);
  }

  /** The characters of the example name that the patterns look at. */
  predicate ReleaseChars(s: string)
  {
    && |s| == 25
    && s[0] == 'R' && s[1] == 'a' && s[2] == 'd' && s[3] == 'h' && s[4] == 'a' && s[5] == '.'
    && s[6] == '2' && s[7] == '0' && s[8] == '1' && s[9] == '9' && s[10] == '.'
    && s[11] == '7' && s[12] == '2' && s[13] == '0' && s[14] == 'p'
    && s[16] == 'H' && s[17] == 'i' && s[18] == 'n' && s[19] == 'd' && s[20] == 'i'
    && 'e' !in s && 'E' !in s && 't' !in s && 'T' !in s && 'k' !in s && 'K' !in s
    && 'm' !in s && 'M' !in s && 's' !in s && 'S' !in s
  }

  /** The same positions of the lower-cased name. */
  predicate ReleaseLetters(l: string)
  {
    && |l| == 25
    && l[0] == 'r' && l[1] == 'a' && l[2] == 'd' && l[3] == 'h' && l[4] == 'a' && l[5] == '.'
    && l[6] == '2' && l[7] == '0' && l[8] == '1' && l[9] == '9' && l[10] == '.'
    && l[11] == '7' && l[12] == '2' && l[13] == '0' && l[14] == 'p'
    && l[16] == 'h' && l[17] == 'i' && l[18] == 'n' && l[19] == 'd' && l[20] == 'i'
    && 'e' !in l && 't' !in l && 'k' !in l && 'm' !in l && 's' !in l
  }

  lemma ReleaseCharsOf(s: string)
    requires s == "Radha.2019.720p.Hindi.avi"
    ensures ReleaseChars(s)
  {
    ReleaseFront(s);
    ReleaseBack(s);
    ReleaseAbsentLower(s);
    ReleaseAbsentUpper(s);
  }

  lemma ReleaseFront(s: string)
    requires s == "Radha.2019.720p.Hindi.avi"
    ensures |s| == 25
    ensures s[0] == 'R' && s[1] == 'a' && s[2] == 'd' && s[3] == 'h' && s[4] == 'a' && s[5] == '.'
    ensures s[6] == '2' && s[7] == '0' && s[8] == '1' && s[9] == '9' && s[10] == '.'
  {
  }

  lemma ReleaseBack(s: string)
    requires s == "Radha.2019.720p.Hindi.avi"
    ensures s[11] == '7' && s[12] == '2' && s[13] == '0' && s[14] == 'p'
    ensures s[16] == 'H' && s[17] == 'i' && s[18] == 'n' && s[19] == 'd' && s[20] == 'i'
  {
  }

  lemma ReleaseAbsentLower(s: string)
    requires s == "Radha.2019.720p.Hindi.avi"
    ensures 'e' !in s && 't' !in s && 'k' !in s && 'm' !in s && 's' !in s
  {
  }

  lemma ReleaseAbsentUpper(s: string)
    requires s == "Radha.2019.720p.Hindi.avi"
    ensures 'E' !in s && 'T' !in s && 'K' !in s && 'M' !in s && 'S' !in s
  {
  }

  lemma ReleaseLower(s: string) returns (l: string)
    requires ReleaseChars(s)
    ensures l == LowerStr(s) && ReleaseLetters(l)
  {
    l := LowerStr(s);
    LowerAbsent(s, 'e');
    LowerAbsent(s, 't');
    LowerAbsent(s, 'k');
    LowerAbsent(s, 'm');
    LowerAbsent(s, 's');
  }

  /** A lower-case letter absent from `s` in both cases is absent from its lower-cased form. */
  lemma LowerAbsent(s: string, c: char)
    requires 'a' <= c <= 'z' && c !in s && Upper(c) !in s
    ensures c !in LowerStr(s)
  {
    forall j | 0 <= j < |s| ensures LowerStr(s)[j] != c {
      assert s[j] in s;
    }
  }

  lemma ReleaseYear(s: string)
    requires ReleaseChars(s)
    ensures Search(s, YearAt) == Some(2019)
  {
    forall j: nat | j < 6 ensures YearAt(s, j).None? {
    }
    assert YearAt(s, 6) == Some(2019);
    SearchIsLeftmost(s, YearAt, 6);
  }

  /** The first position of the name where a quality token starts is 11, with "720p". */
  lemma ReleaseQuality(s: string, l: string)
    requires l == LowerStr(s) && ReleaseLetters(l)
    ensures Search(s, QualityAt) == Some("720P")
  {
    ReleaseNoQualityBefore(s, l);
    ReleaseQualityAt(s, l);
    SearchIsLeftmost(s, QualityAt, 11);
  }

  lemma ReleaseNoQualityBefore(s: string, l: string)
    requires l == LowerStr(s) && ReleaseLetters(l)
    ensures forall j: nat :: j < 11 ==> QualityAt(s, j).None?
  {
    forall j: nat | j < 11 ensures QualityAt(s, j).None? {
      if j == 6 {
        ReleaseNoQualityAt(s, l, j, 0, 1);
      } else if j == 8 {
        ReleaseNoQualityAt(s, l, j, 1, 0);
      } else {
        NoQualityAt(s, j);
      }
    }
  }

  /** At `j`, "1080p" fails at offset `a`, "2160p" at offset `b`, the others at their first character. */
  lemma ReleaseNoQualityAt(s: string, l: string, j: nat, a: nat, b: nat)
    requires l == LowerStr(s) && j + 1 < |l| && a <= 1 && b <= 1
    requires l[j] != '4' && l[j] != '7' && l[j + a] != "1080p"[a] && l[j + b] != "2160p"[b]
    ensures QualityAt(s, j).None?
  {
    QualityAtCaptures(s, j);
    MismatchNotAt("480p", l, j, 0);
    MismatchNotAt("720p", l, j, 0);
    MismatchNotAt("1080p", l, j, a);
    MismatchNotAt("2160p", l, j, b);
    MismatchNotAt("4k", l, j, 0);
  }

  lemma ReleaseQualityAt(s: string, l: string)
    requires l == LowerStr(s) && ReleaseLetters(l)
    ensures QualityAt(s, 11) == Some("720P")
  {
    ReleaseTokenAt(l);
    assert QUALITY_TOKENS[0] == "480p" && QUALITY_TOKENS[1] == "720p";
    ReleaseCaptured(s, l);
  }

  /** "480p" does not occur at 11 and "720p" does. */
  lemma ReleaseTokenAt(l: string)
    requires ReleaseLetters(l)
    ensures !OccursAt("480p", l, 11) && OccursAt("720p", l, 11)
  {
    MismatchNotAt("480p", l, 11, 0);
    assert l[11..15] == "720p";
  }

  lemma ReleaseCaptured(s: string, l: string)
    requires l == LowerStr(s) && ReleaseLetters(l)
    ensures UpperStr(s[11..15]) == "720P"
  {
    ReleaseTokenAt(l);
    assert LowerStr(s[11..15]) == l[11..15] == LowerStr("720p");
    UpperStrOfMatch(s[11..15], "720p");
    UpperTokens();
  }

  /** Without an `s` in any case, the season pattern finds nothing. */
  lemma NoSeasonWithoutS(s: string)
    requires 's' !in LowerStr(s)
    ensures Search(s, SeasonAt).None?
  {
    forall j: nat | j < |s| ensures SeasonAt(s, j).None? {
      assert LowerStr(s)[j] == Lower(s[j]);
    }
    SearchAbsent(s, SeasonAt);
  }

  /** Of the six languages only Hindi is mentioned. */
  lemma ReleaseLanguages(s: string, l: string)
    requires l == LowerStr(s) && ReleaseLetters(l)
    ensures LanguagesIn(s, LANGUAGES) == ["Hindi"]
  {
    ReleaseMentions(s, l);
    ReleaseFirstLanguages(s);
    ReleaseLastLanguages(s);
  }

  lemma ReleaseLastLanguages(s: string)
    requires LanguagesIn(s, LANGUAGES[..3]) == ["Hindi"]
    requires !Mentions(s, LANGUAGES[3]) && !Mentions(s, LANGUAGES[4]) && !Mentions(s, LANGUAGES[5])
    ensures LanguagesIn(s, LANGUAGES) == ["Hindi"]
  {
    UnmentionedStep(s, 3, ["Hindi"]);
    UnmentionedStep(s, 4, ["Hindi"]);
    LastUnmentioned(s, ["Hindi"]);
  }

  lemma LastUnmentioned(s: string, found: seq<string>)
    requires LanguagesIn(s, LANGUAGES[..5]) == found && !Mentions(s, LANGUAGES[5])
    ensures LanguagesIn(s, LANGUAGES) == found
  {
    UnmentionedStep(s, 5, found);
    WholePrefix(s, LANGUAGES, found);
  }

  lemma WholePrefix(s: string, langs: seq<string>, found: seq<string>)
    requires LanguagesIn(s, langs[..|langs|]) == found
    ensures LanguagesIn(s, langs) == found
  {
    assert langs[..|langs|] == langs;
  }

  /** A language that is not mentioned adds nothing to the languages found so far. */
  lemma UnmentionedStep(s: string, k: nat, found: seq<string>)
    requires k < |LANGUAGES| && LanguagesIn(s, LANGUAGES[..k]) == found && !Mentions(s, LANGUAGES[k])
    ensures LanguagesIn(s, LANGUAGES[..k + 1]) == found
  {
    LanguagesInStep(s, k);
  }

  lemma ReleaseFirstLanguages(s: string)
    requires Mentions(s, LANGUAGES[0]) && !Mentions(s, LANGUAGES[1]) && !Mentions(s, LANGUAGES[2])
    ensures LanguagesIn(s, LANGUAGES[..3]) == ["Hindi"]
  {
    assert LANGUAGES[..0] == [];
    LanguagesInStep(s, 0);
    LanguagesInStep(s, 1);
    LanguagesInStep(s, 2);
  }

  lemma ReleaseMentions(s: string, l: string)
    requires l == LowerStr(s) && ReleaseLetters(l)
    ensures Mentions(s, LANGUAGES[0])
    ensures forall k :: 1 <= k < |LANGUAGES| ==> !Mentions(s, LANGUAGES[k])
  {
    assert LowerStr("Hindi") == "hindi";
    assert l[16..21] == "hindi";
    assert OccursAt("hindi", l, 16);
    forall k | 1 <= k < |LANGUAGES| ensures !Mentions(s, LANGUAGES[k]) {
      var c := if k == 1 then 'e' else if k <= 3 then 't' else if k == 4 then 'k' else 'm';
      NotMentioned(s, l, LANGUAGES[k], c);
    }
  }

  /** A language whose lower-case initial is absent from the lower-cased name is not mentioned. */
  lemma NotMentioned(s: string, l: string, lang: string, c: char)
    requires l == LowerStr(s) && |lang| > 0 && Lower(lang[0]) == c && c !in l
    ensures !Mentions(s, lang)
  {
    AbsentFirst(l, LowerStr(lang));
  }

  /** A text whose first character does not occur in `s` does not occur in `s`. */
  lemma AbsentFirst(s: string, p: string)
    requires |p| > 0 && p[0] !in s
    ensures !Contains(s, p)
  {
    forall i | 0 <= i <= |s| - |p| ensures !OccursAt(p, s, i) {
      assert s[i..i + |p|][0] == s[i];
    }
  }

  /** A pattern does not occur where one of its characters differs. */
  lemma MismatchNotAt(p: string, l: string, i: nat, j: nat)
    requires j < |p| && i + j < |l| && l[i + j] != p[j]
    ensures !OccursAt(p, l, i)
  {
    if i + |p| <= |l| {
      assert l[i..i + |p|][j] == l[i + j];
    }
  }

  /**
   * A `4k` in the file name is captured as "4K": the quality is upper-cased,
   * not normalised to "2160P".
   */
  lemma FourKCapturedAs4K(s: string, i: nat)
    requires i + 2 <= |s| && Lower(s[i]) == '4' && Lower(s[i + 1]) == 'k'
    ensures QualityAt(s, i) == Some("4K")
  {
    var l := LowerStr(s);
    assert l[i] == '4' && l[i + 1] == 'k';
    MismatchNotAt("480p", l, i, 1);
    MismatchNotAt("720p", l, i, 0);
    MismatchNotAt("1080p", l, i, 0);
    MismatchNotAt("2160p", l, i, 0);
    assert l[i..i + 2] == "4k";
    var ts := QUALITY_TOKENS;
    assert FirstAlternative(l, i, ts[4..]) == Some("4k") by {
      assert ts[4..] == ["4k"];
    }
    assert ts[3..][1..] == ts[4..] && ts[2..][1..] == ts[3..] && ts[1..][1..] == ts[2..] && ts[1..] == ts[0..][1..];
    assert FirstAlternative(l, i, ts) == Some("4k");
    var captured := s[i..i + 2];
    assert captured[0] == '4' && Upper(captured[1]) == 'K';
    assert UpperStr(captured) == [Upper(captured[0])] + UpperStr(captured[1..]);
  }
}
