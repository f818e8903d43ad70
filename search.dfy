/**
 * The catalog query (`search_files`) and the fuzzy fallback (`fuzzy_search`).
 * The catalog is the files collection in its natural (insertion) order; the
 * MongoDB filter document is modelled by the predicate it selects with.
 */
module Search {
  import opened Wrappers
  import opened Text

  /** A filter value as it reaches the query: text (what callbacks produce) or an integer. */
  datatype Value = Str(s: string) | Int(i: int)

  /** A document of the files collection, as `index_channel` writes it. */
  datatype FileRecord = FileRecord(
    fileId: int, channelId: int, fileName: string, fileSize: int,
    quality: Option<string>, year: Option<int>, language: seq<string>, season: Option<int>)

  /** The `filters` dictionary; a missing dictionary (`None`) is the empty map. */
  type Filters = map<string, Value>

  /** Python truthiness of a filter value. */
  predicate Truthy(v: Value)
  {
    match v
    case Str(s) => s != []
    case Int(i) => i != 0
  }

  /** `filters.get(key)` is truthy, so the key adds a condition to the query. */
  predicate Active(filters: Filters, key: string)
  {
    key in filters && Truthy(filters[key])
  }

  /** MongoDB equality on a text field: a string never equals a number or null. */
  predicate TextEquals(stored: Option<string>, v: Value)
  {
    stored.Some? && v == Str(stored.value)
  }

  /** MongoDB equality on an integer field: a number never equals a string or null. */
  predicate IntEquals(stored: Option<int>, v: Value)
  {
    stored.Some? && v == Int(stored.value)
  }

  /** `{"$in": [v]}` on the language array: some element equals `v`. */
  predicate HasMember(stored: seq<string>, v: Value)
  {
    v.Str? && v.s in stored
  }

  /** `{"$regex": query, "$options": "i"}`, with the query taken literally. */
  predicate NameMatches(name: string, query: string)
  {
    Contains(LowerStr(name), LowerStr(query))
  }

  /** The query document `search_files` builds, as a predicate on one record. */
  predicate Matches(r: FileRecord, query: string, filters: Filters)
  {
    && NameMatches(r.fileName, query)
    && (Active(filters, "quality") ==> TextEquals(r.quality, filters["quality"]))
    && (Active(filters, "year") ==> IntEquals(r.year, filters["year"]))
    && (Active(filters, "language") ==> HasMember(r.language, filters["language"]))
    && (Active(filters, "season") ==> IntEquals(r.season, filters["season"]))
  }

  /** `search_files`: every matching record, each as often as it is stored, in catalog order. */
  function SearchFiles(catalog: seq<FileRecord>, query: string, filters: Filters): (r: seq<FileRecord>)
    ensures |r| <= |catalog|
    ensures forall x :: x in r <==> x in catalog && Matches(x, query, filters)
  {
    if catalog == [] then []
    else
      (if Matches(catalog[0], query, filters) then [catalog[0]] else [])
      + SearchFiles(catalog[1..], query, filters)
  }

  /** The result keeps catalog order: searching a concatenation concatenates the results. */
  lemma {:induction false} SearchKeepsOrder(a: seq<FileRecord>, b: seq<FileRecord>, query: string, filters: Filters)
    ensures SearchFiles(a + b, query, filters) == SearchFiles(a, query, filters) + SearchFiles(b, query, filters)
  {
    if a != [] {
      SearchKeepsOrder(a[1..], b, query, filters);
      assert (a + b)[0] == a[0];
      assert (a + b)[1..] == a[1..] + b;
      var head := if Matches(a[0], query, filters) then [a[0]] else [];
      calc {
        SearchFiles(a + b, query, filters);
        head + SearchFiles(a[1..] + b, query, filters);
        head + (SearchFiles(a[1..], query, filters) + SearchFiles(b, query, filters));
        (head + SearchFiles(a[1..], query, filters)) + SearchFiles(b, query, filters);
      }
    } else {
      assert a + b == b;
    }
  }

  /** Without a truthy filter only the name test applies; an empty query then returns the whole catalog. */
  lemma {:induction false} NameTestOnly(catalog: seq<FileRecord>, query: string, filters: Filters)
    requires forall key :: key in filters ==> !Truthy(filters[key])
    ensures SearchFiles(catalog, query, filters) == SearchFiles(catalog, query, map[])
    ensures query == [] ==> SearchFiles(catalog, query, filters) == catalog
  {
    if catalog != [] {
      NameTestOnly(catalog[1..], query, filters);
      if query == [] {
        assert OccursAt([], LowerStr(catalog[0].fileName), 0);
      }
    }
  }

  /**
   * A year or season filter that arrives as text (as every filter built from a
   * callback does) matches no record, because both are stored as integers.
   */
  lemma {:induction false} TextYearOrSeasonMatchesNothing(catalog: seq<FileRecord>, query: string, key: string, v: string)
    requires key == "year" || key == "season"
    requires v != []
    ensures SearchFiles(catalog, query, map[key := Str(v)]) == []
  {
    if catalog != [] {
      TextYearOrSeasonMatchesNothing(catalog[1..], query, key, v);
    }
  }

  /** A file stored with quality "4K" is not found by the quality filter value "2160P". */
  lemma FourKNotFoundBy2160P(r: FileRecord, query: string)
    requires r.quality == Some("4K")
    ensures !Matches(r, query, map["quality" := Str("2160P")])
  {
  }

  // ---------------------------------------------------------------------------
  // Fuzzy fallback

  /** How many records `fuzzy_search` loads: `to_list(length=1000)`. */
  const FUZZY_POOL: nat := 1000

  /** A suggestion is kept only when its score is strictly above this. */
  const CUTOFF: real := 60.0

  /** A choice with the score the scorer gave it. */
  datatype Candidate = Candidate(name: string, score: real)

  predicate Descending(xs: seq<Candidate>)
  {
    forall j, k :: 0 <= j < k < |xs| ==> xs[j].score >= xs[k].score
  }

  /** Inserts `x` before the first element it does not score below (stable for equal scores). */
  function Insert(x: Candidate, ys: seq<Candidate>): (r: seq<Candidate>)
    ensures |r| == |ys| + 1
    ensures multiset(r) == multiset(ys) + multiset{x}
  {
    if ys == [] || x.score >= ys[0].score then [x] + ys
    else
      assert ys == [ys[0]] + ys[1..];
      [ys[0]] + Insert(x, ys[1..])
  }

  lemma {:induction false} InsertKeepsDescending(x: Candidate, ys: seq<Candidate>)
    requires Descending(ys)
    ensures Descending(Insert(x, ys))
  {
    if ys != [] && x.score < ys[0].score {
      InsertKeepsDescending(x, ys[1..]);
      var rest := Insert(x, ys[1..]);
      forall k | 0 <= k < |rest| ensures ys[0].score >= rest[k].score {
        assert rest[k] in multiset(rest);
        assert rest[k] in multiset(ys[1..]) + multiset{x};
        if rest[k] != x {
          assert rest[k] in ys[1..];
        }
      }
    }
  }

  /** The scorer's ranking: all candidates, best score first, equal scores in catalog order. */
  function Rank(xs: seq<Candidate>): (r: seq<Candidate>)
    ensures |r| == |xs|
    ensures multiset(r) == multiset(xs)
    ensures Descending(r)
  {
    if xs == [] then []
    else
      assert xs == [xs[0]] + xs[1..];
      InsertKeepsDescending(xs[0], Rank(xs[1..]));
      Insert(xs[0], Rank(xs[1..]))
  }

  function AboveCutoff(xs: seq<Candidate>): (r: seq<Candidate>)
    ensures |r| <= |xs|
    ensures forall c :: c in r <==> c in xs && c.score > CUTOFF
  {
    if xs == [] then []
    else (if xs[0].score > CUTOFF then [xs[0]] else []) + AboveCutoff(xs[1..])
  }

  function FileNames(records: seq<FileRecord>): (names: seq<string>)
    ensures |names| == |records|
    ensures forall k :: 0 <= k < |records| ==> names[k] == records[k].fileName
  {
    seq(|records|, k requires 0 <= k < |records| => records[k].fileName)
  }

  function Scored(names: seq<string>, query: string, scorer: (string, string) -> real): (r: seq<Candidate>)
    ensures |r| == |names|
    ensures forall k :: 0 <= k < |names| ==> r[k] == Candidate(names[k], scorer(query, names[k]))
  {
    seq(|names|, k requires 0 <= k < |names| => Candidate(names[k], scorer(query, names[k])))
  }

  function Names(xs: seq<Candidate>): (names: seq<string>)
    ensures |names| == |xs|
    ensures forall k :: 0 <= k < |xs| ==> names[k] == xs[k].name
  {
    seq(|xs|, k requires 0 <= k < |xs| => xs[k].name)
  }

  /** The candidates `fuzzy_search` considers: the names of the first 1000 records, scored against `query`. */
  function Pool(catalog: seq<FileRecord>, query: string, scorer: (string, string) -> real): seq<Candidate>
  {
    var loaded := if |catalog| <= FUZZY_POOL then catalog else catalog[..FUZZY_POOL];
    Scored(FileNames(loaded), query, scorer)
  }

  /** The top `limit` of a ranking, then only those scoring above the cutoff. */
  function TopAboveCutoff(ranked: seq<Candidate>, limit: nat): seq<Candidate>
  {
    AboveCutoff(ranked[..if |ranked| <= limit then |ranked| else limit])
  }

  /**
   * `fuzzy_search`: `process.extract(query, names, limit=limit)` with an
   * abstract scorer, followed by the `> 60` cutoff.
   */
  function FuzzySearch(catalog: seq<FileRecord>, query: string, scorer: (string, string) -> real, limit: nat): seq<string>
  {
    Names(TopAboveCutoff(Rank(Pool(catalog, query, scorer)), limit))
  }

  /**
   * Cutting a descending ranking: at most `limit` results, all above the
   * cutoff, still descending; a candidate above the cutoff is missing only
   * when `limit` results, each scoring at least as well, are there instead.
   */
  lemma TopCutoff(ranked: seq<Candidate>, limit: nat)
    requires Descending(ranked)
    ensures var kept := TopAboveCutoff(ranked, limit);
      && |kept| <= limit
      && (forall c :: c in kept ==> c in ranked && c.score > CUTOFF)
      && Descending(kept)
      && (forall c :: c in ranked && c.score > CUTOFF && c !in kept ==>
            |kept| == limit && forall k :: 0 <= k < |kept| ==> kept[k].score >= c.score)
  {
    var top := ranked[..if |ranked| <= limit then |ranked| else limit];
    AboveCutoffKeepsOrder(top);
    forall c | c in ranked && c.score > CUTOFF && c !in AboveCutoff(top)
      ensures |AboveCutoff(top)| == limit
      ensures forall k :: 0 <= k < |AboveCutoff(top)| ==> AboveCutoff(top)[k].score >= c.score
    {
      CutOffCandidate(ranked, limit, c);
    }
  }

  /** A candidate above the cutoff that the cut lost lies past a full top `limit`, all kept. */
  lemma CutOffCandidate(ranked: seq<Candidate>, limit: nat, c: Candidate)
    requires Descending(ranked)
    requires c in ranked && c.score > CUTOFF
    requires c !in TopAboveCutoff(ranked, limit)
    ensures |TopAboveCutoff(ranked, limit)| == limit
    ensures forall k :: 0 <= k < |TopAboveCutoff(ranked, limit)| ==> TopAboveCutoff(ranked, limit)[k].score >= c.score
  {
    var top := ranked[..if |ranked| <= limit then |ranked| else limit];
    var i :| 0 <= i < |ranked| && ranked[i] == c;
    assert i >= |top|;
    forall k | 0 <= k < |top| ensures top[k].score > CUTOFF && top[k].score >= c.score {
      assert top[k] == ranked[k];
    }
    AboveCutoffKeepsAll(top);
  }

  lemma {:induction false} AboveCutoffKeepsOrder(xs: seq<Candidate>)
    requires Descending(xs)
    ensures Descending(AboveCutoff(xs))
  {
    if xs != [] {
      AboveCutoffKeepsOrder(xs[1..]);
      var rest := AboveCutoff(xs[1..]);
      forall k | 0 <= k < |rest| ensures xs[0].score >= rest[k].score {
        assert rest[k] in xs[1..];
      }
    }
  }

  lemma {:induction false} AboveCutoffKeepsAll(xs: seq<Candidate>)
    requires forall k :: 0 <= k < |xs| ==> xs[k].score > CUTOFF
    ensures AboveCutoff(xs) == xs
  {
    if xs != [] {
      AboveCutoffKeepsAll(xs[1..]);
      assert xs == [xs[0]] + xs[1..];
    }
  }

  /** Every candidate of the pool is a name among the first 1000 records, scored against the query. */
  lemma InPool(catalog: seq<FileRecord>, query: string, scorer: (string, string) -> real, c: Candidate)
    requires c in Pool(catalog, query, scorer)
    ensures c.score == scorer(query, c.name)
    ensures exists i :: 0 <= i < |catalog| && i < FUZZY_POOL && catalog[i].fileName == c.name
  {
    var loaded := if |catalog| <= FUZZY_POOL then catalog else catalog[..FUZZY_POOL];
    var pool := Pool(catalog, query, scorer);
    var i :| 0 <= i < |pool| && pool[i] == c;
    assert c == Candidate(loaded[i].fileName, scorer(query, loaded[i].fileName));
    assert catalog[i] == loaded[i];
  }

  /**
   * `fuzzy_search` returns at most `limit` names, each the name of one of the
   * first 1000 records and scoring above 60, best score first.
   */
  lemma FuzzySearchSpec(catalog: seq<FileRecord>, query: string, scorer: (string, string) -> real, limit: nat)
    ensures var names := FuzzySearch(catalog, query, scorer, limit);
      && |names| <= limit
      && (forall k :: 0 <= k < |names| ==>
            && scorer(query, names[k]) > CUTOFF
            && exists i :: 0 <= i < |catalog| && i < FUZZY_POOL && catalog[i].fileName == names[k])
      && (forall j, k :: 0 <= j < k < |names| ==> scorer(query, names[j]) >= scorer(query, names[k]))
  {
    var pool := Pool(catalog, query, scorer);
    var ranked := Rank(pool);
    var kept := TopAboveCutoff(ranked, limit);
    var names := Names(kept);
    TopCutoff(ranked, limit);
    forall k | 0 <= k < |kept|
      ensures kept[k].score == scorer(query, kept[k].name) && kept[k].score > CUTOFF
      ensures exists i :: 0 <= i < |catalog| && i < FUZZY_POOL && catalog[i].fileName == kept[k].name
    {
      var c := kept[k];
      assert c in kept;
      assert c in multiset(ranked);
      InPool(catalog, query, scorer, c);
    }
  }
}
