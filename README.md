# File-search bot core, in Dafny

This project models the deterministic core of `bot.py`, a Telegram bot that
indexes the documents and videos posted in channels and lets members of one
group search them. The bot:

- reads quality, year, languages and season out of each file name;
- keeps the files in a catalog keyed by message id and channel id;
- answers a search in the group with the first page of matches, sent by
  private message, or with "did you mean" suggestions from a fuzzy ranking;
- encodes every button as a `_`-separated callback string and decodes it
  again with `split("_")`, `int(...)` and `replace(...)`;
- pages through results ten at a time and offers filter menus;
- keeps a queue of messages to delete fifteen minutes later, swept by a job
  every minute;
- keeps a table of banned users. `is_banned` is the function
  `Tables.UserTable.IsBanned`, through which the ban methods state their effect.

Modules, one per file:

| file | module | what it holds |
|---|---|---|
| `wrappers.dfy` | `Wrappers` | `Option` |
| `text.dfy` | `Text` | the Python string built-ins the bot uses: `lower`/`upper` (ASCII), `in`, `startswith`, `split`/join, `replace(p, "")`, `str(int)`, `int(str)`, `strip` |
| `file_info.dfy` | `FileInfo` | `parse_file_info`: each regular expression as a leftmost left-to-right scan |
| `size_format.dfy` | `SizeFormat` | `format_size`: the unit it picks and the value it scales to |
| `search.dfy` | `Search` | the `search_files` predicate and `fuzzy_search` (rank, keep the top `limit`, cut at 60) |
| `pagination.dfy` | `Pagination` | `(n + 9) // 10` and Python slicing of a page |
| `callbacks.dfy` | `Callbacks` | the callback strings and the decoder that the `if`/`elif` chain of `handle_callbacks` amounts to |
| `keyboards.dfy` | `Keyboards` | `create_result_keyboard` and `create_filter_keyboard` (the latter as a method with the source's nested loops) |
| `handlers.dfy` | `Handlers` | what `handle_search` and `handle_callbacks` decide to show |
| `delete_queue.dfy` | `DeleteQueue` | the `delete_queue` collection as a class; `schedule_delete` and `auto_delete_job` |
| `tables.dfy` | `Tables` | the users collection and the files collection as classes; `index_channel` |

Where the behaviour is surprising it is modelled as written, and a lemma
states the consequence:

- A file named `...4k...` is stored with quality `"4K"`, but the 4K option
  of the quality menu filters on `"2160P"`.
- The year and season options send their value as text, while the catalog
  stores years and seasons as integers, so those options never find anything.
- The Back button and the page indicator have no branch in the callback
  handler, so pressing them only acknowledges the press.
- A query containing `_` shifts the fields of its callback strings: the
  query comes back cut short, or `int(...)` raises and the user sees the
  error alert.
- The page count is 0 when there are no matches.
- Choosing a filter loses it again on the next page: the results keyboard
  carries only the query.

## Model

| member | source | states |
|---|---|---|
| Text.Split | bot.py:361 | `str.split("_")` yields at least one part, and no part contains the separator |
| Text.SplitJoin | bot.py:361-363 | splitting parts joined by `_` gives back exactly those parts, when none contains `_` |
| Text.JoinSplit | bot.py:361 | joining the parts of a split with the separator rebuilds the string |
| Text.RemoveAllAbsent | bot.py:343 | `replace(p, "")` leaves a string without `p` unchanged |
| Text.UpperStrOfMatch | bot.py:75-77 | two strings equal up to case have the same upper-case form, so the stored quality does not depend on how the name spelt it |
| Text.NatToStringValue | bot.py:201 | the decimal digits `str(n)` writes read back as `n` |
| Text.ParseIntToString | bot.py:363 | `int(str(i)) == i` for every integer, negative ones included |
| Text.IntToStringHasNoSep | bot.py:152-157 | `str(i)` never contains `_`, so a page number never shifts fields |
| Text.IntToStringInjective | bot.py:154 | different integers print differently |
| Text.UntrimmedIsKept | bot.py:266 | `strip()` leaves a string alone when it neither starts nor ends with white space |
| Text.ParseInt | bot.py:363 | `int(...)` on text; stated by `ParseIntToString` (it reads back `str(i)`), `ParseDigits` and, through `YearAt` and `SeasonAt`, the numbers in file names |
| Text.ParseDigits | bot.py:80-93 | `int(...)` of a run of decimal digits is the number they spell |
| Text.IntToString | bot.py:152-157 | `str(i)`; stated by `ParseIntToString`, `IntToStringInjective` and `IntToStringHasNoSep` |
| Text.RemoveAll | bot.py:343 | `replace(p, "")` never lengthens the text; `RemoveAllAbsent` and `Callbacks.FuzzyPrefixRemovedTwice` state what it removes |
| FileInfo.FirstAlternative | bot.py:75 | the alternation matches at a position exactly when one of its tokens occurs there, and the token it returns is one of them |
| FileInfo.QualityAt | bot.py:75-77 | a quality match at a position yields one of `480P`, `720P`, `1080P`, `2160P`, `4K` |
| FileInfo.QualityAtCaptures | bot.py:75-77 | the quality pattern matches at a position iff one of its tokens occurs there ignoring case, and the value is the matched text of the name upper-cased |
| FileInfo.TokensUpperCase | bot.py:77 | upper-casing any quality token gives one of the five stored values |
| FileInfo.NoQualityAt | bot.py:75 | no quality starts at a character other than `4`, `7`, `1`, `2` |
| FileInfo.FourKCapturedAs4K | bot.py:75-77 | `4k` in any case stores the quality `4K`, never `2160P` |
| FileInfo.YearAt | bot.py:80-82 | `19dd` or `20dd` at a position is a match, any match is one of these, and its value is `int(...)` of the four matched characters, in 1900..2099 |
| FileInfo.SeasonAt | bot.py:91-93 | `s` or `S` followed by a digit at a position is a match, any match starts so, and its value is `int(...)` of the one or two digits after it (two when there are two), so lies in 0..99 |
| FileInfo.Leftmost | bot.py:75-93 | the scan returns the first position with a match, no position before it matches, and none means no position matches |
| FileInfo.SearchIsLeftmost | bot.py:75-93 | `re.search` yields the match at the leftmost matching position |
| FileInfo.SearchAbsent | bot.py:75-93 | `re.search` yields nothing when no position matches |
| FileInfo.LanguagesIn | bot.py:85-88 | a language is listed iff it is in the fixed list and its lower-case form occurs in the lower-cased file name |
| FileInfo.LanguagesInListOrder | bot.py:85-88 | the listed languages appear in the fixed list's order, each once |
| FileInfo.FileInfoLanguages | bot.py:85-88 | the languages `parse_file_info` reports for any name come from the fixed list, in its order, with no language twice |
| FileInfo.ParseFileInfo | bot.py:65-95 | the method, with the source's loop over the languages, returns the leftmost quality, year and season and the mentioned languages |
| FileInfo.ExtractionBounds | bot.py:67-95 | quality is absent or one of the five values, year in 1900..2099, season in 0..99, and every language is from the list |
| FileInfo.FileInfoOf | bot.py:65-95 | `parse_file_info` itself; what it returns is stated by `ParseFileInfo` (the method), `ExtractionBounds`, `FileInfoLanguages` and `ReleaseNameExample` |
| FileInfo.ReleaseNameExample | bot.py:65-95 | `Radha.2019.720p.Hindi.avi` gives quality `720P`, year 2019, languages `["Hindi"]` and no season |
| SizeFormat.UnitFrom | bot.py:99-103 | the unit index lies between the starting index and 5 (PB) |
| SizeFormat.UnitIsLeast | bot.py:99-103 | the unit is the least index whose threshold `1024^(k+1)` exceeds the size, or PB when none does |
| SizeFormat.FormatSize | bot.py:97-103 | the method's repeated division by 1024 picks that unit and scales the size by `1024^unit` |
| SizeFormat.ScaledInRange | bot.py:99-103 | below PB the scaled value is under 1024, and above B it is at least 1 |
| SizeFormat.FormatSizeExample | bot.py:97-103 | 734003200 bytes is 700 MB |
| Search.SearchFiles | bot.py:115-130 | a record is returned iff its name contains the query ignoring case and it equals every truthy quality/year/season filter and lists the language filter; no more records than the catalog |
| Search.SearchKeepsOrder | bot.py:129 | searching a concatenation is the concatenation of the searches, so results keep catalog order |
| Search.NameTestOnly | bot.py:117-127 | with no truthy filter only the name test applies, and an empty query returns the whole catalog |
| Search.TextYearOrSeasonMatchesNothing | bot.py:122-127 | a non-empty text value for `year` or `season` matches no record |
| Search.FourKNotFoundBy2160P | bot.py:120-121 | a record stored with quality `4K` fails the `2160P` filter |
| Search.Insert | bot.py:110 | inserting a candidate adds exactly it |
| Search.InsertKeepsDescending | bot.py:110 | insertion keeps scores in descending order |
| Search.Rank | bot.py:110 | ranking is a permutation of the candidates in descending score order |
| Search.AboveCutoff | bot.py:111 | a candidate is kept iff its score is strictly above 60 |
| Search.AboveCutoffKeepsOrder | bot.py:111 | the cutoff keeps the descending order |
| Search.AboveCutoffKeepsAll | bot.py:111 | the cutoff drops nothing when every score is above 60 |
| Search.TopCutoff | bot.py:110-111 | at most `limit` candidates are kept, each ranked and above 60, in descending order; a candidate above 60 is left out only when `limit` candidates scoring at least as much are kept |
| Search.CutOffCandidate | bot.py:110-111 | a candidate above 60 that is not kept means the kept list is full of candidates scoring at least as much |
| Search.InPool | bot.py:107-110 | every scored candidate is the name of one of the first 1000 records, with the scorer's score |
| Search.FuzzySearchSpec | bot.py:105-113 | at most `limit` suggestions, each the name of one of the first 1000 records, each scoring above 60, in descending score order |
| Search.FuzzySearch | bot.py:105-113 | `fuzzy_search`; what it returns is stated by `FuzzySearchSpec`, `TopCutoff` and `CutOffCandidate` |
| Pagination.TotalPages | bot.py:302 | the page count is the least `t` with `10t >= n`, so 0 for no results |
| Pagination.PySlice | bot.py:374 | a Python slice is never longer than the sequence |
| Pagination.PageOffsets | bot.py:369-374 | page `p >= 1` shows offsets `(p-1)*10` up to `min(n, p*10)`, empty past the end, at most ten records |
| Pagination.PageSlice | bot.py:367-374 | the records of page `p`; stated by `PageOffsets`, `PageNonEmptyIffCounted`, `PageZeroEmpty`, `MinusOnePage`, `PagesCoverAll` and `ThirdPageOfTwentyThree` |
| Pagination.PageNonEmptyIffCounted | bot.py:367-374 | page `p >= 1` is non-empty iff `p` is at most the page count |
| Pagination.PageZeroEmpty | bot.py:369-374 | page 0 shows nothing |
| Pagination.MinusOnePage | bot.py:369-374 | page -1 shows the records before the last ten, through Python's negative slicing |
| Pagination.PagesArePrefix | bot.py:369-374 | pages 1..k together are the first `10k` records |
| Pagination.PagesCoverAll | bot.py:367-374 | pages 1..page count together are all the results, each once, in order |
| Pagination.ThirdPageOfTwentyThree | bot.py:367-374 | 23 results make 3 pages, and page 3 shows offsets 20-22 |
| Callbacks.PageData | bot.py:152-157 | the page callback joins `page`, the query and the page number with `_` |
| Callbacks.FilterData | bot.py:138-143 | the filter callback joins `filter`, the kind, the query and the page with `_` |
| Callbacks.SetFilterData | bot.py:179-211 | the option callback joins `setfilter`, the kind, the value, the query and the page with `_` |
| Callbacks.BackData | bot.py:214 | the Back callback starts with `back_to_results_` |
| Callbacks.FuzzyData | bot.py:284 | the suggestion callback is `fuzzy_search_` followed by the suggestion |
| Callbacks.PageRoundTrip | bot.py:360-363 | a page callback decodes to its query and page when the query has no `_` |
| Callbacks.FilterRoundTrip | bot.py:382-386 | a filter callback decodes to its kind, query and page when neither has `_` |
| Callbacks.SetFilterRoundTrip | bot.py:395-400 | an option callback decodes to its kind, value, query and page when none has `_` |
| Callbacks.FuzzyRoundTrip | bot.py:342-343 | a suggestion callback decodes to the suggestion when it does not contain `fuzzy_search_` |
| Callbacks.FuzzyPrefixRemovedTwice | bot.py:343 | `replace` removes every occurrence of the prefix, so a suggestion that itself starts with it decodes as if it did not |
| Callbacks.BackIsUnhandled | bot.py:342-418 | the Back button falls through every branch of the handler |
| Callbacks.CurrentPageIsUnhandled | bot.py:154 | the page indicator falls through every branch of the handler |
| Callbacks.UnderscoreQueryNotRecovered | bot.py:360-363 | a page callback for a query containing `_` never decodes to that query and page |
| Callbacks.UnderscoreShiftsFields | bot.py:360-363 | for a query `a_b` the decoder reads `a` as the query and `b` as the page, and fails (the error alert at bot.py:420-422) when `b` is not a number |
| Callbacks.ParseCallback | bot.py:342-400 | the decoder the `if`/`elif` chain amounts to; stated by the four round-trip lemmas above, `BackIsUnhandled`, `CurrentPageIsUnhandled`, `UnderscoreQueryNotRecovered` and `UnderscoreShiftsFields` |
| Keyboards.NavRowDecodes | bot.py:149-159 | the navigation row has Prev to `page-1` iff `page > 1`, always the indicator, and Next to `page+1` iff `page < total`, and nothing else |
| Keyboards.NavRow | bot.py:149-159 | the navigation row; stated by `NavRowDecodes` |
| Keyboards.ResultKeyboard | bot.py:132-161 | the two filter rows then the navigation row; stated by `FilterButtonsDecode`, `NavRowDecodes` and `Handlers.SearchSendsFirstPage` |
| Keyboards.FilterButtonsDecode | bot.py:136-147 | the two filter rows open the quality, year, language and season menus for the same query and page |
| Keyboards.GridFlatten | bot.py:174-180 | reading the grid row by row gives the options in order |
| Keyboards.GridShape | bot.py:174-180 | every row of the grid is full except possibly the last |
| Keyboards.KindShape | bot.py:163-216 | a menu is its options laid out in its number of columns, then the Back row |
| Keyboards.FilterKeyboardShape | bot.py:163-216 | quality is 2+2, language 2+2+2, year 4+4, season 5+5+5, each followed by Back; any other kind is Back alone |
| Keyboards.FilterKeyboard | bot.py:163-216 | the option menu; stated by `KindShape`, `FilterKeyboardShape`, `YearChoices`, `FilterKeyboardDecodes` and the method `CreateFilterKeyboard` |
| Keyboards.YearChoices | bot.py:192-202 | the year menu offers exactly 2025 down to 2018 |
| Keyboards.ChoiceValueHasNoSep | bot.py:169-211 | no option value contains `_` |
| Keyboards.FilterKeyboardDecodes | bot.py:163-216 | every option decodes to setting its own value for the same query and page, and Back does nothing |
| Keyboards.BuildRow | bot.py:175-180 | the inner loop builds the next `cols` buttons, fewer at the end |
| Keyboards.CreateFilterKeyboard | bot.py:163-216 | the method's nested loops build exactly the menu described above |
| Handlers.NextShowsNextPage | bot.py:156-157 | below the last page the Next button is present, decodes to the next page, and that page is not empty |
| Handlers.YearAndSeasonOptionsFindNothing | bot.py:395-403 | every year or season option shows zero results |
| Handlers.FourKOptionMissesFourKFiles | bot.py:172 | the option captioned 4K filters on `2160P`, and no file stored as `4K` is in its results |
| Handlers.NextAfterFilterDropsFilter | bot.py:415 | after a filter is chosen, the Next button shows page 2 of the unfiltered search |
| Handlers.SuggestionButtonsDecode | bot.py:280-285 | one single-button row for each of the first five suggestions, and the button of suggestion `k` decodes to a fuzzy pick of exactly that suggestion when it does not contain `fuzzy_search_` |
| Handlers.SearchSendsFirstPage | bot.py:300-311 | a search that finds something sends what turning to page 1 would show, with no Prev and a Next iff there are more than ten matches |
| Handlers.SuggestionFindsItsRecord | bot.py:276-285 | pressing a suggestion searches for it and finds at least the record it came from |
| Handlers.HandleSearch | bot.py:258-330 | `handle_search`; stated by `SearchSendsFirstPage`, `SuggestionButtonsDecode` and `SuggestionFindsItsRecord` |
| Handlers.HandleCallback | bot.py:332-422 | `handle_callbacks`; stated by `NextShowsNextPage`, `YearAndSeasonOptionsFindNothing`, `FourKOptionMissesFourKFiles`, `NextAfterFilterDropsFilter` and `SuggestionFindsItsRecord` |
| DeleteQueue.Due | bot.py:231 | the picked-up entries are exactly those whose time is not after now |
| DeleteQueue.Pending | bot.py:231-239 | the surviving entries are exactly those whose time is after now |
| DeleteQueue.DuePendingPartition | bot.py:231-239 | due and pending entries together are the queue |
| DeleteQueue.WithoutDueIsPending | bot.py:233-239 | deleting every picked-up entry by `_id` leaves exactly the pending entries, in order |
| DeleteQueue.WithoutIdsMembers | bot.py:236-239 | `delete_one` by `_id` removes those entries and only them |
| DeleteQueue.WithoutIdsKeepsOrder | bot.py:236-239 | removing entries keeps the rest in insertion order |
| DeleteQueue.Failures | bot.py:234-239 | the failed deletions are exactly the picked-up entries whose call raised |
| DeleteQueue.SurvivesSweepIff | bot.py:218-239 | a message scheduled at clock time `t` with delay `d` survives a sweep at clock time `now` iff `now` cut to the millisecond is before `t` cut to the millisecond plus `d` minutes, and the entries queued before it are swept as before |
| DeleteQueue.BsonMillisShift | bot.py:220 | cutting a time to the millisecond commutes with adding whole minutes, so the stored `delete_time` is the scheduling time cut to the millisecond plus the delay |
| DeleteQueue.Scheduled | bot.py:218-225 | the inserted document's `delete_time` is the scheduling time cut to the millisecond plus `delay_minutes` minutes |
| DeleteQueue.SameMillisecondIsDue | bot.py:220-231 | an entry due 0.7 ms after a whole millisecond is deleted by a sweep 0.2 ms after it, before its time on the clock |
| DeleteQueue.PendingAppend | bot.py:221-231 | a newly scheduled entry survives a sweep iff it is not due, and the others are swept as before |
| DeleteQueue.DefaultDelaySweep | bot.py:218-231 | with the default delay a message is still queued after 14 minutes and gone after a sweep at 15 |
| DeleteQueue.Queue.ScheduleDelete | bot.py:218-225 | appends one entry due `delay` minutes (15 by default) after `now` cut to the millisecond, without deduplicating, returns the next id and advances the counter by one, so ids keep increasing |
| DeleteQueue.Sweep | bot.py:233-239 | the loop tries every due entry, collects the failures, and leaves exactly the pending entries |
| DeleteQueue.Queue.AutoDeleteJob | bot.py:227-241 | afterwards the queue holds exactly the entries not yet due at `now` cut to the millisecond, whether or not each deletion succeeded |
| Tables.UserTable.BanUser | bot.py:51-56 | the user is banned afterwards, whether or not they had a document, and nobody else changes |
| Tables.UserTable.UnbanUser | bot.py:58-63 | the user is not banned afterwards, and nobody else changes |
| Tables.Upserted | bot.py:502-515 | every record after the upsert is the new record or an old one |
| Tables.UpsertSpec | bot.py:502-515 | keys stay unique, the new record is present, other keys are kept, and the catalog grows iff the key was new |
| Tables.UpsertIdempotent | bot.py:502-515 | upserting the same record twice is the same as once |
| Tables.RecordOf | bot.py:500-513 | the stored document carries the message id, channel, name and size, and quality, year, languages and season are exactly those `parse_file_info` finds in the name |
| Tables.IndexedCompletesIff | bot.py:494-517 | indexing reaches the end of the history iff no document or video lacks a file name |
| Tables.IndexedRecords | bot.py:495-515 | indexing keeps keys unique, and each record it leaves was there before or comes from a document or video of the history |
| Tables.IndexedComplete | bot.py:492-517 | when indexing reaches the end of a history with distinct message ids, the record of every document or video is in the catalog, and so is every earlier record whose key no such message shares |
| Tables.Indexed | bot.py:492-517 | the `index_channel` loop as a function; what it leaves is stated by `IndexedCompletesIff`, `IndexedRecords`, `IndexedComplete` and `TextOnlyHistoryChangesNothing` |
| Tables.TextOnlyHistoryChangesNothing | bot.py:496 | a history with no documents or videos leaves the catalog as it was |
| Tables.Catalog.IndexChannel | bot.py:492-517 | the method's loop leaves the catalog indexing describes, keeps keys unique, and reports whether it reached the end |

## Left out

- Case-insensitive matching and `\d` are ASCII only here. Python's regular expressions fold the case of all of Unicode and accept any Unicode digit. `strip` and `int` likewise accept only ASCII white space and digits here. One consequence is not captured: under Unicode `IGNORECASE` the KELVIN SIGN (U+212A) matches `k`, so a name containing `4` followed by it yields a quality that `.upper()` leaves unchanged (bot.py:75-77), outside the five stored values the model allows.
- Search.SearchFiles: the query is matched as a literal substring. MongoDB treats it as a regular expression, so metacharacters change the match, and an invalid pattern raises ("Search failed" in the group, the error alert in a callback). For example, a suggestion such as `Movie (2019) [720p].mkv` does not match itself under `$regex`, so pressing it finds nothing, and a name with an unbalanced `(` makes the query raise; `Handlers.SuggestionFindsItsRecord` holds only for the literal match.
- Search.FuzzySearchSpec: the `token_sort_ratio` scorer is a parameter, because rapidfuzz is a foreign library. Among equal scores the model keeps catalog order, which assumes the library's sort is stable.
- SizeFormat.FormatSize: `:.1f` rendering of the scaled value is floating-point formatting and is not modelled. The unit choice and the exact quotient are.
- The clock (`datetime.utcnow()`) and the one-minute scheduler interval: `now` is a parameter, in microseconds. The queue stores and compares it as the driver encodes a BSON date, cut to the millisecond.
- Which deletions succeed is a parameter of `AutoDeleteJob`. A database error in `find` or `delete_one`, which the outer `try` would log, is not modelled.
- DeleteQueue.Queue.ScheduleDelete: MongoDB's `_id` is modelled as a counter that increases with every insert.
- Message texts, emoji captions, edits, the loading message, and the sending of results to the user's private chat (including the reply when that chat cannot be reached) are transport and are not modelled. Button captions keep only their words.
- The deletions that the handlers schedule for their own messages are not modelled.
- Telegram's 64-byte limit on callback data is not modelled.
- Tables.IndexedCompletesIff: the only failure modelled is a document or video without a file name. An exception from `get_chat_history` (bot.py:495) or from `update_one` (bot.py:502-515) also ends the loop through the same `except` (bot.py:516-517), and `addchannel` still replies that indexing is complete; neither is modelled. Pyrogram documents `get_chat_history` as available to user accounts only, so under a bot token the call may fail at once and index nothing.
- The order in which the chat history arrives (newest first) is whatever order `IndexChannel` is given.
- Concurrency (`workers=100`, a sweep overlapping a handler) is not modelled. Each operation runs alone.
- `start`, `broadcast`, `stats` and `addchannel`, the parsing of the `/ban` and `/unban` commands, the health-check web server and the environment configuration are plumbing outside this model. `addchannel` is represented only by the `index_channel` it calls.
