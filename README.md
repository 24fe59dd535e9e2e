# Stock scanner core, modelled in Dafny

This project models the deterministic core of a Korean stock scanner. The scanner is a
Discord bot backed by the Korea Investment & Securities (KIS) REST API and a SQLite cache.
It ranks KOSPI and KOSDAQ stocks by their return over a period and caches daily closes
and financial ratios. It also keeps per-user watchlists and looks for stocks that climb
back into the top group. An intraday scan flags MA3/MA5 golden crosses on 30-minute candles.

The model is split into modules that follow the program's files:

| module (file) | models |
|---|---|
| `Db` (db.dfy) | `DatabaseManager`, as a class whose fields are the three tables. `daily_prices` and `watchlist` are sequences in rowid order, with their UNIQUE keys as the class invariant. `financials` is a map. |
| `Ranking` (ranking.dfy) | The period-return ranking shared by `get_prices` and `get_prices_by_codes`. |
| `Kis` (kis.dfy) | The client side of kis_client.py: the `.env` reader, token cache and master-file parser; the record filters of the quote calls; name matching in `get_stock_info`; and the result, sort and truncate steps of `get_top_growth_stocks`. |
| `AnalysisEngine` (analysis.dfy) | `check_golden_cross`, the clean-up pipeline of `fetch_minute_ohlcv`, and `_strip_html`. |
| `Scanner` (scanner.dfy) | The main.py helpers: `validate_date`, `_find_stock`, `get_latest_data_file`, `find_reentry_stocks`, and the dedupe loop of `run_collection`. |
| `Dates` (dates.dfy) | Python's `datetime.date`: the proleptic Gregorian calendar for years 1 to 9999, `%Y%m%d` formatting and parsing, `timedelta` day steps, and the token-expiry timestamp. |
| `Text` (text.dfy) | The `str` operations the code relies on: `strip`, `isdigit`, `int()`, `split`, `in`, and code-point order. |
| `Seqs` (seqs.dfy) | Python slicing, comprehensions, first-occurrence dedupe, and the stable `list.sort`. |
| `Wrappers` (wrappers.dfy) | `Option` and `Result`. |

Conventions:

- **Boundaries are inputs.** An HTTP exchange is an input value: the status and the fields
  the endpoint sent. The clock (`now`, `today`), `os.path.abspath` and Python's
  `round(x, 2)` are parameters too.
- **Returns are exact.** A return percentage is an exact rational (`real`) passed through
  the `round` parameter.
- **Errors are values.** Python exceptions are `Err` values or `None`, named after the
  exception where the code lets one escape.
- **Code over prose.** For closes 10, 10, 10, 10, 10, 6 the detector's code reports "MA3
  still below MA5" and no signal. At the previous candle MA3 = MA5 = 10; at the last,
  MA3 = 26/3 is below MA5 = 46/5. A description of the program that would call this input
  a cross disagrees with the code. The model follows the code: `AnalysisEngine.DropExample`
  proves the verdict, and `AnalysisEngine.FlatThenDrop` covers the general shape.

## Model

Each row cites one stretch of source. Where the member models code that appears more than once, the row cites the first occurrence. Examples: the daily record loop at kis_client.py:320-334 is repeated for minutes at kis_client.py:374-388, and `strip()` is used at kis_client.py:37, 44, 213 and 220.

| member | source | states |
|---|---|---|
| Scanner.ValidateDate | main.py:46-54 | The result is the argument itself, exactly when it is eight ASCII digits and `strptime("%Y%m%d")` accepts it; otherwise None. |
| Scanner.ValidateDateCalendar | main.py:46-54 | A string is accepted iff it is the `YYYYMMDD` rendering of a real date: year 1-9999, month 1-12, and a day that exists in that month. |
| Scanner.FindStock | main.py:57-72 | No cache or an empty cache gives None. A six-digit query matches only by code and returns the first entry with that code, or None. Any other query returns the first exact name match, else the first name containing the query, else None. Every result is a cache entry. |
| Scanner.LatestDataFile | main.py:75-82 | None iff no file survives the exclusion. Otherwise the result is a surviving file that is greatest in string order among the survivors. |
| Scanner.LatestIsGreatest | main.py:78-82 | The last element of the sorted, filtered list is a kept file and the greatest kept file. The filtered list is empty iff nothing is kept. |
| Scanner.KeptSorted | main.py:78-81 | Filtering the sorted list equals sorting the filtered list. |
| Scanner.SortedLast | main.py:78-82 | `sorted(files)[-1]` is the greatest name. |
| Scanner.FirstWithCode | main.py:105-106 | `df[df.code == c].iloc[0]`: the index of the first row with code `c`. |
| Scanner.HasCodeFound | main.py:105-106 | When a code occurs, the first-match search finds it. |
| Scanner.EntryFor | main.py:107-118 | The row built for a code carries that code. |
| Scanner.EntryForPrevious | main.py:93-111 | The previous rank is `lower` plus the offset of the code's first row in the band. The previous return is that row's. |
| Scanner.EntryForCurrent | main.py:97-118 | The current rank is 1 plus the index of the code's first row in the current snapshot. Name, return, ROE and margin come from that row. |
| Scanner.FindReentryStocks | main.py:85-124 | Empty when the previous snapshot has fewer than `lower` rows. Each result code is in both the band `prev[lower-1:upper]` and the current snapshot, and every such code has a result. Codes are reported once each; every row is the one built for its code; current ranks strictly ascend. |
| Scanner.ReentryRows | main.py:103-119 | The loop over the code set gives one built row per code of the set, whatever order the set is walked in. |
| Scanner.ReentryStep | main.py:104-119 | One iteration keeps the loop invariant: the rows so far are the built rows of the visited codes, one each. |
| Scanner.ReentrySorted | main.py:121-123 | Sorting by current rank keeps the rows and their codes, and makes the ranks strictly ascend. |
| Scanner.ReentrySortedRows | main.py:121-122 | A rearrangement of the rows keeps the same codes, built rows and distinct codes. |
| Scanner.StrictRanks | main.py:97-122 | Built rows with distinct codes have distinct current ranks, so sorted they strictly ascend. This holds for pandas' unstable sort too. |
| Scanner.BuiltCodesDistinct | main.py:104-119 | Distinct built rows have distinct codes. |
| Scanner.CollectionParts | main.py:223-229 | The three lists walked: the KOSPI head, the KOSDAQ head, and the head of both markets re-sorted by return. |
| Scanner.CollectStep | main.py:231-233 | One row of the `seen` loop is `DedupeFirst` extended by one element, and `seen` stays the set of collected codes. |
| Scanner.CollectPart | main.py:230-233 | The inner loop over one list continues the first-occurrence dedupe of everything read before. |
| Scanner.CollectUnique | main.py:226-233 | The collected records are the first-occurrence dedupe, by code, of the three lists concatenated. |
| Scanner.CollectUniqueProperties | main.py:223-233 | The records have pairwise distinct codes, and every code of the three lists appears. Each record is the first occurrence of its code; records keep list order (KOSPI head, KOSDAQ head, combined head). |
| Kis.ParseEnvLine | kis_client.py:37-44 | An assigned key never contains `=`. |
| Kis.ParseEnvLineCases | kis_client.py:37-44 | Blank lines, `#` lines and lines without `=` are skipped. Every other line is assigned, split at its first `=` with both sides stripped. |
| Kis.ParseEnvLineRoundTrip | kis_client.py:37-44 | `key=value` parses back to the pair, even when the value holds further `=` signs. |
| Kis.LoadEntries | kis_client.py:36-47 | Variables set before are still set after the load. |
| Kis.LoadKeepsExisting | kis_client.py:45-47 | A variable already in the environment is never overwritten. |
| Kis.LoadFirstLineWins | kis_client.py:36-47 | Without a failing write, a new variable ends up set iff some line names it, with the value of the first such line. |
| Kis.LoadFailure | kis_client.py:46-47 | A load fails only at a line naming a new variable that `os.environ` refuses (an empty name or a NUL). |
| Kis.LoadStep | kis_client.py:36-47 | One line either leaves the variables alone, sets one new variable, or ends the load with a failure. |
| Kis.LoadEnv | kis_client.py:20-47 | A missing file changes nothing. Otherwise the environment becomes the result of applying the parsed lines in order, and the call fails exactly when a write fails. |
| Kis.TokenValidWindow | kis_client.py:137-150 | `_is_token_valid` (false without a token or an expiry, else `now < expiry - 1 minute`): a token valid now was valid at every earlier instant, and it is invalid from one minute before expiry on. |
| Kis.KisClient.GetAccessToken | kis_client.py:87-135 | A valid cached token is returned without an exchange. A non-200 exchange (or a body without a token) raises and leaves the token and expiry unchanged. On success the response token is stored. With a parseable expiry the token is returned and the expiry stored; otherwise the call raises and the old expiry stays. |
| Kis.FreshTokenValidity | kis_client.py:131-150 | After an exchange with expiry `E`, the new token is valid exactly until one minute before `E`. |
| Kis.Part2Len | kis_client.py:190-197 | A tail width exists exactly for markets `J` and `Q`. |
| Kis.ParseMasterLine | kis_client.py:218-223 | A parsed line yields a six-digit code. |
| Kis.MasterStocksShape | kis_client.py:211-224 | At most one stock per line, each with a six-digit code. |
| Kis.MasterStocksAppend | kis_client.py:211-224 | Lines are parsed independently and in order. |
| Kis.MasterLineRoundTrip | kis_client.py:213-224 | A line laid out in the master format (code, three blanks, twelve columns, name, tail) gives back its code and name. |
| Kis.DownloadStockList | kis_client.py:178-228 | A market other than J/Q raises `ValueError`; a non-200 download raises `RuntimeError`. Otherwise the result is the parsed stocks of the stripped, newline-split content. |
| Kis.ParseMasterLines | kis_client.py:211-224 | The parsing loop returns the stocks the lines describe. |
| Kis.LoadStockList | kis_client.py:457-466 | The cache is the KOSPI list followed by the KOSDAQ list. It fails iff a download fails. |
| Kis.ReadCloseCases | kis_client.py:269-270 | A close is absent iff the field is missing or empty, rejected iff `int()` fails on it, and otherwise it is `int()`'s value. |
| Kis.ValidCloses | kis_client.py:269-270 | The kept closes are positive, and there are no more of them than records. |
| Kis.ValidClosesErr | kis_client.py:269-270 | The comprehension raises iff some close is rejected by `int()`. |
| Kis.ValidClosesSpec | kis_client.py:269-270 | Without a raise, it keeps the positive closes in record order. |
| Kis.PeriodPrice | kis_client.py:256-278 | Prices come back only for an accepted response with at least two records, and both are positive. |
| Kis.PeriodPriceEndpoints | kis_client.py:263-278 | With at least two accepted records, the prices exist iff at least two closes are positive. The end price is the first (newest) such close, the start price the last (oldest). |
| Kis.PeriodPriceRaises | kis_client.py:263-270 | A close `int()` rejects among at least two accepted records raises. |
| Kis.ToBar | kis_client.py:326-333 | A bar carries the record's date or time and close. A missing open, high, low or volume reads as "0". |
| Kis.ReadBarCases | kis_client.py:322-325 | A record is kept iff it has a stamp and a close that `int()` reads as nonzero. It raises iff it has both and `int()` rejects the close. |
| Kis.ReadBars | kis_client.py:321-333 | One outcome per record. |
| Kis.CollectBars | kis_client.py:320-334 | The loop returns the bars of the kept records, in order, or nothing once a close raises (the `except` branch). |
| Kis.CheckRecord | kis_client.py:322-325 | The loop body's test decides exactly as `ReadBar` does. |
| Kis.GetDailyOhlcv | kis_client.py:280-337 | `get_daily_ohlcv` on the endpoint's answer: nothing unless accepted, else the kept bars. |
| Kis.GetMinuteOhlcv | kis_client.py:339-391 | The same for `get_minute_ohlcv`, with the minute fields. |
| Kis.OhlcvBars | kis_client.py:320-334 | Every returned bar is the bar of a kept record in the response, and there are no more bars than records. |
| Kis.KeptBarsAppend | kis_client.py:321-333 | Records keep their order. |
| Kis.MatchByName | kis_client.py:484-493 | `matched[0]` is the first exact name match; failing that, the first name containing the query; None iff no name contains the query. |
| Kis.ContainsSelf | kis_client.py:484-489 | An exact match is also found by the substring search. |
| Kis.GetStockInfo | kis_client.py:468-523 | An empty cache gives the "not loaded" error, and no match gives "not found". A result is the first match with its period prices, a positive start, the rounded return and the match's financials. A match with no prices gives the "no price data" error, and a match with prices always gives a result. A raise happens exactly when a match's price comprehension raises; the token refresh is left out. There is never a zero-start error. |
| Kis.FetchOne | kis_client.py:662-698 | A result exists iff both prices are known and the start is not zero. It carries the stock's code and name, the prices and the rounded return. |
| Kis.ItemResultRule | kis_client.py:662-698 | An item yields a result iff the endpoint gives both prices (then the start is positive). |
| Kis.ByGrowthDescPreorder | kis_client.py:712 | Comparing by return, largest first, is a total preorder. |
| Kis.PrefixIfGiven | kis_client.py:713-716 | The whole list when `n is None`. Otherwise a prefix of it, with min(n, len) elements for `n >= 0`. The same step cuts `stocks[:limit]` at kis_client.py:653-654. |
| Kis.GatherResults | kis_client.py:700-705 | The `as_completed` loop appends each non-None result in arrival order. |
| Kis.GatherMembers | kis_client.py:700-705 | The gathered results are exactly the results of the items that arrived. |
| Kis.ArrivalMembers | kis_client.py:700-705 | Over a completion order (each item once), they are the results of all items. |
| Kis.TopGrowthStocks | kis_client.py:648-716 | A failed stock-list download propagates. Otherwise, assuming the token refresh succeeds (it is left out), the result is the limited list's results in arrival order, stably sorted by return (largest first), then truncated. |
| Kis.TopGrowthRanking | kis_client.py:674-716 | Whatever the arrival order, the ranking holds a result for exactly the items with both prices and a nonzero start. It is sorted by return, largest first, and is a prefix of the full ranking: all of it unless `top_n` is given. |
| Db.Database.SaveDailyPrices | db.py:110-146 | An empty batch changes nothing. A record without a close raises `IntegrityError` and rolls back. Otherwise every record is `INSERT OR REPLACE`d: as a map the table becomes the old one overridden by the batch, where the batch's last record per key wins, and keys stay unique. The other tables are unchanged. |
| Db.ViewKeys | db.py:137-143 | The keyed view holds exactly the keys of the rows. |
| Db.ViewLast | db.py:137-143 | Each key maps to the last row with that key. |
| Db.ViewReplace | db.py:137-143 | A replace overwrites one key of the view. |
| Db.ViewReplaceAll | db.py:137-143 | A batch of replaces keeps keys unique and overrides the view by the batch's own view. |
| Db.ReplaceUnique | db.py:137-143 | A replace keeps `UNIQUE(날짜, 종목코드)`. |
| Db.Thresholds | db.py:163-171 | The thresholds fail exactly when a date does not parse or a shifted date leaves years 1 to 9999. |
| Db.ThresholdErrors | db.py:163-166 | A date that does not parse raises `ValueError`; a shift out of range raises `OverflowError`. |
| Db.ThresholdRule | db.py:163-171 | A period of more than fourteen days uses start+7 and end-7 days. A shorter one uses the dates themselves (this is `end_threshold <= start_threshold`). |
| Db.MinOf | db.py:180 | SQL `MIN` over text: NULL for no rows, else a least element in string order. |
| Db.MaxOf | db.py:180 | SQL `MAX` over text: NULL for no rows, else a greatest element in string order. |
| Db.CoveringIff | db.py:176-184 | `HAVING MIN(날짜) <= lo AND MAX(날짜) >= hi` holds iff the code's whole stored history has a row no later than `lo` and one no earlier than `hi`. |
| Db.Database.CachedStockCodes | db.py:148-186 | Threshold errors propagate. Otherwise the codes returned are exactly those whose stored rows reach back to the start threshold and forward to the end threshold. |
| Db.Database.HasData | db.py:322-333 | True iff some row's date lies in the period. |
| Db.GroupStepOld | db.py:223-232 | A row whose code is in the dict appends its `(날짜, 종가)` to that entry. |
| Db.GroupStepNew | db.py:225-232 | A row with a new code opens an entry with its name, market and day. |
| Db.GroupRows | db.py:222-232 | The grouping loop builds the dict that stands for `Ranking.Groups` of the rows, in insertion order. |
| Db.GroupEntry | db.py:236-249 | One pass of the results loop yields exactly the per-group rule's entry for that code. |
| Db.CollectResults | db.py:234-251 | The results loop collects each group's entry, in dict order. |
| Db.RankRows | db.py:222-253 | Grouping, collecting and the descending sort give the ranking. |
| Db.Database.GetPrices | db.py:188-256 | The window's rows, of one market when a non-empty market is given, are ranked and cut to `top_n` when it is truthy. |
| Db.Database.GetPricesByCodes | db.py:258-320 | Empty for no codes. Otherwise the window's rows of the listed codes are ranked, with no truncation. |
| Db.ByCodesDays | db.py:270-298 | Restricted to a listed code, the rows `get_prices_by_codes` reads are those `get_prices` reads without a market. |
| Db.ByCodesRanked | db.py:258-320 | A listed code is ranked by `get_prices_by_codes` iff `get_prices` ranks it, with the same earliest and latest close. |
| Db.Database.SaveFinancials | db.py:375-406 | Every record is `INSERT OR REPLACE`d, stamped today. The last record naming a code decides its row; codes no record names keep their row or their absence. The other tables are unchanged. |
| Db.FinAfterUntouched | db.py:397-402 | A code no record names keeps its row, or its absence. |
| Db.FinAfterLast | db.py:397-402 | The last record naming a code decides its row. |
| Db.Database.GetFinancials | db.py:408-439 | Empty for no codes. Otherwise exactly the listed codes with a row, mapped to their ratios. |
| Db.Database.AddWatchlist | db.py:443-467 | Returns true iff the key `(user_id, platform, code)` was absent; then the row is appended, otherwise the table is unchanged. The key is present afterwards, keys stay unique, and the other tables are unchanged. |
| Db.Database.RemoveWatchlist | db.py:469-491 | Returns true iff the key was present. Exactly the rows of that key go (one at most), so the key is absent afterwards and the other rows stay in order. |
| Db.RemoveCount | db.py:483-489 | Deleting a key from a table with unique keys removes one row when it is present and none otherwise. |
| Db.AddThenRemove | db.py:459-489 | Adding a new key and removing it gives the table back. |
| Db.Database.GetWatchlist | db.py:524-552 | The items are exactly that user's rows on that platform (as a multiset), ordered by 등록일. |
| Db.ByAddedPreorder | db.py:540 | `ORDER BY 등록일` is a total preorder. |
| Db.ByPlatformUserPreorder | db.py:505 | `ORDER BY platform, user_id` is a total preorder. |
| Db.GroupedSnoc | db.py:509-519 | One iteration keeps the nested dict matching the rows read so far. |
| Db.GroupedOfMatches | db.py:508-519 | After the loop, the dict holds exactly the platforms and users of the rows, each user's entries in reading order. |
| Db.SortedOwnerRows | db.py:503-506 | One user's rows tie under `ORDER BY platform, user_id`, so their order is the table order. |
| Db.GroupedUnsorted | db.py:503-519 | The grouping does not depend on the sort that precedes it. |
| Db.Database.GetAllWatchlistGrouped | db.py:493-522 | Every row is placed once under `grouped[platform][user_id]`. Each user's entries are that user's rows in table order, and there are no other platforms or users. |
| Ranking.GroupsDistinct | db.py:222-232 | The `stocks` dict has one entry per code. |
| Ranking.GroupsCover | db.py:222-232 | Every code of the rows has an entry, and only those. |
| Ranking.GroupsContent | db.py:222-232 | An entry holds every day of its code, with the name and market of the code's first row. |
| Ranking.GroupsSnocNew | db.py:225-232 | A row of a new code opens an entry at the end. |
| Ranking.GroupsSnocOld | db.py:232 | A row of a known code extends that entry's days only. |
| Ranking.DayLeTotalOrder | db.py:236 | Tuple order on `(날짜, 종가)` is a total order. |
| Ranking.SortedDaysEnds | db.py:236-240 | After `sorted(days)` the first day is the earliest and the last the latest. |
| Ranking.RankEntry | db.py:236-242 | A group yields an entry iff it has at least two days and a nonzero earliest close. |
| Ranking.RankEntryFields | db.py:236-251 | An entry carries its group's code, name and market, the closes of its earliest and latest days, and the rounded return between them. |
| Ranking.ByRateDescPreorder | db.py:253 | Comparing by return, highest first, is a total preorder. |
| Ranking.Truncate | db.py:254-255 | `if top_n:` keeps everything for None and 0. Any other `top_n` is truthy and gives `results[:top_n]`, a prefix: a positive `top_n` keeps min(top_n, len) entries, and a negative one drops the last -top_n entries (none left if there are fewer). |
| Ranking.RankMembers | db.py:221-251 | A code with rows in the window is ranked iff its days qualify (at least two, nonzero earliest close). |
| Ranking.RankEntries | db.py:234-253 | The ranking's entries are exactly the groups' entries. |
| Ranking.RankHolds | db.py:234-253 | A group's code is ranked exactly when the group yields an entry, and then by that entry. |
| Ranking.RankEntryOf | db.py:221-251 | A ranked code's entry is what the per-group rule makes of exactly that code's days. |
| Ranking.EntryGroup | db.py:221-251 | A ranked code's entry comes from a group holding that code's days. |
| Ranking.RankSameDays | db.py:221-251 | Two row sets that give a code the same days rank it alike. |
| Ranking.SameDaysSameEnds | db.py:236-243 | An entry's closes and return depend only on its group's days. |
| Ranking.RankOrdered | db.py:253 | The ranking is sorted highest first, and among equal returns it keeps first-appearance order. |
| Ranking.DaysPresent | db.py:222-232 | A code has days iff it has rows. |
| AnalysisEngine.ToNumeric | analysis_engine.py:103-104 | `to_numeric(errors="coerce")` on the integer text the minute endpoint sends: a number iff `int()` reads the text, and then it is that number. Decimal and exponent text is treated differently from pandas; see "## Left out". |
| AnalysisEngine.ToCandle | analysis_engine.py:92-104 | A bar's time becomes `datetime` and its close and volume are converted. |
| AnalysisEngine.ByTimePreorder | analysis_engine.py:108 | String order on times is a total preorder that ties only equal times. |
| AnalysisEngine.Tail | analysis_engine.py:111-112 | `tail(n)` is a suffix of length min(n, len). A negative `n` drops the first -n rows. |
| AnalysisEngine.FetchMinuteOhlcv | analysis_engine.py:59-114 | Assuming the token refresh succeeds (it is left out): no bars give an empty frame. Otherwise the bars become candles, which are de-duplicated, sorted and cut. |
| AnalysisEngine.DedupeCount | analysis_engine.py:107 | The de-duplicated frame has one row per distinct time. |
| AnalysisEngine.DedupeSameTime | analysis_engine.py:107 | Two de-duplicated rows with the same time are the same row. |
| AnalysisEngine.CleanCandlesOrdered | analysis_engine.py:106-108 | Times strictly ascend and each input time appears exactly once. |
| AnalysisEngine.CleanCandlesFirstWins | analysis_engine.py:107 | Each kept row is the first row with its time. |
| AnalysisEngine.CleanCandlesAnySort | analysis_engine.py:108 | Any sort of the de-duplicated rows, stable or not, gives the same frame. |
| AnalysisEngine.MinuteFrameLatest | analysis_engine.py:106-112 | The frame keeps the latest min(`num_candles`, distinct times) candles, in ascending order. |
| AnalysisEngine.SumOf | analysis_engine.py:144-145 | A window sum exists iff no close in it is NaN. |
| AnalysisEngine.RollingMean | analysis_engine.py:144-145 | `rolling(w).mean()` at row `i` exists iff `w` rows end at `i` and none of their closes is NaN. |
| AnalysisEngine.MeanAt3 | analysis_engine.py:144 | MA3 at `i` is the mean of closes `i-2..i`. |
| AnalysisEngine.MeanAt5 | analysis_engine.py:145 | MA5 at `i` is the mean of closes `i-4..i`. |
| AnalysisEngine.MeanCompare | analysis_engine.py:164-165 | On integer closes, MA3 > MA5 iff 5·(sum of three) > 3·(sum of five). |
| AnalysisEngine.ShortAboveMeans | analysis_engine.py:144-165 | With five numeric closes both averages exist, and MA3 > MA5 is the integer comparison. |
| AnalysisEngine.CheckGoldenCross | analysis_engine.py:119-176 | A signal is raised iff the reason is the golden cross. Fewer than six candles give exactly the insufficient-data result, everything None. Otherwise the reported time and close are the last candle's. |
| AnalysisEngine.CrossCriterion | analysis_engine.py:144-174 | With six numeric closes both averages exist on both candles. The signal is raised iff MA3 <= MA5 before and MA3 > MA5 now. "Already above" holds iff MA3 > MA5 before, "still below" otherwise; exactly one of the three reasons holds. |
| AnalysisEngine.LatestUnavailable | analysis_engine.py:155-157 | "MA unavailable" iff one of the last five closes is NaN. |
| AnalysisEngine.PreviousUnavailable | analysis_engine.py:159-161 | With the last five closes numeric, "previous MA unavailable" iff the sixth-from-last close is NaN. |
| AnalysisEngine.PreviousWindows | analysis_engine.py:144-161 | Which of the four averages five numeric closes leave defined. |
| AnalysisEngine.RollingMeanPrefix | analysis_engine.py:144-145 | Appending rows leaves earlier averages unchanged. |
| AnalysisEngine.NoRepeatedSignal | analysis_engine.py:163-174 | After a signal, one more candle never signals again. |
| AnalysisEngine.FallingNoSignal | analysis_engine.py:163-174 | Strictly falling closes never signal. |
| AnalysisEngine.FlatThenRise | analysis_engine.py:163-169 | Five equal closes followed by a higher one is a cross. |
| AnalysisEngine.FlatThenDrop | analysis_engine.py:163-174 | Five equal closes followed by a lower one is "still below", not a cross. |
| AnalysisEngine.DropExample | analysis_engine.py:163-174 | Closes 10, 10, 10, 10, 10, 6 give "still below" and no signal. |
| AnalysisEngine.TagEnd | analysis_engine.py:183 | A match of `<[^>]+>` at the front: it ends at the first `>` after at least one other character, and there is none exactly when no such `>` follows. |
| AnalysisEngine.TagEndIsTag | analysis_engine.py:183 | What `TagEnd` finds is a match of the pattern. |
| AnalysisEngine.StripHtml | analysis_engine.py:181-183 | The substitution only shortens the text. |
| AnalysisEngine.StripHtmlNoAngle | analysis_engine.py:181-183 | Text without `<` is unchanged. |
| AnalysisEngine.StripHtmlChars | analysis_engine.py:181-183 | Every output character occurs in the input. |
| AnalysisEngine.StripHtmlNoTag | analysis_engine.py:181-183 | The output holds no `<`, one or more non-`>` characters, `>`. |
| AnalysisEngine.StripHtmlFixed | analysis_engine.py:181-183 | Text without tags is a fixed point. |
| AnalysisEngine.StripHtmlIdempotent | analysis_engine.py:181-183 | Stripping twice is stripping once. |
| Dates.DaysInMonth | main.py:51 | A month has 28 to 31 days. |
| Dates.Ordinal | db.py:165-166 | `toordinal`: at least 1. |
| Dates.NextDay | db.py:165 | The next day is valid with an ordinal one higher; there is none after 9999-12-31. |
| Dates.PrevDay | db.py:166 | The previous day is valid with an ordinal one lower; there is none before 0001-01-01. |
| Dates.AddDays | db.py:165-166 | `d + timedelta(days=n)` is valid with its ordinal shifted by `n`. |
| Dates.AddDaysDefined | db.py:165-166 | It fails (`OverflowError`) exactly when the target ordinal lies outside years 1 to 9999. |
| Dates.OrdinalOrder | db.py:169 | Calendar order is ordinal order. |
| Dates.Format8 | db.py:165-166 | `strftime("%Y%m%d")` is eight digits. |
| Dates.Parse8 | main.py:51 | `strptime(s, "%Y%m%d")` on eight digits yields a valid date. |
| Dates.Strptime8 | main.py:51 | A parsed date formats back to the string it came from. |
| Dates.ParseFormat8 | db.py:163-166 | Formatting a date then parsing gives the date back. |
| Dates.FormatParse8 | db.py:163-166 | Parsing then formatting gives the string back. |
| Dates.DateKeyOrder | db.py:169 | `YYYYMMDD` as a number orders dates chronologically. |
| Dates.LexIsChronological | db.py:169 | For valid dates, string `<` and `<=` on `YYYYMMDD` are chronological `<` and `<=`. |
| Dates.ParseTimestamp | kis_client.py:131-133 | A parsed timestamp has the `YYYY-MM-DD HH:MM:SS` shape. |
| Dates.ParseFormatTimestamp | kis_client.py:131-133 | The expiry string the token endpoint sends parses to the instant it names. |
| Text.Strip | kis_client.py:37 | `strip()` is a substring with no whitespace at either end, and is empty iff the text is all whitespace. |
| Text.StripPadded | kis_client.py:37-44 | Whitespace around an already stripped text is removed exactly. |
| Text.StripIdempotent | kis_client.py:37-44 | Stripping twice is stripping once. |
| Text.LStrip | kis_client.py:37 | `lstrip()` removes exactly the leading whitespace. |
| Text.RStrip | kis_client.py:219 | `rstrip()` removes exactly the trailing whitespace. |
| Text.ParseIntDigits | kis_client.py:270 | `int()` of a digit string is its value. |
| Text.ParseIntRoundTrip | kis_client.py:270 | `int(str(n)) == n`. |
| Text.IndexOf | kis_client.py:43 | `find` gives the first position of the character, or none when it is absent. |
| Text.Split | kis_client.py:209 | `split(c)` gives at least one part, and no part holds `c`. |
| Text.JoinSplit | kis_client.py:209 | Joining the parts gives the text back. |
| Text.SplitJoin | kis_client.py:209 | Splitting a join of `c`-free parts gives the parts back. |
| Text.LexLeTotalOrder | db.py:180 | String `<=` is a total order. |
| Text.LexLessDigits | db.py:169-180 | For digit strings of one length, string order is numeric order. |
| Seqs.PyPrefix | main.py:227-229 | `s[:n]` is a prefix, of length min(n, len) for `n >= 0`. |
| Seqs.FirstWhere | main.py:62-71 | The first index satisfying the test, with none before it; None iff no element does. |
| Seqs.FilterMembers | main.py:81 | A comprehension keeps exactly the elements passing its test. |
| Seqs.HarvestMembers | db.py:234-251 | A value is collected iff the rule makes it of some element. |
| Seqs.DedupeOrder | main.py:226-233 | The dedupe keeps exactly the first occurrence of every key, in input order. |
| Seqs.DedupeMembers | main.py:226-233 | The dedupe keeps every key and adds no element. |
| Seqs.SortBySorted | db.py:236-253 | The sort's output is sorted. |
| Seqs.SortBy | db.py:236-253 | The sort's output is a permutation of its input. |
| Seqs.SortByStable | db.py:253 | Stability: elements ranked equal keep their input order. |
| Seqs.SortByFilter | db.py:503-519 | Sorting then filtering equals filtering then sorting. |
| Seqs.SortedUnique | main.py:122 | Without ties, every sorted permutation is the same, so an unstable sort agrees with the stable one. |

## Left out

- **HTTP and encoding.** HTTP requests, the zip download and cp949 decoding are left out; each response is an input value. For the same reason `check_connection` and `_get_financial_data` are not modelled: they only build requests and read responses. `set_header` also builds a request, but it first refreshes the token when the token is not valid (kis_client.py:165-166). That refresh is modelled on its own as Kis.KisClient.GetAccessToken; what its omission leaves out of each quote call is listed below. `add_financial_data` is a thread pool around `_get_financial_data`; the model takes its output as the input of `save_financials`.
- **Chat, files and news.** The Discord bot layer is left out: commands, the permission check, the auto-scan loop and message text. So are the CSV, Excel and chart writers and the Naver news fetch. These are I/O with no decision of their own.
- **Concurrency.** Threads, locks, `time.sleep` and the asyncio semaphore are left out. The token manager is modelled sequentially. The `as_completed` order is a parameter (`arrival`, any order in which each item appears once).
- **Floating point.** `round(x, 2)` is an uninterpreted parameter `round`, applied to the exact quotient. Pandas' float error in `rolling().mean()` is not modelled; the means are exact rationals.
- **Parameters for the environment.** The clock (`now` in microseconds, `today` as a string), `os.path.abspath` and the glob result are parameters.
- **Unused `run_collection` steps.** `run_collection`'s downloads, its `save_prices` calls and its count are not modelled; only the dedupe (and the lists it walks) are.
- **Schema and legacy calls.** The SQL schema creation, the watchlist migration and the legacy `save_prices` are not modelled. The tables start empty; `save_prices` writes a table nothing here reads.
- **Row order.** The model assumes SQLite returns rows of an unordered `SELECT` in rowid order. It also assumes that `ORDER BY` keeps rowid order among rows that tie on the sort key. Examples: `ORDER BY platform, user_id` in `get_all_watchlist_grouped`, which Db.SortedOwnerRows relies on, and `ORDER BY 등록일` in `get_watchlist`. SQLite does not promise either order. `INSERT OR REPLACE` is modelled as SQLite does it: delete the conflicting row, then append the new row with a fresh rowid.
- **CHECK, types and `NOT NULL`.** `roe`/`margin` columns and the financial ratios are `Option<real>`; `float()` parsing is not modelled. Only `종가 NOT NULL` of `daily_prices` is checked.
- Scanner.FindReentryStocks: the set `reentry_codes` is walked in an order the model leaves open (`ReentryRows` works for every order). Its result is the same either way, because the current ranks are distinct.
- Scanner.CollectionParts: `combined_all.sort_values(ascending=False)` is pandas' default quicksort, which is not stable. The model sorts stably, so among stocks with equal returns the model fixes an order that pandas does not promise.
- Scanner.ValidateDate: Python's `isdigit` and `int()` also accept non-ASCII digits; the model accepts only `0`-`9`.
- Scanner.FindStock: `query.isdigit()` (main.py:61) also accepts non-ASCII digits. The model treats only six ASCII digits as a code query, so a six-character query of other digits is matched by name here.
- Kis.ParseMasterLine: `short_code.isdigit()` (kis_client.py:223) also accepts non-ASCII digits. The model keeps only codes of six ASCII digits.
- AnalysisEngine.ToNumeric: pandas converts decimal and exponent text (`"1.5"`, `"1e3"`, `"70000.0"`) to a float. The model reads only what `int()` reads, and everything else becomes NaN. A close written that way would make `check_golden_cross` report "MA unavailable" in the model, where pandas computes the averages. `Num` holds an integer because the minute endpoint sends prices and volumes as integer text.
- Kis.PeriodPrice: `_get_period_price` calls `set_header` (kis_client.py:244), which calls `get_access_token()` when the token is not valid (kis_client.py:165-166). That call sits outside the `try`. The `RuntimeError`, `KeyError` or `ValueError` it can raise (kis_client.py:121-133) is not modelled. The model returns its result as if the token were valid.
- Kis.GetDailyOhlcv: the same `set_header` refresh (kis_client.py:300) sits outside the `try` and is not modelled. Its raise propagates in the source, where the model returns what the response gives, or the empty list.
- Kis.GetMinuteOhlcv: the same `set_header` refresh (kis_client.py:355) sits outside the `try` and is not modelled, with the same consequence.
- Kis.GetStockInfo: the `self.get_access_token()` call after a match (kis_client.py:497) is not modelled. Neither is the `RuntimeError`, `KeyError` or `ValueError` it can raise (kis_client.py:121-133). The token refresh is modelled on its own as Kis.KisClient.GetAccessToken. The contract describes the run in which that call returns a token.
- Kis.TopGrowthStocks: the `self.get_access_token()` call at the start (kis_client.py:649) and its raise are not modelled, for the same reason. Neither is the token state it updates.
- AnalysisEngine.FetchMinuteOhlcv: the `client.get_access_token()` call at analysis_engine.py:79 is not modelled, and neither is its raise. That call sits outside the `try`, so a raise there would propagate instead of giving an empty frame.
- Dates.ParseTimestamp: `strptime(s, "%Y-%m-%d %H:%M:%S")` also accepts fields without zero-padding (`"2024-1-5 9:3:0"`), and whitespace runs where the format has a space. The model reads only the zero-padded form the token endpoint documents, and it fails on the others where Python would store an expiry.
- Kis.KisClient.GetAccessToken: for the same reason, an expiry string without zero-padding makes the model's exchange raise where Python stores the expiry.
- Dates.Strptime8: `strptime(s, "%Y%m%d")` also accepts strings shorter than eight characters, with unpadded month or day (`"2024011"`). The model reads exactly eight digits. Every caller in the source passes the output of `validate_date` first (main.py:459, 493 and 530), which requires eight digits, so the difference does not show.
- Db.Thresholds: db.py:163-164 parses its dates with that same `strptime`, so the restriction of Dates.Strptime8 applies. It does not show, because the callers validate first.
- Text.ParseInt: the underscores `int()` allows between digits (`1_000`) are not accepted, nor are non-ASCII digits.
- Kis.KisClient.GetAccessToken: the second validity check under the lock is the same check as the first in a sequential run, so it is not repeated.
- AnalysisEngine.CheckGoldenCross: the reported `ma3`/`ma5` are the averages through the `round` parameter; the reported `close` is the numeric cell and not `float()` of it.
