/**
 * The bot-side helpers of main.py that decide something on their own: validating a
 * `YYYYMMDD` argument, finding a stock by code or name in the client's master cache,
 * picking the newest combined-analysis file, diffing two ranking snapshots for stocks
 * that climbed back from the lower band into the top group, and the first-occurrence
 * dedupe that collects the records whose financials are fetched.
 */
module Scanner {
  import opened Wrappers
  import opened Text
  import opened Seqs
  import opened Dates
  import opened Kis

  /** `config.TOP_N`, `config.REENTRY_LOWER`, `config.REENTRY_UPPER`. */
  const DefaultTopN := 100
  const DefaultReentryLower := 51
  const DefaultReentryUpper := 100

  // ================================================================ `validate_date`

  /** The argument back when it is eight ASCII digits naming an existing date. */
  function ValidateDate(s: string): (r: Option<string>)
    ensures r.Some? ==> r.value == s && |s| == 8 && IsDigits(s)
    ensures r.Some? ==> Strptime8(s).Some? && Format8(Strptime8(s).value) == s
    ensures r.None? ==> |s| != 8 || !IsDigits(s) || Strptime8(s).None?
  {
    if |s| == 0 || |s| != 8 || !IsDigits(s) then None
    else match Strptime8(s)
      case None => None
      case Some(_) => Some(s)
  }

  /** `validate_date` accepts exactly the strings `strftime("%Y%m%d")` renders for some date
      with year 1 to 9999, month 1 to 12 and a day that exists in that month. */
  lemma {:induction false} ValidateDateCalendar(s: string)
    ensures ValidateDate(s).Some? <==> exists d :: Valid(d) && Format8(d) == s
  {
    if ValidateDate(s).Some? {
      var d := Strptime8(s).value;
      assert Valid(d) && Format8(d) == s;
    } else {
      forall d | Valid(d) && Format8(d) == s ensures false {
        ParseFormat8(d);
      }
    }
  }

  // ================================================================ `_find_stock`

  /** Six ASCII digits: a query `_find_stock` reads as a code and never as a name. */
  predicate IsCodeQuery(query: string) {
    |query| == 6 && IsDigits(query)
  }

  /** `_find_stock` over the client's `_stock_cache` (`None`: no cache attribute). */
  function FindStock(cache: Option<seq<Stock>>, query: string): (r: Option<Stock>)
    ensures cache.None? || cache.value == [] ==> r.None?
    ensures r.Some? ==> cache.Some? && r.value in cache.value
    // a code query: the first entry with that code, or nothing
    ensures cache.Some? && IsCodeQuery(query) ==>
      (r.Some? <==> exists i :: 0 <= i < |cache.value| && cache.value[i].code == query)
    ensures cache.Some? && IsCodeQuery(query) && r.Some? ==>
      exists i :: 0 <= i < |cache.value| && cache.value[i] == r.value && r.value.code == query
        && forall j :: 0 <= j < i ==> cache.value[j].code != query
    // a name query: the first exact name, else the first name containing the query
    ensures cache.Some? && !IsCodeQuery(query) && (exists i :: 0 <= i < |cache.value| && cache.value[i].name == query) ==>
      r.Some? && exists i :: (0 <= i < |cache.value| && cache.value[i] == r.value && r.value.name == query
        && forall j :: 0 <= j < i ==> cache.value[j].name != query)
    ensures cache.Some? && !IsCodeQuery(query) && (forall i :: 0 <= i < |cache.value| ==> cache.value[i].name != query) && r.Some? ==>
      exists i :: 0 <= i < |cache.value| && cache.value[i] == r.value && Contains(r.value.name, query)
        && forall j :: 0 <= j < i ==> !Contains(cache.value[j].name, query)
    ensures cache.Some? && !IsCodeQuery(query) ==>
      (r.None? <==> forall i :: 0 <= i < |cache.value| ==> !Contains(cache.value[i].name, query))
  {
    if cache.None? || cache.value == [] then None
    else if IsCodeQuery(query) then
      match FirstWhere(cache.value, (s: Stock) => s.code == query)
      case Some(i) => Some(cache.value[i])
      case None => None
    else MatchByName(cache.value, query)
  }

  // ================================================================ `get_latest_data_file`

  /** The files `get_latest_data_file` still considers: all of them unless a non-empty
      `exclude_file` is given, else those whose absolute path differs from its one. */
  function Kept(exclude: Option<string>, abspath: string -> string): string -> bool {
    (f: string) => exclude.None? || exclude.value == "" || abspath(f) != abspath(exclude.value)
  }

  function ByName(): (string, string) -> bool {
    (a: string, b: string) => LexLe(a, b)
  }

  /** `files[-1]` of the sorted, filtered glob result, over the given file list. */
  function LatestDataFile(files: seq<string>, exclude: Option<string>, abspath: string -> string): (r: Option<string>)
    ensures r.None? <==> forall f :: f in files ==> !Kept(exclude, abspath)(f)
    ensures r.Some? ==> r.value in files && Kept(exclude, abspath)(r.value)
    ensures r.Some? ==> forall f :: f in files && Kept(exclude, abspath)(f) ==> LexLe(f, r.value)
  {
    var sorted := SortBy(files, ByName());
    var kept := if exclude.Some? && exclude.value != "" then Filter(sorted, Kept(exclude, abspath)) else sorted;
    LatestIsGreatest(files, exclude, abspath, kept);
    if |kept| == 0 then None else Some(kept[|kept| - 1])
  }

  /** The filtered sorted list is the sorted list of kept files, so its last is the greatest. */
  lemma {:induction false} LatestIsGreatest(files: seq<string>, exclude: Option<string>, abspath: string -> string, kept: seq<string>)
    requires kept == if exclude.Some? && exclude.value != "" then Filter(SortBy(files, ByName()), Kept(exclude, abspath))
      else SortBy(files, ByName())
    ensures |kept| == 0 <==> forall f :: f in files ==> !Kept(exclude, abspath)(f)
    ensures |kept| > 0 ==> kept[|kept| - 1] in files && Kept(exclude, abspath)(kept[|kept| - 1])
    ensures |kept| > 0 ==> forall f :: f in files && Kept(exclude, abspath)(f) ==> LexLe(f, kept[|kept| - 1])
  {
    var keep := Kept(exclude, abspath);
    var cands := Filter(files, keep);
    KeptSorted(files, exclude, abspath, kept);
    FilterMembers(files, keep);
    SortedLast(cands, kept);
  }

  /** The last of the sorted names is the greatest. */
  lemma {:induction false} SortedLast(cands: seq<string>, kept: seq<string>)
    requires kept == SortBy(cands, ByName())
    ensures |kept| == 0 <==> |cands| == 0
    ensures |kept| > 0 ==> kept[|kept| - 1] in cands && forall f :: f in cands ==> LexLe(f, kept[|kept| - 1])
  {
    if |kept| > 0 {
      LexLeTotalOrder();
      SortByEnds(cands, ByName());
    }
  }

  /** Dropping the excluded file from the sorted list sorts the kept files. */
  lemma {:induction false} KeptSorted(files: seq<string>, exclude: Option<string>, abspath: string -> string, kept: seq<string>)
    requires kept == if exclude.Some? && exclude.value != "" then Filter(SortBy(files, ByName()), Kept(exclude, abspath))
      else SortBy(files, ByName())
    ensures kept == SortBy(Filter(files, Kept(exclude, abspath)), ByName())
  {
    var keep := Kept(exclude, abspath);
    if exclude.Some? && exclude.value != "" {
      LexLeTotalOrder();
      SortByFilter(files, ByName(), keep);
    } else {
      FilterAll(files, keep);
    }
  }

  /** Filtering by a predicate every element meets keeps the sequence. */
  lemma {:induction false} FilterAll<T(!new)>(s: seq<T>, p: T -> bool)
    requires forall x :: x in s ==> p(x)
    ensures Filter(s, p) == s
  {
    if |s| > 0 {
      assert s[1..] == s[1..];
      assert forall x :: x in s[1..] ==> x in s;
      FilterAll(s[1..], p);
      assert s == [s[0]] + s[1..];
    }
  }

  // ================================================================ `find_reentry_stocks`

  /** One row of a saved ranking snapshot, in rank order; `roe`/`margin` are `None` when the
      snapshot has no such column. */
  datatype SnapshotRow = SnapshotRow(code: string, name: string, rate: real, roe: Option<real>, margin: Option<real>)

  /** One row of the re-entry table. */
  datatype Reentry = Reentry(code: string, name: string, prevRank: int, prevRate: real,
                             currRank: int, currRate: real, roe: Option<real>, margin: Option<real>)

  function RowCode(r: SnapshotRow): string { r.code }
  function EntryCode(e: Reentry): string { e.code }

  /** `prev_df.iloc[lower - 1:upper]`: the previous snapshot's lower band. */
  function Band(prev: seq<SnapshotRow>, lower: int, upper: int): seq<SnapshotRow> {
    PySlice(prev, lower - 1, upper)
  }

  /** `set(prev_bottom["종목코드"]) & set(curr_df["종목코드"])`, empty when the previous
      snapshot is shorter than `lower`. */
  function ReentryCodes(prev: seq<SnapshotRow>, curr: seq<SnapshotRow>, lower: int, upper: int): set<string> {
    if |prev| < lower then {}
    else (set c | c in Map(Band(prev, lower, upper), RowCode)) * (set c | c in Map(curr, RowCode))
  }

  /** Position of the first row of `rows` with code `c`. */
  function FirstWithCode(rows: seq<SnapshotRow>, c: string): (i: nat)
    requires c in Map(rows, RowCode)
    ensures i < |rows| && rows[i].code == c
    ensures forall j :: 0 <= j < i ==> rows[j].code != c
  {
    HasCodeFound(rows, c);
    FirstWhere(rows, HasCode(c)).value
  }

  function HasCode(c: string): SnapshotRow -> bool {
    (r: SnapshotRow) => r.code == c
  }

  lemma {:induction false} HasCodeFound(rows: seq<SnapshotRow>, c: string)
    requires c in Map(rows, RowCode)
    ensures FirstWhere(rows, HasCode(c)).Some?
  {
    var k :| 0 <= k < |rows| && Map(rows, RowCode)[k] == c;
    assert HasCode(c)(rows[k]);
  }

  /** The row `find_reentry_stocks` builds for code `c` (what it holds: `EntryForPrevious`, `EntryForCurrent`). */
  function EntryFor(band: seq<SnapshotRow>, curr: seq<SnapshotRow>, lower: int, c: string): (e: Reentry)
    requires c in Map(band, RowCode) && c in Map(curr, RowCode)
    ensures e.code == c
  {
    var bi := FirstWithCode(band, c);
    var ci := FirstWithCode(curr, c);
    Reentry(c, curr[ci].name, lower + bi, band[bi].rate, ci + 1, curr[ci].rate, curr[ci].roe, curr[ci].margin)
  }

  /** The previous rank is `lower` plus the offset of the code's first row in the band, and
      the previous return is that row's. */
  lemma {:induction false} EntryForPrevious(band: seq<SnapshotRow>, curr: seq<SnapshotRow>, lower: int, c: string)
    requires c in Map(band, RowCode) && c in Map(curr, RowCode)
    ensures var e := EntryFor(band, curr, lower, c);
      && lower <= e.prevRank < lower + |band| && band[e.prevRank - lower].code == c
      && (forall j :: 0 <= j < e.prevRank - lower ==> band[j].code != c)
      && e.prevRate == band[e.prevRank - lower].rate
  {
    var bi := FirstWithCode(band, c);
    assert EntryFor(band, curr, lower, c).prevRank - lower == bi;
  }

  /** The current rank is one plus the index of the code's first row in the current snapshot,
      and name, return and ratios are that row's. */
  lemma {:induction false} EntryForCurrent(band: seq<SnapshotRow>, curr: seq<SnapshotRow>, lower: int, c: string)
    requires c in Map(band, RowCode) && c in Map(curr, RowCode)
    ensures var e := EntryFor(band, curr, lower, c);
      && 1 <= e.currRank <= |curr| && curr[e.currRank - 1].code == c
      && (forall j :: 0 <= j < e.currRank - 1 ==> curr[j].code != c)
      && e.name == curr[e.currRank - 1].name && e.currRate == curr[e.currRank - 1].rate
      && e.roe == curr[e.currRank - 1].roe && e.margin == curr[e.currRank - 1].margin
  {
    var ci := FirstWithCode(curr, c);
    assert EntryFor(band, curr, lower, c).currRank - 1 == ci;
  }

  function ByCurrentRank(): (Reentry, Reentry) -> bool {
    (a: Reentry, b: Reentry) => a.currRank <= b.currRank
  }

  /** `e` is the row `find_reentry_stocks` builds for a code present in both snapshots. */
  ghost predicate Built(band: seq<SnapshotRow>, curr: seq<SnapshotRow>, lower: int, e: Reentry) {
    e.code in Map(band, RowCode) && e.code in Map(curr, RowCode) && e == EntryFor(band, curr, lower, e.code)
  }

  /** `find_reentry_stocks(prev_df, curr_df)`. The loop visits the code set in an order the
      model leaves open. */
  method FindReentryStocks(prev: seq<SnapshotRow>, curr: seq<SnapshotRow>,
                           lower: int := DefaultReentryLower, upper: int := DefaultReentryUpper)
    returns (result: seq<Reentry>)
    ensures |prev| < lower ==> result == []
    ensures forall c :: c in Map(result, EntryCode) <==> c in ReentryCodes(prev, curr, lower, upper)
    ensures forall i, j :: 0 <= i < j < |result| ==> result[i].code != result[j].code
    ensures forall i :: 0 <= i < |result| ==> Built(Band(prev, lower, upper), curr, lower, result[i])
    ensures forall i, j :: 0 <= i < j < |result| ==> result[i].currRank < result[j].currRank
  {
    if |prev| < lower {
      return [];
    }
    var band := Band(prev, lower, upper);
    var codes := (set c | c in Map(band, RowCode)) * (set c | c in Map(curr, RowCode));
    if codes == {} {
      return [];
    }
    var rows := ReentryRows(band, curr, lower, codes);
    result := SortBy(rows, ByCurrentRank());
    ReentrySorted(rows, result, band, curr, lower);
  }

  /** The `for code in reentry_codes` loop: one row per code, in whatever order the set is
      walked. */
  method ReentryRows(band: seq<SnapshotRow>, curr: seq<SnapshotRow>, lower: int, codes: set<string>)
    returns (rows: seq<Reentry>)
    requires codes == (set c | c in Map(band, RowCode)) * (set c | c in Map(curr, RowCode))
    ensures forall c :: c in Map(rows, EntryCode) <==> c in codes
    ensures forall i, j :: 0 <= i < j < |rows| ==> rows[i].code != rows[j].code
    ensures forall i :: 0 <= i < |rows| ==> Built(band, curr, lower, rows[i])
  {
    rows := [];
    var remaining := codes;
    while remaining != {}
      invariant Visited(rows, codes, remaining, band, curr, lower)
      decreases |remaining|
    {
      var c :| c in remaining;
      assert c in Map(band, RowCode) && c in Map(curr, RowCode);
      var e := EntryFor(band, curr, lower, c);
      ReentryStep(rows, e, codes, remaining, band, curr, lower);
      rows := rows + [e];
      remaining := remaining - {c};
    }
  }

  /** The loop's facts: the rows so far are the built rows of the codes already visited,
      one each. */
  ghost predicate Visited(rows: seq<Reentry>, codes: set<string>, remaining: set<string>,
                          band: seq<SnapshotRow>, curr: seq<SnapshotRow>, lower: int) {
    && remaining <= codes
    && (forall c :: c in Map(rows, EntryCode) <==> c in codes && c !in remaining)
    && (forall i, j :: 0 <= i < j < |rows| ==> rows[i].code != rows[j].code)
    && (forall i :: 0 <= i < |rows| ==> Built(band, curr, lower, rows[i]))
  }

  /** Appending the row of a code not yet visited keeps the loop's facts. */
  lemma {:induction false} ReentryStep(rows: seq<Reentry>, e: Reentry, codes: set<string>, remaining: set<string>,
                    band: seq<SnapshotRow>, curr: seq<SnapshotRow>, lower: int)
    requires Visited(rows, codes, remaining, band, curr, lower)
    requires e.code in remaining
    requires e.code in Map(band, RowCode) && e.code in Map(curr, RowCode)
    requires e == EntryFor(band, curr, lower, e.code)
    ensures Visited(rows + [e], codes, remaining - {e.code}, band, curr, lower)
  {
    StepKeys(rows, e, codes, remaining);
    StepDistinct(rows, e);
    StepBuilt(rows, e, band, curr, lower);
  }

  lemma {:induction false} StepKeys(rows: seq<Reentry>, e: Reentry, codes: set<string>, remaining: set<string>)
    requires e.code in remaining && remaining <= codes
    requires forall c :: c in Map(rows, EntryCode) <==> c in codes && c !in remaining
    ensures forall i :: 0 <= i < |rows| ==> rows[i].code != e.code
    ensures forall c :: c in Map(rows + [e], EntryCode) <==> c in codes && c !in remaining - {e.code}
  {
    forall i | 0 <= i < |rows| ensures rows[i].code != e.code {
      assert Map(rows, EntryCode)[i] == rows[i].code;
    }
    MapAppend(rows, [e], EntryCode);
  }

  lemma {:induction false} StepDistinct(rows: seq<Reentry>, e: Reentry)
    requires forall i :: 0 <= i < |rows| ==> rows[i].code != e.code
    requires forall i, j :: 0 <= i < j < |rows| ==> rows[i].code != rows[j].code
    ensures forall i, j :: 0 <= i < j < |rows + [e]| ==> (rows + [e])[i].code != (rows + [e])[j].code
  {
    var next := rows + [e];
    forall i, j | 0 <= i < j < |next| ensures next[i].code != next[j].code {
      assert next[i] == rows[i];
      if j < |rows| {
        assert next[j] == rows[j];
      }
    }
  }

  lemma {:induction false} StepBuilt(rows: seq<Reentry>, e: Reentry, band: seq<SnapshotRow>, curr: seq<SnapshotRow>, lower: int)
    requires forall i :: 0 <= i < |rows| ==> Built(band, curr, lower, rows[i])
    requires Built(band, curr, lower, e)
    ensures forall i :: 0 <= i < |rows + [e]| ==> Built(band, curr, lower, (rows + [e])[i])
  {
    var next := rows + [e];
    forall i | 0 <= i < |next| ensures Built(band, curr, lower, next[i]) {
      if i < |rows| {
        assert next[i] == rows[i];
      }
    }
  }

  /** Elements and keys survive a rearrangement. */
  lemma {:induction false} PermutationKeys<T, K>(a: seq<T>, b: seq<T>, key: T -> K)
    requires multiset(a) == multiset(b)
    ensures forall x :: x in b <==> x in a
    ensures forall k :: k in Map(b, key) <==> k in Map(a, key)
  {
    forall x ensures x in b <==> x in a {
      assert x in b <==> x in multiset(b);
      assert x in a <==> x in multiset(a);
    }
    forall k | k in Map(b, key) ensures k in Map(a, key) {
      var i :| 0 <= i < |b| && Map(b, key)[i] == k;
      assert b[i] in a;
      var m :| 0 <= m < |a| && a[m] == b[i];
      assert Map(a, key)[m] == k;
    }
    forall k | k in Map(a, key) ensures k in Map(b, key) {
      var m :| 0 <= m < |a| && Map(a, key)[m] == k;
      assert a[m] in b;
      var i :| 0 <= i < |b| && b[i] == a[m];
      assert Map(b, key)[i] == k;
    }
  }

  /** Sorting the collected rows keeps them and their codes; codes stay distinct. */
  lemma {:induction false} ReentrySortedRows(rows: seq<Reentry>, result: seq<Reentry>, band: seq<SnapshotRow>, curr: seq<SnapshotRow>, lower: int)
    requires multiset(result) == multiset(rows)
    requires forall i, j :: 0 <= i < j < |rows| ==> rows[i].code != rows[j].code
    requires forall i :: 0 <= i < |rows| ==> Built(band, curr, lower, rows[i])
    ensures forall c :: c in Map(result, EntryCode) <==> c in Map(rows, EntryCode)
    ensures forall i :: 0 <= i < |result| ==> Built(band, curr, lower, result[i])
    ensures forall i, j :: 0 <= i < j < |result| ==> result[i].code != result[j].code
  {
    PermutationKeys(rows, result, EntryCode);
    assert NoDup(rows);
    PermutationNoDup(rows, result);
    forall i | 0 <= i < |result| ensures Built(band, curr, lower, result[i]) {
      assert result[i] in rows;
    }
    BuiltCodesDistinct(result, band, curr, lower);
  }

  /** Distinct built rows have distinct codes: a row is determined by its code. */
  lemma {:induction false} BuiltCodesDistinct(rows: seq<Reentry>, band: seq<SnapshotRow>, curr: seq<SnapshotRow>, lower: int)
    requires NoDup(rows)
    requires forall i :: 0 <= i < |rows| ==> Built(band, curr, lower, rows[i])
    ensures forall i, j :: 0 <= i < j < |rows| ==> rows[i].code != rows[j].code
  {
  }

  /** Sorting the collected rows by current rank makes the ranks strictly ascend. */
  lemma {:induction false} ReentrySorted(rows: seq<Reentry>, result: seq<Reentry>, band: seq<SnapshotRow>, curr: seq<SnapshotRow>, lower: int)
    requires result == SortBy(rows, ByCurrentRank())
    requires forall i, j :: 0 <= i < j < |rows| ==> rows[i].code != rows[j].code
    requires forall i :: 0 <= i < |rows| ==> Built(band, curr, lower, rows[i])
    ensures forall c :: c in Map(result, EntryCode) <==> c in Map(rows, EntryCode)
    ensures forall i, j :: 0 <= i < j < |result| ==> result[i].code != result[j].code
    ensures forall i :: 0 <= i < |result| ==> Built(band, curr, lower, result[i])
    ensures forall i, j :: 0 <= i < j < |result| ==> result[i].currRank < result[j].currRank
  {
    assert TotalPreorder(ByCurrentRank());
    SortBySorted(rows, ByCurrentRank());
    ReentrySortedRows(rows, result, band, curr, lower);
    StrictRanks(result, band, curr, lower);
  }

  /** Built rows with distinct codes have distinct current ranks, so sorted they strictly ascend. */
  lemma {:induction false} StrictRanks(result: seq<Reentry>, band: seq<SnapshotRow>, curr: seq<SnapshotRow>, lower: int)
    requires SortedBy(result, ByCurrentRank())
    requires forall i, j :: 0 <= i < j < |result| ==> result[i].code != result[j].code
    requires forall i :: 0 <= i < |result| ==> Built(band, curr, lower, result[i])
    ensures forall i, j :: 0 <= i < j < |result| ==> result[i].currRank < result[j].currRank
  {
    forall i, j | 0 <= i < j < |result| ensures result[i].currRank < result[j].currRank {
      assert ByCurrentRank()(result[i], result[j]);
      assert Built(band, curr, lower, result[i]) && Built(band, curr, lower, result[j]);
      EntryForCurrent(band, curr, lower, result[i].code);
      EntryForCurrent(band, curr, lower, result[j].code);
    }
  }

  // ================================================================ `run_collection` dedupe

  function GrowthCode(g: Growth): string { g.code }

  /** The three lists the loop walks: KOSPI's top `topN`, KOSDAQ's top `topN`, and the top
      `topN` of both markets re-sorted by return, largest first. */
  function CollectionParts(kospiAll: seq<Growth>, kosdaqAll: seq<Growth>, topN: int): (parts: seq<seq<Growth>>)
    ensures |parts| == 3
  {
    var combined := SortBy(kospiAll + kosdaqAll, ByGrowthDesc());
    [PySlice(kospiAll, 0, topN), PySlice(kosdaqAll, 0, topN), PySlice(combined, 0, topN)]
  }

  /** The lists of `parts` one after another. */
  function Flatten<T>(parts: seq<seq<T>>): seq<T> {
    if |parts| == 0 then [] else Flatten(parts[..|parts| - 1]) + parts[|parts| - 1]
  }

  lemma {:induction false} FlattenSnoc<T>(parts: seq<seq<T>>, p: int)
    requires 0 <= p < |parts|
    ensures Flatten(parts[..p + 1]) == Flatten(parts[..p]) + parts[p]
  {
    assert parts[..p + 1][..p] == parts[..p];
  }

  lemma {:induction false} FlattenThree<T>(parts: seq<seq<T>>)
    requires |parts| == 3
    ensures Flatten(parts) == parts[0] + parts[1] + parts[2]
  {
    FlattenSnoc(parts, 0);
    FlattenSnoc(parts, 1);
    FlattenSnoc(parts, 2);
    assert parts[..0] == [] && parts[..3] == parts;
  }

  /** One row of the loop: its code joins `seen` and the row joins the output iff the code
      is new; that is `DedupeFirst` one element further. */
  lemma {:induction false} CollectStep(done: seq<Growth>, row: Growth, unique: seq<Growth>, seen: set<string>)
    requires unique == DedupeFirst(done, GrowthCode)
    requires forall c :: c in seen <==> c in Map(unique, GrowthCode)
    ensures var unique' := if row.code in seen then unique else unique + [row];
      && unique' == DedupeFirst(done + [row], GrowthCode)
      && forall c :: c in seen + {row.code} <==> c in Map(unique', GrowthCode)
  {
    DedupeSnoc(done, row, GrowthCode);
    MapAppend(unique, [row], GrowthCode);
  }

  lemma {:induction false} AppendPrefixSnoc<T>(a: seq<T>, s: seq<T>, k: int)
    requires 0 <= k < |s|
    ensures a + s[..k + 1] == (a + s[..k]) + [s[k]]
  {
    assert s[..k + 1] == s[..k] + [s[k]];
  }

  /** The inner `for _, row in df_part.iterrows()` loop, continuing from the records and
      codes gathered from the lists before it (`done`). */
  method CollectPart(part: seq<Growth>, unique0: seq<Growth>, seen0: set<string>, ghost done: seq<Growth>)
    returns (unique: seq<Growth>, seen: set<string>)
    requires unique0 == DedupeFirst(done, GrowthCode)
    requires forall c :: c in seen0 <==> c in Map(unique0, GrowthCode)
    ensures unique == DedupeFirst(done + part, GrowthCode)
    ensures forall c :: c in seen <==> c in Map(unique, GrowthCode)
  {
    unique, seen := unique0, seen0;
    ghost var acc := done;
    assert done + part[..0] == done;
    for k := 0 to |part|
      invariant acc == done + part[..k]
      invariant unique == DedupeFirst(acc, GrowthCode)
      invariant forall c :: c in seen <==> c in Map(unique, GrowthCode)
    {
      var row := part[k];
      CollectStep(acc, row, unique, seen);
      if row.code !in seen {
        seen := seen + {row.code};
        unique := unique + [row];
      }
      AppendPrefixSnoc(done, part, k);
      acc := acc + [row];
    }
    assert part[..|part|] == part;
  }

  /** The records `run_collection` sends for financial data: the `seen`-set loop over the
      three lists. */
  method CollectUnique(kospiAll: seq<Growth>, kosdaqAll: seq<Growth>, topN: int := DefaultTopN)
    returns (unique: seq<Growth>)
    ensures unique == DedupeFirst(Flatten(CollectionParts(kospiAll, kosdaqAll, topN)), GrowthCode)
  {
    var parts := CollectionParts(kospiAll, kosdaqAll, topN);
    var seen: set<string> := {};
    unique := [];
    ghost var done: seq<Growth> := [];
    for p := 0 to 3
      invariant done == Flatten(parts[..p])
      invariant unique == DedupeFirst(done, GrowthCode)
      invariant forall c :: c in seen <==> c in Map(unique, GrowthCode)
    {
      unique, seen := CollectPart(parts[p], unique, seen, done);
      done := done + parts[p];
      FlattenSnoc(parts, p);
    }
    assert parts[..3] == parts;
  }

  /** The collected records carry pairwise-distinct codes, every code of the three lists
      appears, and each record is the first occurrence of its code, in list order. */
  lemma {:induction false} CollectUniqueProperties(kospiAll: seq<Growth>, kosdaqAll: seq<Growth>, topN: int)
    ensures var all := Flatten(CollectionParts(kospiAll, kosdaqAll, topN));
      var unique := DedupeFirst(all, GrowthCode);
      var idx := DedupeIndices(all, GrowthCode);
      && all == PySlice(kospiAll, 0, topN) + PySlice(kosdaqAll, 0, topN)
           + PySlice(SortBy(kospiAll + kosdaqAll, ByGrowthDesc()), 0, topN)
      && (forall i, j :: 0 <= i < j < |unique| ==> unique[i].code != unique[j].code)
      && (forall c :: c in Map(unique, GrowthCode) <==> c in Map(all, GrowthCode))
      && |idx| == |unique|
      && (forall j :: 0 <= j < |idx| ==> (idx[j] < |all| && unique[j] == all[idx[j]]
            && forall m :: 0 <= m < idx[j] ==> all[m].code != all[idx[j]].code))
      && (forall j1, j2 :: 0 <= j1 < j2 < |idx| ==> idx[j1] < idx[j2])
      && (forall i :: IsFirstOccurrence(all, GrowthCode, i) ==> all[i] in unique)
  {
    var parts := CollectionParts(kospiAll, kosdaqAll, topN);
    var all := Flatten(parts);
    FlattenThree(parts);
    DedupeOrder(all, GrowthCode);
    DedupeKeepsFirst(all, GrowthCode);
    DedupeMembers(all, GrowthCode);
  }
}
