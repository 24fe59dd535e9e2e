/**
 * `DatabaseManager`: the SQLite store of daily closes, financial ratios and
 * per-user watchlists. Each table is a field of the class; a table whose scan
 * order matters is a sequence in rowid order with its UNIQUE key as an invariant,
 * `financials` (only ever read by key) is a map.
 */
module Db {
  import opened Wrappers
  import opened Text
  import opened Seqs
  import opened Dates
  import opened Ranking

  // ---------------------------------------------------------------- daily_prices rows

  /** A row of `daily_prices`; `종가` is NOT NULL, the other prices may be NULL. */
  datatype DailyRow = DailyRow(date: string, code: string, name: string, market: string,
                               open: Option<int>, high: Option<int>, low: Option<int>,
                               close: int, volume: Option<int>)

  /** A record handed to `save_daily_prices`: every `r.get(...)` may be missing. */
  datatype DailyRecord = DailyRecord(date: string, code: string, name: string, market: string,
                                     open: Option<int>, high: Option<int>, low: Option<int>,
                                     close: Option<int>, volume: Option<int>)

  /** `UNIQUE(날짜, 종목코드)` */
  datatype DailyKey = DailyKey(date: string, code: string)

  function KeyOf(r: DailyRow): DailyKey {
    DailyKey(r.date, r.code)
  }

  ghost predicate UniqueDaily(rows: seq<DailyRow>) {
    forall i, j :: 0 <= i < j < |rows| ==> KeyOf(rows[i]) != KeyOf(rows[j])
  }

  function OtherKey(k: DailyKey): DailyRow -> bool {
    (r: DailyRow) => KeyOf(r) != k
  }

  /** `INSERT OR REPLACE`: a row with the same key is deleted, the new row is appended
      with a fresh rowid. */
  function ReplaceRow(rows: seq<DailyRow>, r: DailyRow): seq<DailyRow> {
    Filter(rows, OtherKey(KeyOf(r))) + [r]
  }

  /** `executemany` of `INSERT OR REPLACE`, one row after the other. */
  function ReplaceAll(rows: seq<DailyRow>, batch: seq<DailyRow>): seq<DailyRow>
    decreases |batch|
  {
    if |batch| == 0 then rows
    else ReplaceAll(ReplaceRow(rows, batch[0]), batch[1..])
  }

  /** The table as a map from key to row: a later row with a key wins. */
  ghost function View(rows: seq<DailyRow>): map<DailyKey, DailyRow>
    decreases |rows|
  {
    if |rows| == 0 then map[]
    else View(rows[..|rows| - 1])[KeyOf(rows[|rows| - 1]) := rows[|rows| - 1]]
  }

  /** The view holds exactly the keys of the rows. */
  lemma {:induction false} ViewKeys(rows: seq<DailyRow>, k: DailyKey)
    ensures k in View(rows) <==> exists i :: 0 <= i < |rows| && KeyOf(rows[i]) == k
    decreases |rows|
  {
    if |rows| > 0 {
      var n := |rows| - 1;
      var pre := rows[..n];
      ViewKeys(pre, k);
      if exists i :: 0 <= i < |rows| && KeyOf(rows[i]) == k {
        var i :| 0 <= i < |rows| && KeyOf(rows[i]) == k;
        if i < n {
          assert KeyOf(pre[i]) == k;
        }
      }
      if exists i :: 0 <= i < |pre| && KeyOf(pre[i]) == k {
        var i :| 0 <= i < |pre| && KeyOf(pre[i]) == k;
        assert KeyOf(rows[i]) == k;
      }
    }
  }

  /** Each key of the view maps to the last row with that key. */
  lemma {:induction false} ViewLast(rows: seq<DailyRow>, k: DailyKey)
    requires k in View(rows)
    ensures exists i :: 0 <= i < |rows| && View(rows)[k] == rows[i] && KeyOf(rows[i]) == k
                       && forall j :: i < j < |rows| ==> KeyOf(rows[j]) != k
    decreases |rows|
  {
    var n := |rows| - 1;
    var pre := rows[..n];
    if KeyOf(rows[n]) != k {
      ViewLast(pre, k);
      var i :| 0 <= i < |pre| && View(pre)[k] == pre[i] && KeyOf(pre[i]) == k
               && forall j :: i < j < |pre| ==> KeyOf(pre[j]) != k;
      assert View(rows)[k] == rows[i];
      assert forall j :: i < j < |rows| ==> KeyOf(rows[j]) != k by {
        forall j | i < j < |rows| ensures KeyOf(rows[j]) != k {
          if j < n {
            assert rows[j] == pre[j];
          }
        }
      }
    }
  }

  lemma {:induction false} MapRemoveUpdate<K, V>(m: map<K, V>, a: K, v: V, k: K)
    requires a != k
    ensures (m - {k})[a := v] == m[a := v] - {k}
  {
  }

  lemma {:induction false} MapUpdateRemove<K, V>(m: map<K, V>, v: V, k: K)
    ensures m[k := v] - {k} == m - {k}
  {
  }

  lemma {:induction false} MapUpdatePlus<K, V>(m: map<K, V>, k: K, v: V, n: map<K, V>)
    ensures m[k := v] + n == m + (map[k := v] + n)
  {
  }

  lemma {:induction false} ViewFilter(rows: seq<DailyRow>, k: DailyKey)
    ensures View(Filter(rows, OtherKey(k))) == View(rows) - {k}
    decreases |rows|
  {
    if |rows| > 0 {
      var n := |rows| - 1;
      var pre := rows[..n];
      var last := rows[n];
      assert rows == pre + [last];
      FilterAppend(pre, [last], OtherKey(k));
      ViewFilter(pre, k);
      var f := Filter(pre, OtherKey(k));
      assert View(rows) == View(pre)[KeyOf(last) := last];
      if KeyOf(last) != k {
        assert Filter(rows, OtherKey(k)) == f + [last];
        assert (f + [last])[..|f|] == f;
        assert View(f + [last]) == View(f)[KeyOf(last) := last];
        MapRemoveUpdate(View(pre), KeyOf(last), last, k);
      } else {
        assert Filter(rows, OtherKey(k)) == f;
        MapUpdateRemove(View(pre), last, k);
      }
    }
  }

  /** One replace of a batch, from position `i`: the key stays unique and the rest of the
      batch is replayed on the new table. */
  lemma {:induction false} ReplaceStep(rows: seq<DailyRow>, batch: seq<DailyRow>, i: int)
    requires UniqueDaily(rows) && 0 <= i < |batch|
    ensures UniqueDaily(ReplaceRow(rows, batch[i]))
    ensures ReplaceAll(rows, batch[i..]) == ReplaceAll(ReplaceRow(rows, batch[i]), batch[i + 1..])
  {
    assert batch[i..][0] == batch[i] && batch[i..][1..] == batch[i + 1..];
    ReplaceUnique(rows, batch[i]);
  }

  /** The view of a replace is the old view with the key overwritten. */
  lemma {:induction false} ViewReplace(rows: seq<DailyRow>, r: DailyRow)
    ensures View(ReplaceRow(rows, r)) == View(rows)[KeyOf(r) := r]
  {
    ViewFilter(rows, KeyOf(r));
    ViewSnoc(Filter(rows, OtherKey(KeyOf(r))), r);
    OverwriteRemoved(View(rows), KeyOf(r), r);
  }

  /** Appending a row writes its key. */
  lemma {:induction false} ViewSnoc(rows: seq<DailyRow>, r: DailyRow)
    ensures View(rows + [r]) == View(rows)[KeyOf(r) := r]
  {
    assert (rows + [r])[..|rows|] == rows;
  }

  /** Removing a key before writing it changes nothing. */
  lemma {:induction false} OverwriteRemoved<K, V>(m: map<K, V>, k: K, v: V)
    ensures (m - {k})[k := v] == m[k := v]
  {
  }

  lemma {:induction false} FilterUnique(rows: seq<DailyRow>, p: DailyRow -> bool)
    requires UniqueDaily(rows)
    ensures UniqueDaily(Filter(rows, p))
  {
    if |rows| > 0 {
      var t := rows[1..];
      FilterUnique(t, p);
      FilterMembers(t, p);
      var ft := Filter(t, p);
      if p(rows[0]) {
        var f := [rows[0]] + ft;
        forall i, j | 0 <= i < j < |f| ensures KeyOf(f[i]) != KeyOf(f[j]) {
          if i == 0 {
            assert f[j] == ft[j - 1] && ft[j - 1] in t;
            var m :| 0 <= m < |t| && t[m] == ft[j - 1];
            assert rows[m + 1] == t[m];
          } else {
            assert f[i] == ft[i - 1] && f[j] == ft[j - 1];
          }
        }
      }
    }
  }

  lemma {:induction false} ReplaceUnique(rows: seq<DailyRow>, r: DailyRow)
    requires UniqueDaily(rows)
    ensures UniqueDaily(ReplaceRow(rows, r))
  {
    var f := Filter(rows, OtherKey(KeyOf(r)));
    FilterMembers(rows, OtherKey(KeyOf(r)));
    FilterUnique(rows, OtherKey(KeyOf(r)));
    var s := f + [r];
    forall i, j | 0 <= i < j < |s| ensures KeyOf(s[i]) != KeyOf(s[j]) {
      if j == |f| {
        assert s[i] == f[i] && f[i] in f && s[j] == r;
        assert OtherKey(KeyOf(r))(f[i]);
      } else {
        assert s[i] == f[i] && s[j] == f[j];
      }
    }
  }

  /** The batch's own view: within a batch the last record with a key wins. */
  lemma {:induction false} ViewReplaceAll(rows: seq<DailyRow>, batch: seq<DailyRow>)
    requires UniqueDaily(rows)
    ensures UniqueDaily(ReplaceAll(rows, batch))
    ensures View(ReplaceAll(rows, batch)) == View(rows) + View(batch)
    decreases |batch|
  {
    if |batch| > 0 {
      var first := ReplaceRow(rows, batch[0]);
      ReplaceUnique(rows, batch[0]);
      ViewReplace(rows, batch[0]);
      ViewReplaceAll(first, batch[1..]);
      ViewCons(batch);
      MapUpdatePlus(View(rows), KeyOf(batch[0]), batch[0], View(batch[1..]));
    }
  }

  /** Viewing from the front: the first row is overwritten by any later row with its key. */
  lemma {:induction false} ViewCons(rows: seq<DailyRow>)
    requires |rows| > 0
    ensures View(rows) == map[KeyOf(rows[0]) := rows[0]] + View(rows[1..])
    decreases |rows|
  {
    if |rows| > 1 {
      var n := |rows| - 1;
      ViewCons(rows[..n]);
      assert rows[..n][1..] == rows[1..][..n - 1];
      assert rows[..n][0] == rows[0];
    } else {
      assert rows[..0] == [];
      assert rows[1..] == [];
    }
  }

  /** A record's row; used once every record is known to carry a close. */
  function ToRow(rec: DailyRecord): DailyRow {
    DailyRow(rec.date, rec.code, rec.name, rec.market, rec.open, rec.high, rec.low,
             if rec.close.Some? then rec.close.value else 0, rec.volume)
  }

  // ---------------------------------------------------------------- other tables

  /** A row of `financials`, keyed by `종목코드` (UNIQUE). */
  datatype FinRow = FinRow(roe: Option<real>, operatingMargin: Option<real>, updated: string)

  /** A record handed to `save_financials`. */
  datatype FinRecord = FinRecord(code: string, roe: Option<real>, operatingMargin: Option<real>)

  /** A row of `watchlist`, keyed by `(user_id, platform, 종목코드)` (UNIQUE). */
  datatype WatchRow = WatchRow(userId: int, platform: string, code: string, name: string, added: string)

  datatype WatchKey = WatchKey(userId: int, platform: string, code: string)

  function WatchKeyOf(r: WatchRow): WatchKey {
    WatchKey(r.userId, r.platform, r.code)
  }

  ghost predicate UniqueWatch(rows: seq<WatchRow>) {
    forall i, j :: 0 <= i < j < |rows| ==> WatchKeyOf(rows[i]) != WatchKeyOf(rows[j])
  }

  // ---------------------------------------------------------------- cache coverage

  function RowDate(r: DailyRow): string {
    r.date
  }

  function CodeIs(c: string): DailyRow -> bool {
    (r: DailyRow) => r.code == c
  }

  /** The `날짜` column of the rows of one code, in table order. */
  function DatesOf(rows: seq<DailyRow>, c: string): seq<string> {
    Map(Filter(rows, CodeIs(c)), RowDate)
  }

  /** SQL `MIN` over text: NULL for no rows. */
  function MinOf(s: seq<string>): (m: Option<string>)
    ensures m.None? <==> |s| == 0
    ensures m.Some? ==> m.value in s && forall x :: x in s ==> LexLe(m.value, x)
  {
    if |s| == 0 then None
    else
      var rest := MinOf(s[1..]);
      LexLeTotalOrder();
      if rest.None? || LexLe(s[0], rest.value) then Some(s[0]) else rest
  }

  /** SQL `MAX` over text: NULL for no rows. */
  function MaxOf(s: seq<string>): (m: Option<string>)
    ensures m.None? <==> |s| == 0
    ensures m.Some? ==> m.value in s && forall x :: x in s ==> LexLe(x, m.value)
  {
    if |s| == 0 then None
    else
      var rest := MaxOf(s[1..]);
      LexLeTotalOrder();
      if rest.None? || LexLe(rest.value, s[0]) then Some(s[0]) else rest
  }

  /** `GROUP BY 종목코드 HAVING MIN(날짜) <= lo AND MAX(날짜) >= hi`. */
  function Covering(rows: seq<DailyRow>, lo: string, hi: string): set<string> {
    set r | r in rows
              && (var m := MinOf(DatesOf(rows, r.code)); m.Some? && LexLe(m.value, lo))
              && (var m := MaxOf(DatesOf(rows, r.code)); m.Some? && LexLe(hi, m.value))
          :: r.code
  }

  /** Some row of code `c` is dated no later than `lo`. */
  ghost predicate ReachesBack(rows: seq<DailyRow>, c: string, lo: string) {
    exists i :: 0 <= i < |rows| && rows[i].code == c && LexLe(rows[i].date, lo)
  }

  /** Some row of code `c` is dated no earlier than `hi`. */
  ghost predicate ReachesForward(rows: seq<DailyRow>, c: string, hi: string) {
    exists i :: 0 <= i < |rows| && rows[i].code == c && LexLe(hi, rows[i].date)
  }

  lemma {:induction false} DatesOfMembers(rows: seq<DailyRow>, c: string, d: string)
    ensures d in DatesOf(rows, c) <==> exists i :: 0 <= i < |rows| && rows[i].code == c && rows[i].date == d
  {
    FilterMembers(rows, CodeIs(c));
    var f := Filter(rows, CodeIs(c));
    if d in DatesOf(rows, c) {
      var k :| 0 <= k < |f| && RowDate(f[k]) == d;
      assert f[k] in f;
      var i :| 0 <= i < |rows| && rows[i] == f[k];
      assert rows[i].code == c && rows[i].date == d;
    }
    if exists i :: 0 <= i < |rows| && rows[i].code == c && rows[i].date == d {
      var i :| 0 <= i < |rows| && rows[i].code == c && rows[i].date == d;
      assert CodeIs(c)(rows[i]) && rows[i] in rows;
      var k :| 0 <= k < |f| && f[k] == rows[i];
      assert DatesOf(rows, c)[k] == d;
    }
  }

  lemma {:induction false} CoveringComplete(rows: seq<DailyRow>, lo: string, hi: string, c: string)
    requires ReachesBack(rows, c, lo) && ReachesForward(rows, c, hi)
    ensures c in Covering(rows, lo, hi)
  {
    var ds := DatesOf(rows, c);
    var i :| 0 <= i < |rows| && rows[i].code == c && LexLe(rows[i].date, lo);
    var j :| 0 <= j < |rows| && rows[j].code == c && LexLe(hi, rows[j].date);
    DatesOfMembers(rows, c, rows[i].date);
    DatesOfMembers(rows, c, rows[j].date);
    LexLeTransitive(MinOf(ds).value, rows[i].date, lo);
    LexLeTransitive(hi, rows[j].date, MaxOf(ds).value);
    assert rows[i] in rows;
  }

  lemma {:induction false} CoveringSound(rows: seq<DailyRow>, lo: string, hi: string, c: string)
    requires c in Covering(rows, lo, hi)
    ensures ReachesBack(rows, c, lo) && ReachesForward(rows, c, hi)
  {
    var ds := DatesOf(rows, c);
    var r :| r in rows && r.code == c
             && (var m := MinOf(ds); m.Some? && LexLe(m.value, lo))
             && (var m := MaxOf(ds); m.Some? && LexLe(hi, m.value));
    DatesOfMembers(rows, c, MinOf(ds).value);
    DatesOfMembers(rows, c, MaxOf(ds).value);
  }

  /** The HAVING clause, read as "the stored history of `c` reaches back to `lo` and
      forward to `hi`". */
  lemma {:induction false} CoveringIff(rows: seq<DailyRow>, lo: string, hi: string, c: string)
    ensures c in Covering(rows, lo, hi) <==> ReachesBack(rows, c, lo) && ReachesForward(rows, c, hi)
  {
    if ReachesBack(rows, c, lo) && ReachesForward(rows, c, hi) {
      CoveringComplete(rows, lo, hi, c);
    }
    if c in Covering(rows, lo, hi) {
      CoveringSound(rows, lo, hi, c);
    }
  }

  /** The two thresholds of `get_cached_stock_codes`: seven days inside each end of
      the period, or the period itself when those would cross. */
  function Thresholds(startDate: string, endDate: string): (r: Result<(string, string)>)
    ensures r.Err? <==> Strptime8(startDate).None? || Strptime8(endDate).None?
                        || AddDays(Strptime8(startDate).value, 7).None?
                        || AddDays(Strptime8(endDate).value, -7).None?
  {
    var sd := Strptime8(startDate);
    var ed := Strptime8(endDate);
    if sd.None? || ed.None? then Err("ValueError")
    else
      var s7 := AddDays(sd.value, 7);
      var e7 := AddDays(ed.value, -7);
      if s7.None? || e7.None? then Err("OverflowError")
      else
        var startThreshold := Format8(s7.value);
        var endThreshold := Format8(e7.value);
        if LexLe(endThreshold, startThreshold) then Ok((startDate, endDate))
        else Ok((startThreshold, endThreshold))
  }

  /** A date that does not parse raises `ValueError`; a shifted date outside years
      1..9999 raises `OverflowError`. */
  lemma {:induction false} ThresholdErrors(startDate: string, endDate: string)
    ensures Strptime8(startDate).None? || Strptime8(endDate).None? ==>
              Thresholds(startDate, endDate) == Err("ValueError")
    ensures Strptime8(startDate).Some? && Strptime8(endDate).Some? && Thresholds(startDate, endDate).Err? ==>
              Thresholds(startDate, endDate) == Err("OverflowError")
  {
  }

  /** The tolerance is used exactly when the period spans more than fourteen days. */
  lemma {:induction false} ThresholdRule(startDate: string, endDate: string, sd: Date, ed: Date)
    requires Strptime8(startDate) == Some(sd) && Strptime8(endDate) == Some(ed)
    requires AddDays(sd, 7).Some? && AddDays(ed, -7).Some?
    ensures Ordinal(ed) - Ordinal(sd) > 14 ==>
              Thresholds(startDate, endDate) == Ok((Format8(AddDays(sd, 7).value), Format8(AddDays(ed, -7).value)))
    ensures Ordinal(ed) - Ordinal(sd) <= 14 ==> Thresholds(startDate, endDate) == Ok((startDate, endDate))
  {
    LexIsChronological(AddDays(ed, -7).value, AddDays(sd, 7).value);
  }

  /** `BETWEEN start AND end`, plus `시장 = market` when a non-empty market is given. */
  function InWindow(startDate: string, endDate: string, market: Option<string>): DailyRow -> bool {
    (r: DailyRow) =>
      LexLe(startDate, r.date) && LexLe(r.date, endDate)
      && (market.Some? && market.value != "" ==> r.market == market.value)
  }

  // ---------------------------------------------------------------- ranking queries

  /** A `daily_prices` row as `SELECT 종목코드, 종목명, 시장, 날짜, 종가` returns it. */
  function ToPriceRow(r: DailyRow): PriceRow {
    PriceRow(r.code, r.name, r.market, r.date, r.close)
  }

  /** The rows `get_prices` reads, in table order. */
  function Selected(rows: seq<DailyRow>, startDate: string, endDate: string, market: Option<string>): seq<PriceRow> {
    Map(Filter(rows, InWindow(startDate, endDate, market)), ToPriceRow)
  }

  /** `BETWEEN start AND end AND 종목코드 IN (codes)`. */
  function InCodes(startDate: string, endDate: string, codes: seq<string>): DailyRow -> bool {
    (r: DailyRow) => LexLe(startDate, r.date) && LexLe(r.date, endDate) && r.code in codes
  }

  /** The rows `get_prices_by_codes` reads, in table order. */
  function SelectedCodes(rows: seq<DailyRow>, startDate: string, endDate: string, codes: seq<string>): seq<PriceRow> {
    Map(Filter(rows, InCodes(startDate, endDate, codes)), ToPriceRow)
  }

  /** Restricted to one code, the rows of `get_prices_by_codes` are those of `get_prices`
      without a market: the code list only selects whole codes. */
  lemma {:induction false} ByCodesDays(rows: seq<DailyRow>, startDate: string, endDate: string, codes: seq<string>, c: string)
    requires c in codes
    ensures DaysOf(SelectedCodes(rows, startDate, endDate, codes), c) == DaysOf(Selected(rows, startDate, endDate, None), c)
  {
    var both := (r: DailyRow) => LexLe(startDate, r.date) && LexLe(r.date, endDate) && r.code == c;
    var byCodes := Filter(rows, InCodes(startDate, endDate, codes));
    var byWindow := Filter(rows, InWindow(startDate, endDate, None));
    FilterMap(byCodes, ToPriceRow, HasCode(c), CodeIs(c));
    FilterMap(byWindow, ToPriceRow, HasCode(c), CodeIs(c));
    FilterFilter(rows, InCodes(startDate, endDate, codes), CodeIs(c), both);
    FilterFilter(rows, InWindow(startDate, endDate, None), CodeIs(c), both);
  }

  /** A listed code is ranked by `get_prices_by_codes` exactly when `get_prices` ranks it,
      with the same earliest and latest close. */
  lemma {:induction false} ByCodesRanked(rows: seq<DailyRow>, startDate: string, endDate: string, codes: seq<string>,
                      round: real -> real, c: string)
    requires c in codes
    requires exists r :: r in Selected(rows, startDate, endDate, None) && r.code == c
    ensures var byCodes := Rank(SelectedCodes(rows, startDate, endDate, codes), round);
      var all := Rank(Selected(rows, startDate, endDate, None), round);
      && (Listed(byCodes, c) <==> Listed(all, c))
      && (forall e1, e2 :: e1 in byCodes && e2 in all && e1.code == c && e2.code == c ==>
            e1.start == e2.start && e1.end == e2.end)
  {
    ByCodesDays(rows, startDate, endDate, codes, c);
    RankSameDays(SelectedCodes(rows, startDate, endDate, codes), Selected(rows, startDate, endDate, None), round, c);
  }

  /** The `stocks` dict: its keys in insertion order and its entries, standing for the
      groups `gs`. */
  ghost predicate Represents(keys: seq<string>, table: map<string, Group>, gs: seq<Group>) {
    && |keys| == |gs|
    && (forall c :: c in table <==> c in keys)
    && (forall j :: 0 <= j < |keys| ==> keys[j] == gs[j].code && keys[j] in table && table[keys[j]] == gs[j])
  }

  /** Appending a day to the entry at position `j`. */
  lemma {:induction false} RepresentsAppend(keys: seq<string>, table: map<string, Group>, gs: seq<Group>, j: int, day: Day)
    requires Represents(keys, table, gs) && 0 <= j < |gs|
    requires forall a, b :: 0 <= a < b < |gs| ==> gs[a].code != gs[b].code
    ensures Represents(keys, table[keys[j] := table[keys[j]].(days := table[keys[j]].days + [day])],
                       gs[j := gs[j].(days := gs[j].days + [day])])
  {
  }

  /** Opening an entry for a code not yet in the dict. */
  lemma {:induction false} RepresentsOpen(keys: seq<string>, table: map<string, Group>, gs: seq<Group>, g: Group)
    requires Represents(keys, table, gs) && g.code !in table
    ensures Represents(keys + [g.code], table[g.code := g], gs + [g])
  {
  }

  /** A row whose code is in the dict appends its day to that entry. */
  lemma {:induction false} GroupStepOld(seen: seq<PriceRow>, row: PriceRow, keys: seq<string>, table: map<string, Group>)
    requires Represents(keys, table, Groups(seen)) && row.code in table
    ensures Represents(keys, table[row.code := table[row.code].(days := table[row.code].days + [DayOf(row)])],
                       Groups(seen + [row]))
  {
    var j :| 0 <= j < |keys| && keys[j] == row.code;
    GroupsDistinct(seen);
    GroupsSnocOld(seen, row, j);
    RepresentsAppend(keys, table, Groups(seen), j, DayOf(row));
  }

  /** A row with a new code opens an entry with its name, market and day. */
  lemma {:induction false} GroupStepNew(seen: seq<PriceRow>, row: PriceRow, keys: seq<string>, table: map<string, Group>)
    requires Represents(keys, table, Groups(seen)) && row.code !in table
    ensures var g := Group(row.code, row.name, row.market, [DayOf(row)]);
      Represents(keys + [row.code], table[row.code := g], Groups(seen + [row]))
  {
    GroupsSnocNew(seen, row);
    RepresentsOpen(keys, table, Groups(seen), Group(row.code, row.name, row.market, [DayOf(row)]));
  }

  /** The grouping loop of `get_prices`: each row opens its code's entry or appends its
      `(날짜, 종가)` to it. */
  method GroupRows(rows: seq<PriceRow>) returns (keys: seq<string>, table: map<string, Group>)
    ensures Represents(keys, table, Groups(rows))
  {
    keys := [];
    table := map[];
    var i := 0;
    ghost var seen: seq<PriceRow> := [];
    while i < |rows|
      invariant 0 <= i <= |rows| && seen == rows[..i]
      invariant Represents(keys, table, Groups(seen))
    {
      var row := rows[i];
      if row.code in table {
        GroupStepOld(seen, row, keys, table);
        var g := table[row.code];
        table := table[row.code := g.(days := g.days + [DayOf(row)])];
      } else {
        GroupStepNew(seen, row, keys, table);
        keys := keys + [row.code];
        table := table[row.code := Group(row.code, row.name, row.market, [DayOf(row)])];
      }
      PrefixSnoc(rows, i);
      seen := seen + [row];
      i := i + 1;
    }
    assert seen == rows;
  }

  /** The body of the results loop for one code: its first and last close by date, and
      the rounded return when the first close is not zero. */
  method GroupEntry(data: Group, round: real -> real) returns (entry: Option<PriceEntry>)
    ensures entry == RankEntry(data, round)
  {
    var days := SortBy(data.days, DayLe());
    entry := None;
    if |days| >= 2 {
      var startPrice := days[0].close;
      var endPrice := days[|days| - 1].close;
      if startPrice != 0 {
        var rate := round(Rate(startPrice, endPrice));
        entry := Some(PriceEntry(data.code, data.name, data.market, startPrice, endPrice, rate));
      }
    }
  }

  /** The results loop of `get_prices`, over the dict in insertion order. */
  method CollectResults(keys: seq<string>, table: map<string, Group>, round: real -> real, ghost gs: seq<Group>)
    returns (results: seq<PriceEntry>)
    requires Represents(keys, table, gs)
    ensures results == Harvest(gs, EntryRule(round))
  {
    results := [];
    var i := 0;
    assert gs[..0] == [];
    while i < |keys|
      invariant 0 <= i <= |keys|
      invariant results == Harvest(gs[..i], EntryRule(round))
    {
      var data := table[keys[i]];
      var entry := GroupEntry(data, round);
      if entry.Some? {
        results := results + [entry.value];
      }
      assert gs[i] == data;
      HarvestSnoc(gs, i, EntryRule(round));
      i := i + 1;
    }
    assert gs[..i] == gs;
  }

  /** Grouping, the results loop and the sort by return, highest first. */
  method RankRows(rows: seq<PriceRow>, round: real -> real) returns (results: seq<PriceEntry>)
    ensures results == Rank(rows, round)
  {
    var keys, table := GroupRows(rows);
    results := CollectResults(keys, table, round, Groups(rows));
    results := SortBy(results, ByRateDesc());
  }

  // ---------------------------------------------------------------- financials

  /** `INSERT OR REPLACE INTO financials` of every record, in order, stamped `today`. */
  function FinAfter(fin: map<string, FinRow>, records: seq<FinRecord>, today: string): map<string, FinRow>
    decreases |records|
  {
    if |records| == 0 then fin
    else
      var rec := records[0];
      FinAfter(fin[rec.code := FinRow(rec.roe, rec.operatingMargin, today)], records[1..], today)
  }

  /** A code no record names keeps its row, or its absence. */
  lemma {:induction false} FinAfterUntouched(fin: map<string, FinRow>, records: seq<FinRecord>, today: string, c: string)
    requires forall i :: 0 <= i < |records| ==> records[i].code != c
    ensures c in FinAfter(fin, records, today) <==> c in fin
    ensures c in fin ==> FinAfter(fin, records, today)[c] == fin[c]
    decreases |records|
  {
    if |records| > 0 {
      var rec := records[0];
      FinAfterUntouched(fin[rec.code := FinRow(rec.roe, rec.operatingMargin, today)], records[1..], today, c);
    }
  }

  /** The last record naming a code decides its row, stamped `today`. */
  lemma {:induction false} FinAfterLast(fin: map<string, FinRow>, records: seq<FinRecord>, today: string, i: int)
    requires 0 <= i < |records|
    requires forall j :: i < j < |records| ==> records[j].code != records[i].code
    ensures var c := records[i].code;
      c in FinAfter(fin, records, today)
      && FinAfter(fin, records, today)[c] == FinRow(records[i].roe, records[i].operatingMargin, today)
    decreases |records|
  {
    var rec := records[0];
    var fin' := fin[rec.code := FinRow(rec.roe, rec.operatingMargin, today)];
    if i == 0 {
      FinAfterUntouched(fin', records[1..], today, rec.code);
    } else {
      FinAfterLast(fin', records[1..], today, i - 1);
    }
  }

  /** The `{ROE, 영업이익률}` value `get_financials` returns for a stored row. */
  datatype Ratios = Ratios(roe: Option<real>, operatingMargin: Option<real>)

  function RatiosOf(row: FinRow): Ratios {
    Ratios(row.roe, row.operatingMargin)
  }

  // ---------------------------------------------------------------- watchlist

  predicate HasWatch(rows: seq<WatchRow>, k: WatchKey) {
    exists i :: 0 <= i < |rows| && WatchKeyOf(rows[i]) == k
  }

  function NotKey(k: WatchKey): WatchRow -> bool {
    (r: WatchRow) => WatchKeyOf(r) != k
  }

  /** Deleting a key from a table with unique keys removes one row when the key is
      present and none otherwise. */
  lemma {:induction false} RemoveCount(rows: seq<WatchRow>, k: WatchKey)
    requires UniqueWatch(rows)
    ensures UniqueWatch(Filter(rows, NotKey(k)))
    ensures !HasWatch(Filter(rows, NotKey(k)), k)
    ensures |Filter(rows, NotKey(k))| == |rows| - (if HasWatch(rows, k) then 1 else 0)
  {
    if |rows| > 0 {
      var rest := rows[1..];
      assert UniqueWatch(rest) by {
        forall i, j | 0 <= i < j < |rest| ensures WatchKeyOf(rest[i]) != WatchKeyOf(rest[j]) {
          assert rest[i] == rows[i + 1] && rest[j] == rows[j + 1];
        }
      }
      RemoveCount(rest, k);
      var f := Filter(rest, NotKey(k));
      FilterMembers(rest, NotKey(k));
      if WatchKeyOf(rows[0]) == k {
        assert Filter(rows, NotKey(k)) == f;
        assert !HasWatch(rest, k);
      } else {
        var g := Filter(rows, NotKey(k));
        assert g == [rows[0]] + f;
        assert HasWatch(rows, k) <==> HasWatch(rest, k) by {
          if HasWatch(rows, k) {
            var i :| 0 <= i < |rows| && WatchKeyOf(rows[i]) == k;
            assert i > 0 && rest[i - 1] == rows[i];
          }
          if HasWatch(rest, k) {
            var i :| 0 <= i < |rest| && WatchKeyOf(rest[i]) == k;
            assert rows[i + 1] == rest[i];
          }
        }
        forall j | 0 <= j < |f| ensures WatchKeyOf(rows[0]) != WatchKeyOf(f[j]) {
          assert f[j] in rest;
          var m :| 0 <= m < |rest| && rest[m] == f[j];
          assert rows[m + 1] == f[j];
        }
        assert !HasWatch(g, k);
      }
    }
  }

  /** Adding a row with a new key and deleting that key gives the table back. */
  lemma {:induction false} AddThenRemove(rows: seq<WatchRow>, row: WatchRow)
    requires !HasWatch(rows, WatchKeyOf(row))
    ensures Filter(rows + [row], NotKey(WatchKeyOf(row))) == rows
  {
    var k := WatchKeyOf(row);
    FilterAppend(rows, [row], NotKey(k));
    assert [row][1..] == [];
    FilterKeepsAll(rows, k);
  }

  lemma {:induction false} FilterKeepsAll(rows: seq<WatchRow>, k: WatchKey)
    requires !HasWatch(rows, k)
    ensures Filter(rows, NotKey(k)) == rows
  {
    if |rows| > 0 {
      assert !HasWatch(rows[1..], k);
      FilterKeepsAll(rows[1..], k);
      assert WatchKeyOf(rows[0]) != k;
      assert rows == [rows[0]] + rows[1..];
    }
  }

  /** A row of one user on one platform. */
  function Owner(userId: int, platform: string): WatchRow -> bool {
    (r: WatchRow) => r.userId == userId && r.platform == platform
  }

  /** An item of `get_watchlist`. */
  datatype WatchItem = WatchItem(code: string, name: string, added: string)

  function ItemOf(r: WatchRow): WatchItem {
    WatchItem(r.code, r.name, r.added)
  }

  /** `ORDER BY 등록일`. */
  function ByAdded(): (WatchRow, WatchRow) -> bool {
    (a: WatchRow, b: WatchRow) => LexLe(a.added, b.added)
  }

  lemma {:induction false} ByAddedPreorder()
    ensures TotalPreorder(ByAdded())
  {
    LexLeTotalOrder();
  }

  /** An entry of `get_all_watchlist_grouped`. */
  datatype WatchEntry = WatchEntry(code: string, name: string)

  function EntryOf(r: WatchRow): WatchEntry {
    WatchEntry(r.code, r.name)
  }

  /** `ORDER BY platform, user_id`. */
  function ByPlatformUser(): (WatchRow, WatchRow) -> bool {
    (a: WatchRow, b: WatchRow) => LexLess(a.platform, b.platform) || (a.platform == b.platform && a.userId <= b.userId)
  }

  lemma {:induction false} ByPlatformUserPreorder()
    ensures TotalPreorder(ByPlatformUser())
  {
    forall a: WatchRow, b: WatchRow ensures ByPlatformUser()(a, b) || ByPlatformUser()(b, a) {
      LexTrichotomy(a.platform, b.platform);
    }
    forall a: WatchRow, b: WatchRow, c: WatchRow | ByPlatformUser()(a, b) && ByPlatformUser()(b, c)
      ensures ByPlatformUser()(a, c)
    {
      if LexLess(a.platform, b.platform) && LexLess(b.platform, c.platform) {
        LexLessTransitive(a.platform, b.platform, c.platform);
      }
    }
  }

  /** Some row is on platform `p`. */
  ghost predicate HasPlatform(rows: seq<WatchRow>, p: string) {
    exists r :: r in rows && r.platform == p
  }

  /** Some row belongs to user `u` on platform `p`. */
  ghost predicate HasUser(rows: seq<WatchRow>, p: string, u: int) {
    exists r :: r in rows && r.platform == p && r.userId == u
  }

  /** The nested dict `{platform: {user_id: [entries]}}` holds exactly the platforms and
      users of `rows`, and each user's entries in the order of `rows`. */
  ghost predicate GroupedMatches(g: map<string, map<int, seq<WatchEntry>>>, rows: seq<WatchRow>) {
    && (forall p :: p in g <==> HasPlatform(rows, p))
    && (forall p, u :: p in g ==> (u in g[p] <==> HasUser(rows, p, u)))
    && (forall p, u :: p in g && u in g[p] ==> g[p][u] == Map(Filter(rows, Owner(u, p)), EntryOf))
  }

  /** The entries of one user after one more row. */
  lemma {:induction false} OwnerSnoc(rows: seq<WatchRow>, row: WatchRow, u: int, p: string)
    ensures Map(Filter(rows + [row], Owner(u, p)), EntryOf)
         == Map(Filter(rows, Owner(u, p)), EntryOf) + (if row.userId == u && row.platform == p then [EntryOf(row)] else [])
  {
    FilterAppend(rows, [row], Owner(u, p));
    assert [row][1..] == [];
    MapAppend(Filter(rows, Owner(u, p)), Filter([row], Owner(u, p)), EntryOf);
  }

  /** A user with no rows has no entries. */
  lemma {:induction false} OwnerAbsent(rows: seq<WatchRow>, u: int, p: string)
    requires !HasUser(rows, p, u)
    ensures Filter(rows, Owner(u, p)) == []
  {
    FilterNone(rows, Owner(u, p));
  }

  /** The dict after one more row: the row's platform and user get an entry. */
  function GroupedStep(g: map<string, map<int, seq<WatchEntry>>>, row: WatchRow): map<string, map<int, seq<WatchEntry>>> {
    var inner := if row.platform in g then g[row.platform] else map[];
    var entries := if row.userId in inner then inner[row.userId] else [];
    g[row.platform := inner[row.userId := entries + [EntryOf(row)]]]
  }

  lemma {:induction false} GroupedSnocKeys(g: map<string, map<int, seq<WatchEntry>>>, rows: seq<WatchRow>, row: WatchRow)
    requires GroupedMatches(g, rows)
    ensures var g' := GroupedStep(g, row);
      && (forall p :: p in g' <==> HasPlatform(rows + [row], p))
      && (forall p, u :: p in g' ==> (u in g'[p] <==> HasUser(rows + [row], p, u)))
  {
    var rows' := rows + [row];
    assert row in rows';
    assert forall r :: r in rows' <==> r in rows || r == row;
  }

  lemma {:induction false} GroupedSnocEntries(g: map<string, map<int, seq<WatchEntry>>>, rows: seq<WatchRow>, row: WatchRow)
    requires GroupedMatches(g, rows)
    ensures var g' := GroupedStep(g, row);
      forall p, u :: p in g' && u in g'[p] ==> g'[p][u] == Map(Filter(rows + [row], Owner(u, p)), EntryOf)
  {
    var g' := GroupedStep(g, row);
    forall p, u | p in g' && u in g'[p] ensures g'[p][u] == Map(Filter(rows + [row], Owner(u, p)), EntryOf) {
      OwnerSnoc(rows, row, u, p);
      if p == row.platform && u == row.userId && !(p in g && u in g[p]) {
        OwnerAbsent(rows, u, p);
      }
    }
  }

  /** One iteration of the grouping loop keeps the dict matching the rows read so far. */
  lemma {:induction false} GroupedSnoc(g: map<string, map<int, seq<WatchEntry>>>, rows: seq<WatchRow>, row: WatchRow)
    requires GroupedMatches(g, rows)
    ensures GroupedMatches(GroupedStep(g, row), rows + [row])
  {
    GroupedSnocKeys(g, rows, row);
    GroupedSnocEntries(g, rows, row);
  }

  /** The rows of one user on one platform are tied under `ORDER BY platform, user_id`,
      so the stable sort keeps them in table order. */
  lemma {:induction false} SortedOwnerRows(rows: seq<WatchRow>, u: int, p: string)
    ensures Filter(SortBy(rows, ByPlatformUser()), Owner(u, p)) == Filter(rows, Owner(u, p))
  {
    ByPlatformUserPreorder();
    SortByFilter(rows, ByPlatformUser(), Owner(u, p));
    var f := Filter(rows, Owner(u, p));
    FilterMembers(rows, Owner(u, p));
    assert forall i :: 0 <= i < |f| ==> f[i] in f;
    SortByTied(f, ByPlatformUser());
  }

  /** The dictionary the grouping loop has built after the rows `rows`, in their order. */
  function GroupedOf(rows: seq<WatchRow>): map<string, map<int, seq<WatchEntry>>> {
    if |rows| == 0 then map[] else GroupedStep(GroupedOf(rows[..|rows| - 1]), rows[|rows| - 1])
  }

  /** The loop's dictionary holds exactly the platforms and users of the rows read, each
      user's entries in reading order. */
  lemma {:induction false} GroupedOfMatches(rows: seq<WatchRow>)
    ensures GroupedMatches(GroupedOf(rows), rows)
  {
    if |rows| > 0 {
      var pre := rows[..|rows| - 1];
      GroupedOfMatches(pre);
      GroupedSnoc(GroupedOf(pre), pre, rows[|rows| - 1]);
      assert pre + [rows[|rows| - 1]] == rows;
    }
  }

  /** The grouping is insensitive to the `ORDER BY platform, user_id` that precedes it. */
  lemma {:induction false} GroupedUnsorted(g: map<string, map<int, seq<WatchEntry>>>, rows: seq<WatchRow>)
    requires GroupedMatches(g, SortBy(rows, ByPlatformUser()))
    ensures GroupedMatches(g, rows)
  {
    var sorted := SortBy(rows, ByPlatformUser());
    assert forall x :: x in sorted <==> x in rows by {
      forall x ensures x in sorted <==> x in rows {
        assert x in sorted <==> x in multiset(sorted);
        assert x in rows <==> x in multiset(rows);
      }
    }
    assert forall p :: HasPlatform(sorted, p) <==> HasPlatform(rows, p);
    assert forall p, u :: HasUser(sorted, p, u) <==> HasUser(rows, p, u);
    forall p, u ensures Filter(sorted, Owner(u, p)) == Filter(rows, Owner(u, p)) {
      SortedOwnerRows(rows, u, p);
    }
  }

  // ---------------------------------------------------------------- the manager

  class Database {
    var dailyPrices: seq<DailyRow>
    var financials: map<string, FinRow>
    var watchlist: seq<WatchRow>

    /** The UNIQUE constraints of the two sequence-held tables. */
    ghost predicate Valid()
      reads this
    {
      UniqueDaily(dailyPrices) && UniqueWatch(watchlist)
    }

    /** A fresh database: `_create_tables` on an empty file. */
    constructor ()
      ensures Valid()
      ensures dailyPrices == [] && financials == map[] && watchlist == []
    {
      dailyPrices := [];
      financials := map[];
      watchlist := [];
    }

    /** `save_daily_prices`: nothing for an empty batch; otherwise `INSERT OR REPLACE` of
        every record in one transaction. A record without a close breaks `종가 NOT NULL`,
        the transaction is rolled back and `IntegrityError` is raised. */
    method SaveDailyPrices(records: seq<DailyRecord>) returns (r: Result<()>)
      requires Valid()
      modifies this
      ensures Valid()
      ensures financials == old(financials) && watchlist == old(watchlist)
      ensures |records| == 0 ==> r == Ok(()) && dailyPrices == old(dailyPrices)
      ensures (exists i :: 0 <= i < |records| && records[i].close.None?) ==>
                r == Err("IntegrityError") && dailyPrices == old(dailyPrices)
      ensures (forall i :: 0 <= i < |records| ==> records[i].close.Some?) ==>
                && r == Ok(())
                && dailyPrices == ReplaceAll(old(dailyPrices), Map(records, ToRow))
                && View(dailyPrices) == View(old(dailyPrices)) + View(Map(records, ToRow))
    {
      if |records| == 0 {
        return Ok(());
      }
      var saved := dailyPrices;
      ghost var batch := Map(records, ToRow);
      var i := 0;
      while i < |records|
        invariant 0 <= i <= |records|
        invariant forall j :: 0 <= j < i ==> records[j].close.Some?
        invariant UniqueDaily(dailyPrices)
        invariant financials == old(financials) && watchlist == old(watchlist)
        invariant ReplaceAll(dailyPrices, batch[i..]) == ReplaceAll(saved, batch)
      {
        var rec := records[i];
        if rec.close.None? {
          dailyPrices := saved;
          return Err("IntegrityError");
        }
        ReplaceStep(dailyPrices, batch, i);
        dailyPrices := ReplaceRow(dailyPrices, ToRow(rec));
        i := i + 1;
      }
      assert batch[i..] == [];
      ViewReplaceAll(saved, batch);
      return Ok(());
    }

    /** `get_cached_stock_codes`: the codes whose whole stored history reaches from
        the start threshold to the end threshold. */
    function CachedStockCodes(startDate: string, endDate: string): (r: Result<set<string>>)
      reads this
      ensures Thresholds(startDate, endDate).Err? ==> r == Err(Thresholds(startDate, endDate).error)
      ensures Thresholds(startDate, endDate).Ok? ==>
                r.Ok? && forall c :: c in r.value <==>
                  (ReachesBack(dailyPrices, c, Thresholds(startDate, endDate).value.0)
                   && ReachesForward(dailyPrices, c, Thresholds(startDate, endDate).value.1))
    {
      match Thresholds(startDate, endDate)
      case Err(e) => Err(e)
      case Ok((lo, hi)) =>
        var codes := Covering(dailyPrices, lo, hi);
        assert forall c :: c in codes <==> ReachesBack(dailyPrices, c, lo) && ReachesForward(dailyPrices, c, hi) by {
          forall c ensures c in codes <==> ReachesBack(dailyPrices, c, lo) && ReachesForward(dailyPrices, c, hi) {
            CoveringIff(dailyPrices, lo, hi, c);
          }
        }
        Ok(codes)
    }

    /** `has_data`: `COUNT(DISTINCT 종목코드) > 0` over the period, i.e. some row lies
        in it. */
    function HasData(startDate: string, endDate: string): (r: bool)
      reads this
      ensures r <==> exists i :: 0 <= i < |dailyPrices| && InWindow(startDate, endDate, None)(dailyPrices[i])
    {
      var codes := set row | row in dailyPrices && InWindow(startDate, endDate, None)(row) :: row.code;
      if exists i :: 0 <= i < |dailyPrices| && InWindow(startDate, endDate, None)(dailyPrices[i]) then
        var i :| 0 <= i < |dailyPrices| && InWindow(startDate, endDate, None)(dailyPrices[i]);
        assert dailyPrices[i] in dailyPrices;
        assert dailyPrices[i].code in codes;
        |codes| > 0
      else
        |codes| > 0
    }

    /** `get_prices`: the window's rows (of one market when a non-empty market is
        given), ranked, then cut to `top_n` when `top_n` is truthy. */
    method GetPrices(startDate: string, endDate: string, market: Option<string>, topN: Option<int>,
                     round: real -> real) returns (results: seq<PriceEntry>)
      ensures results == Truncate(Rank(Selected(dailyPrices, startDate, endDate, market), round), topN)
    {
      var rows := Selected(dailyPrices, startDate, endDate, market);
      results := RankRows(rows, round);
      if topN.Some? && topN.value != 0 {
        PyPrefix(results, topN.value);
        results := PySlice(results, 0, topN.value);
      }
    }

    /** `get_prices_by_codes`: nothing for no codes; otherwise the window's rows of the
        listed codes, ranked. */
    method GetPricesByCodes(startDate: string, endDate: string, codes: seq<string>, round: real -> real)
      returns (results: seq<PriceEntry>)
      ensures |codes| == 0 ==> results == []
      ensures |codes| > 0 ==> results == Rank(SelectedCodes(dailyPrices, startDate, endDate, codes), round)
    {
      if |codes| == 0 {
        return [];
      }
      var rows := SelectedCodes(dailyPrices, startDate, endDate, codes);
      results := RankRows(rows, round);
    }

    /** `save_financials`: nothing for an empty batch; otherwise `INSERT OR REPLACE` of
        every record, stamped with today's date (`today` stands for the clock). */
    method SaveFinancials(records: seq<FinRecord>, today: string)
      modifies this
      ensures dailyPrices == old(dailyPrices) && watchlist == old(watchlist)
      ensures financials == FinAfter(old(financials), records, today)
      ensures forall i :: 0 <= i < |records| && (forall j :: i < j < |records| ==> records[j].code != records[i].code) ==>
                records[i].code in financials
                && financials[records[i].code] == FinRow(records[i].roe, records[i].operatingMargin, today)
      ensures forall c :: (forall i :: 0 <= i < |records| ==> records[i].code != c) ==>
                (c in financials <==> c in old(financials))
                && (c in financials ==> financials[c] == old(financials)[c])
    {
      if |records| == 0 {
        return;
      }
      var i := 0;
      while i < |records|
        invariant 0 <= i <= |records|
        invariant dailyPrices == old(dailyPrices) && watchlist == old(watchlist)
        invariant FinAfter(financials, records[i..], today) == FinAfter(old(financials), records, today)
      {
        var rec := records[i];
        assert records[i..][0] == rec && records[i..][1..] == records[i + 1..];
        financials := financials[rec.code := FinRow(rec.roe, rec.operatingMargin, today)];
        i := i + 1;
      }
      assert records[i..] == [];
      forall k | 0 <= k < |records| && (forall j :: k < j < |records| ==> records[j].code != records[k].code)
        ensures records[k].code in financials
                && financials[records[k].code] == FinRow(records[k].roe, records[k].operatingMargin, today)
      {
        FinAfterLast(old(financials), records, today, k);
      }
      forall c | forall i :: 0 <= i < |records| ==> records[i].code != c
        ensures (c in financials <==> c in old(financials))
                && (c in financials ==> financials[c] == old(financials)[c])
      {
        FinAfterUntouched(old(financials), records, today, c);
      }
    }

    /** `get_financials`: nothing for no codes; otherwise the ratios of the listed codes
        that have a row. */
    function GetFinancials(codes: seq<string>): (r: map<string, Ratios>)
      reads this
      ensures |codes| == 0 ==> r == map[]
      ensures forall c :: c in r <==> c in codes && c in financials
      ensures forall c :: c in r ==> r[c] == RatiosOf(financials[c])
    {
      if |codes| == 0 then map[]
      else map c | c in codes && c in financials :: RatiosOf(financials[c])
    }

    /** `add_watchlist`: `INSERT OR IGNORE`, so a key already present leaves the table as
        it is and reports `False`. `today` stands for the clock. */
    method AddWatchlist(userId: int, code: string, name: string, today: string, platform: string := "telegram")
      returns (added: bool)
      requires Valid()
      modifies this
      ensures Valid()
      ensures dailyPrices == old(dailyPrices) && financials == old(financials)
      ensures added <==> !HasWatch(old(watchlist), WatchKey(userId, platform, code))
      ensures added ==> watchlist == old(watchlist) + [WatchRow(userId, platform, code, name, today)]
      ensures !added ==> watchlist == old(watchlist)
      ensures HasWatch(watchlist, WatchKey(userId, platform, code))
    {
      var key := WatchKey(userId, platform, code);
      if HasWatch(watchlist, key) {
        return false;
      }
      var row := WatchRow(userId, platform, code, name, today);
      watchlist := watchlist + [row];
      assert WatchKeyOf(watchlist[|watchlist| - 1]) == key;
      return true;
    }

    /** `remove_watchlist`: `DELETE` by key, reporting whether a row went. */
    method RemoveWatchlist(userId: int, code: string, platform: string := "telegram") returns (removed: bool)
      requires Valid()
      modifies this
      ensures Valid()
      ensures dailyPrices == old(dailyPrices) && financials == old(financials)
      ensures removed <==> HasWatch(old(watchlist), WatchKey(userId, platform, code))
      ensures watchlist == Filter(old(watchlist), NotKey(WatchKey(userId, platform, code)))
      ensures |watchlist| == |old(watchlist)| - (if removed then 1 else 0)
      ensures !HasWatch(watchlist, WatchKey(userId, platform, code))
    {
      var key := WatchKey(userId, platform, code);
      removed := HasWatch(watchlist, key);
      RemoveCount(watchlist, key);
      watchlist := Filter(watchlist, NotKey(key));
    }

    /** `get_watchlist`: one user's rows on one platform ordered by `등록일`. */
    function GetWatchlist(userId: int, platform: string := "telegram"): (r: seq<WatchItem>)
      reads this
      ensures multiset(r) == multiset(Map(Filter(watchlist, Owner(userId, platform)), ItemOf))
      ensures forall i, j :: 0 <= i < j < |r| ==> LexLe(r[i].added, r[j].added)
    {
      var mine := Filter(watchlist, Owner(userId, platform));
      var rows := SortBy(mine, ByAdded());
      ByAddedPreorder();
      SortBySorted(mine, ByAdded());
      PermutationMap(rows, mine, ItemOf);
      Map(rows, ItemOf)
    }

    /** `get_all_watchlist_grouped`: `{platform: {user_id: [entries]}}` over the table read
        `ORDER BY platform, user_id`. */
    method GetAllWatchlistGrouped() returns (grouped: map<string, map<int, seq<WatchEntry>>>)
      ensures GroupedMatches(grouped, watchlist)
    {
      var rows := SortBy(watchlist, ByPlatformUser());
      grouped := map[];
      var i := 0;
      while i < |rows|
        invariant 0 <= i <= |rows| && grouped == GroupedOf(rows[..i])
      {
        var row := rows[i];
        var plat := row.platform;
        var uid := row.userId;
        // `if plat not in grouped` / `if uid not in grouped[plat]` open empty containers
        var inner := if plat in grouped then grouped[plat] else map[];
        var entries := if uid in inner then inner[uid] else [];
        grouped := grouped[plat := inner[uid := entries + [EntryOf(row)]]];
        assert rows[..i + 1][..i] == rows[..i];
        i := i + 1;
      }
      assert rows[..i] == rows;
      GroupedOfMatches(rows);
      GroupedUnsorted(grouped, watchlist);
    }
  }
}
