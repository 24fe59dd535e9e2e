/**
 * The return ranking shared by `get_prices` and `get_prices_by_codes`: rows of
 * `(code, name, market, date, close)` grouped by code in first-appearance order,
 * each group's days sorted, the earliest and latest close giving a return, the
 * results sorted by return, highest first.
 */
module Ranking {
  import opened Wrappers
  import opened Text
  import opened Seqs

  /** A row of `SELECT 종목코드, 종목명, 시장, 날짜, 종가 FROM daily_prices ...`. */
  datatype PriceRow = PriceRow(code: string, name: string, market: string, date: string, close: int)

  /** The `(날짜, 종가)` pair a group collects. */
  datatype Day = Day(date: string, close: int)

  /** An entry of the `stocks` dict: the code, the name and market of its first row, its days. */
  datatype Group = Group(code: string, name: string, market: string, days: seq<Day>)

  /** A result dict of `get_prices`. */
  datatype PriceEntry = PriceEntry(code: string, name: string, market: string, start: int, end: int, rate: real)

  function RowCode(r: PriceRow): string {
    r.code
  }

  function DayOf(r: PriceRow): Day {
    Day(r.date, r.close)
  }

  function HasCode(c: string): PriceRow -> bool {
    (r: PriceRow) => r.code == c
  }

  /** The days of code `c`, in row order. */
  function DaysOf(rows: seq<PriceRow>, c: string): seq<Day> {
    Map(Filter(rows, HasCode(c)), DayOf)
  }

  /** The group a code's first row opens, holding all the code's days. */
  function GroupFor(rows: seq<PriceRow>): PriceRow -> Group {
    (first: PriceRow) => Group(first.code, first.name, first.market, DaysOf(rows, first.code))
  }

  /** The `stocks` dict after the grouping loop, in insertion order. */
  function Groups(rows: seq<PriceRow>): seq<Group> {
    Map(DedupeFirst(rows, RowCode), GroupFor(rows))
  }

  // ---------------------------------------------------------------- one group

  /** Python's order on `(날짜, 종가)` tuples: by date, then by close. */
  function DayLe(): (Day, Day) -> bool {
    (a: Day, b: Day) => LexLess(a.date, b.date) || (a.date == b.date && a.close <= b.close)
  }

  lemma {:induction false} DayLeTotalOrder()
    ensures TotalPreorder(DayLe())
    ensures forall a, b :: DayLe()(a, b) && DayLe()(b, a) ==> a == b
  {
    forall a: Day, b: Day ensures DayLe()(a, b) || DayLe()(b, a) {
      LexTrichotomy(a.date, b.date);
    }
    forall a: Day, b: Day, c: Day | DayLe()(a, b) && DayLe()(b, c) ensures DayLe()(a, c) {
      if LexLess(a.date, b.date) && LexLess(b.date, c.date) {
        LexLessTransitive(a.date, b.date, c.date);
      }
    }
    forall a: Day, b: Day | DayLe()(a, b) && DayLe()(b, a) ensures a == b {
      LexLessAsymmetric(a.date, b.date);
      LexLessIrreflexive(a.date);
    }
  }

  /** The return in percent before rounding. */
  function Rate(start: int, end: int): real
    requires start != 0
  {
    (end - start) as real / start as real * 100.0
  }

  /** One iteration of the results loop: `days = sorted(...)`, at least two days, a nonzero
      first close. `round` is Python's `round(x, 2)`. */
  function RankEntry(g: Group, round: real -> real): (r: Option<PriceEntry>)
    ensures r.Some? <==> |g.days| >= 2 && SortBy(g.days, DayLe())[0].close != 0
  {
    var days := SortBy(g.days, DayLe());
    if |days| < 2 then None
    else
      var start := days[0].close;
      var end := days[|days| - 1].close;
      if start == 0 then None
      else Some(PriceEntry(g.code, g.name, g.market, start, end, round(Rate(start, end))))
  }

  /** The first of the sorted days is the earliest, the last the latest. */
  lemma {:induction false} SortedDaysEnds(days: seq<Day>)
    requires |days| > 0
    ensures var s := SortBy(days, DayLe());
      && s[0] in days && s[|s| - 1] in days
      && (forall d :: d in days ==> DayLe()(s[0], d) && DayLe()(d, s[|s| - 1]))
  {
    DayLeTotalOrder();
    SortByEnds(days, DayLe());
  }

  /** The per-group rule as a value, so that the loop over groups can be reasoned about
      without unfolding it. */
  function EntryRule(round: real -> real): Group -> Option<PriceEntry> {
    (g: Group) => RankEntry(g, round)
  }

  /** `results.sort(key=lambda x: x["수익률(%)"], reverse=True)`: stable, highest first. */
  function ByRateDesc(): (PriceEntry, PriceEntry) -> bool {
    (a: PriceEntry, b: PriceEntry) => a.rate >= b.rate
  }

  lemma {:induction false} ByRateDescPreorder()
    ensures TotalPreorder(ByRateDesc())
  {
  }

  /** The full ranking of a set of rows. */
  function Rank(rows: seq<PriceRow>, round: real -> real): seq<PriceEntry> {
    SortBy(Harvest(Groups(rows), EntryRule(round)), ByRateDesc())
  }

  /** `if top_n: results = results[:top_n]`: `None` and `0` keep everything; a negative
      `top_n` is truthy too, and drops that many entries from the end. */
  function Truncate(s: seq<PriceEntry>, topN: Option<int>): (r: seq<PriceEntry>)
    ensures |r| <= |s| && r == s[..|r|]
    ensures topN.None? || topN == Some(0) ==> r == s
    ensures topN.Some? && topN.value > 0 ==> |r| == if topN.value < |s| then topN.value else |s|
    ensures topN.Some? && topN.value < 0 ==> |r| == if |s| + topN.value < 0 then 0 else |s| + topN.value
  {
    if topN.Some? && topN.value != 0 then
      PyPrefix(s, topN.value);
      PySlice(s, 0, topN.value)
    else s
  }

  // ---------------------------------------------------------------- properties

  /** The groups have pairwise distinct codes. */
  lemma {:induction false} GroupsDistinct(rows: seq<PriceRow>)
    ensures var gs := Groups(rows);
      forall i, j :: 0 <= i < j < |gs| ==> gs[i].code != gs[j].code
  {
    var d := DedupeFirst(rows, RowCode);
    var gs := Groups(rows);
    forall i, j | 0 <= i < j < |gs| ensures gs[i].code != gs[j].code {
      assert gs[i].code == RowCode(d[i]) && gs[j].code == RowCode(d[j]);
    }
  }

  /** Every code of the rows has a group, and only those. */
  lemma {:induction false} GroupsCover(rows: seq<PriceRow>, c: string)
    ensures (exists i :: 0 <= i < |Groups(rows)| && Groups(rows)[i].code == c)
        <==> (exists r :: r in rows && r.code == c)
  {
    var d := DedupeFirst(rows, RowCode);
    var gs := Groups(rows);
    DedupeMembers(rows, RowCode);
    if exists r :: r in rows && r.code == c {
      var r :| r in rows && r.code == c;
      var k :| 0 <= k < |rows| && rows[k] == r;
      assert Map(rows, RowCode)[k] == c;
      assert c in Map(d, RowCode);
      var i :| 0 <= i < |d| && Map(d, RowCode)[i] == c;
      assert gs[i].code == c;
    }
    if exists i :: 0 <= i < |gs| && gs[i].code == c {
      var i :| 0 <= i < |gs| && gs[i].code == c;
      assert d[i] in rows;
    }
  }

  /** Appending a row adds its day to its own code's days only. */
  lemma {:induction false} DaysSnoc(rows: seq<PriceRow>, r: PriceRow, c: string)
    ensures DaysOf(rows + [r], c) == DaysOf(rows, c) + (if r.code == c then [DayOf(r)] else [])
  {
    FilterAppend(rows, [r], HasCode(c));
    assert [r][1..] == [];
    MapAppend(Filter(rows, HasCode(c)), Filter([r], HasCode(c)), DayOf);
  }

  /** A code with no row has no days. */
  lemma {:induction false} DaysAbsent(rows: seq<PriceRow>, c: string)
    requires forall r :: r in rows ==> r.code != c
    ensures DaysOf(rows, c) == []
  {
    FilterNone(rows, HasCode(c));
  }

  lemma {:induction false} GroupForSnoc(rows: seq<PriceRow>, r: PriceRow, x: PriceRow)
    ensures GroupFor(rows + [r])(x) ==
      GroupFor(rows)(x).(days := GroupFor(rows)(x).days + (if r.code == x.code then [DayOf(r)] else []))
  {
    DaysSnoc(rows, r, x.code);
  }

  /** The codes of the groups are the keys of the deduplicated rows. */
  lemma {:induction false} GroupCodes(rows: seq<PriceRow>)
    ensures Map(Groups(rows), (g: Group) => g.code) == Map(DedupeFirst(rows, RowCode), RowCode)
  {
  }

  /** One step of the grouping loop when the row's code already has a group: that
      group's days grow by the row's day. */
  lemma {:induction false} GroupsSnocOld(rows: seq<PriceRow>, r: PriceRow, j: nat)
    requires j < |Groups(rows)| && Groups(rows)[j].code == r.code
    ensures var gs := Groups(rows);
      Groups(rows + [r]) == gs[j := gs[j].(days := gs[j].days + [DayOf(r)])]
  {
    var d := DedupeFirst(rows, RowCode);
    assert d[j].code == r.code && DedupeFirst(rows + [r], RowCode) == d by {
      assert Map(d, RowCode)[j] == r.code;
      DedupeSnoc(rows, r, RowCode);
    }
    OnlyRowOfCode(d, r, j);
    GroupsGrowAt(rows, r, d, j);
  }

  /** In rows with distinct codes, a code occurs at one position only. */
  lemma {:induction false} OnlyRowOfCode(d: seq<PriceRow>, r: PriceRow, j: nat)
    requires j < |d| && d[j].code == r.code
    requires forall a, b :: 0 <= a < b < |d| ==> RowCode(d[a]) != RowCode(d[b])
    ensures forall i :: 0 <= i < |d| && i != j ==> d[i].code != r.code
  {
    forall i | 0 <= i < |d| && i != j ensures d[i].code != r.code {
      assert RowCode(d[i]) != RowCode(d[j]);
    }
  }

  /** Over first rows `d` whose only row of `r`'s code is at `j`, appending `r` extends
      that one group. */
  lemma {:induction false} GroupsGrowAt(rows: seq<PriceRow>, r: PriceRow, d: seq<PriceRow>, j: nat)
    requires j < |d| && d[j].code == r.code
    requires forall i :: 0 <= i < |d| && i != j ==> d[i].code != r.code
    ensures var gs := Map(d, GroupFor(rows));
      Map(d, GroupFor(rows + [r])) == gs[j := gs[j].(days := gs[j].days + [DayOf(r)])]
  {
    var gs := Map(d, GroupFor(rows));
    OtherGroupsSame(rows, r, d, j);
    GroupForSnoc(rows, r, d[j]);
    MapUpdateAt(d, GroupFor(rows), GroupFor(rows + [r]), j, gs[j].(days := gs[j].days + [DayOf(r)]));
  }

  /** A row leaves the groups of the other codes as they are. */
  lemma {:induction false} OtherGroupsSame(rows: seq<PriceRow>, r: PriceRow, d: seq<PriceRow>, j: nat)
    requires forall i :: 0 <= i < |d| && i != j ==> d[i].code != r.code
    ensures forall i :: 0 <= i < |d| && i != j ==> GroupFor(rows + [r])(d[i]) == GroupFor(rows)(d[i])
  {
    forall i | 0 <= i < |d| && i != j ensures GroupFor(rows + [r])(d[i]) == GroupFor(rows)(d[i]) {
      GroupForSnoc(rows, r, d[i]);
    }
  }

  /** A code without a group occurs in no row, and its row is kept by the deduplication. */
  lemma {:induction false} NewCode(rows: seq<PriceRow>, r: PriceRow)
    requires forall j :: 0 <= j < |Groups(rows)| ==> Groups(rows)[j].code != r.code
    ensures DedupeFirst(rows + [r], RowCode) == DedupeFirst(rows, RowCode) + [r]
    ensures forall x :: x in rows ==> x.code != r.code
  {
    var d := DedupeFirst(rows, RowCode);
    GroupCodes(rows);
    DedupeMembers(rows, RowCode);
    assert r.code !in Map(d, RowCode) by {
      assert r.code !in Map(Groups(rows), (g: Group) => g.code);
    }
    DedupeSnoc(rows, r, RowCode);
    forall x | x in rows ensures x.code != r.code {
      var k :| 0 <= k < |rows| && rows[k] == x;
      assert Map(rows, RowCode)[k] == x.code;
    }
  }

  /** One step of the grouping loop for a new code: a group opens at the end. */
  lemma {:induction false} GroupsSnocNew(rows: seq<PriceRow>, r: PriceRow)
    requires forall j :: 0 <= j < |Groups(rows)| ==> Groups(rows)[j].code != r.code
    ensures Groups(rows + [r]) == Groups(rows) + [Group(r.code, r.name, r.market, [DayOf(r)])]
  {
    var d := DedupeFirst(rows, RowCode);
    var before := GroupFor(rows);
    var after := GroupFor(rows + [r]);
    NewCode(rows, r);
    DaysAbsent(rows, r.code);
    DedupeMembers(rows, RowCode);
    forall i | 0 <= i < |d| ensures after(d[i]) == before(d[i]) {
      GroupForSnoc(rows, r, d[i]);
      assert d[i] in rows;
    }
    MapSame(d, before, after);
    GroupForSnoc(rows, r, r);
    assert after(r) == Group(r.code, r.name, r.market, [DayOf(r)]) by {
      assert before(r).days == [];
    }
    MapAppend(d, [r], after);
    assert Groups(rows + [r]) == Map(d, after) + Map([r], after);
  }

  /** A group holds every day of its code and takes its name and market from the code's
      first row. */
  lemma {:induction false} GroupsContent(rows: seq<PriceRow>, j: nat)
    requires j < |Groups(rows)|
    ensures var g := Groups(rows)[j];
      && g.days == DaysOf(rows, g.code)
      && exists i :: IsFirstOccurrence(rows, RowCode, i)
                   && g.name == rows[i].name && g.market == rows[i].market && g.code == rows[i].code
  {
    var d := DedupeFirst(rows, RowCode);
    DedupeOrder(rows, RowCode);
    var idx := DedupeIndices(rows, RowCode);
    assert Groups(rows)[j] == GroupFor(rows)(d[j]) && d[j] == rows[idx[j]];
    assert IsFirstOccurrence(rows, RowCode, idx[j]);
  }

  /** Code `c` has an entry in the ranking `s`. */
  predicate Listed(s: seq<PriceEntry>, c: string) {
    exists e :: e in s && e.code == c
  }

  /** A code's days earn it an entry: at least two of them, and a nonzero earliest close. */
  predicate Qualifies(days: seq<Day>) {
    var sorted := SortBy(days, DayLe());
    |sorted| >= 2 && sorted[0].close != 0
  }

  /** A code with rows is ranked iff its days qualify. */
  lemma {:induction false} RankMembers(rows: seq<PriceRow>, round: real -> real, c: string)
    requires exists r :: r in rows && r.code == c
    ensures Listed(Rank(rows, round), c) <==> Qualifies(DaysOf(rows, c))
  {
    var gs := Groups(rows);
    GroupsCover(rows, c);
    GroupsDistinct(rows);
    var i :| 0 <= i < |gs| && gs[i].code == c;
    GroupsContent(rows, i);
    RankHolds(rows, round, i);
  }

  /** The entries of the ranking are exactly the entries of the groups. */
  lemma {:induction false} RankEntries(rows: seq<PriceRow>, round: real -> real, e: PriceEntry)
    ensures e in Rank(rows, round) <==> exists g :: g in Groups(rows) && RankEntry(g, round) == Some(e)
  {
    var col := Harvest(Groups(rows), EntryRule(round));
    assert e in Rank(rows, round) <==> e in multiset(Rank(rows, round));
    assert e in col <==> e in multiset(col);
    HarvestMembers(Groups(rows), EntryRule(round), e);
  }

  /** A group's code is ranked exactly when the group has an entry, and then by that entry. */
  lemma {:induction false} RankHolds(rows: seq<PriceRow>, round: real -> real, i: nat)
    requires i < |Groups(rows)|
    requires forall a, b :: 0 <= a < b < |Groups(rows)| ==> Groups(rows)[a].code != Groups(rows)[b].code
    ensures var g := Groups(rows)[i];
      && ((exists e :: e in Rank(rows, round) && e.code == g.code) <==> RankEntry(g, round).Some?)
      && (forall e :: e in Rank(rows, round) && e.code == g.code ==> RankEntry(g, round) == Some(e))
  {
    var gs := Groups(rows);
    var g := gs[i];
    forall e | e in Rank(rows, round) && e.code == g.code ensures RankEntry(g, round) == Some(e) {
      RankEntries(rows, round, e);
      var h :| h in gs && RankEntry(h, round) == Some(e);
      OnlyGroupOfCode(gs, i, h, round, e);
    }
    if RankEntry(g, round).Some? {
      RankEntries(rows, round, RankEntry(g, round).value);
    }
  }

  /** Among groups with distinct codes, only the one of an entry's code yields it. */
  lemma {:induction false} OnlyGroupOfCode(gs: seq<Group>, i: nat, h: Group, round: real -> real, e: PriceEntry)
    requires i < |gs| && h in gs
    requires forall a, b :: 0 <= a < b < |gs| ==> gs[a].code != gs[b].code
    requires RankEntry(h, round) == Some(e) && e.code == gs[i].code
    ensures h == gs[i]
  {
    var j :| 0 <= j < |gs| && gs[j] == h;
    assert h.code == e.code;
  }

  /** The ranking is sorted highest first and keeps first-appearance order among equal returns. */
  lemma {:induction false} RankOrdered(rows: seq<PriceRow>, round: real -> real, x: PriceEntry)
    ensures SortedBy(Rank(rows, round), ByRateDesc())
    ensures EquivFilter(Rank(rows, round), x, ByRateDesc())
         == EquivFilter(Harvest(Groups(rows), EntryRule(round)), x, ByRateDesc())
  {
    ByRateDescPreorder();
    SortBySorted(Harvest(Groups(rows), EntryRule(round)), ByRateDesc());
    SortByStable(Harvest(Groups(rows), EntryRule(round)), x, ByRateDesc());
  }

  /** A code with rows has days. */
  lemma {:induction false} DaysPresent(rows: seq<PriceRow>, c: string)
    ensures |DaysOf(rows, c)| > 0 <==> exists r :: r in rows && r.code == c
  {
    FilterMembers(rows, HasCode(c));
    var f := Filter(rows, HasCode(c));
    if |f| > 0 {
      assert f[0] in f;
    }
  }

  /** A ranked code's entry is what the per-group rule makes of exactly that code's days,
      under the name and market the entry carries. */
  lemma {:induction false} RankEntryOf(rows: seq<PriceRow>, round: real -> real, c: string, e: PriceEntry)
    requires exists r :: r in rows && r.code == c
    requires e in Rank(rows, round) && e.code == c
    ensures RankEntry(Group(c, e.name, e.market, DaysOf(rows, c)), round) == Some(e)
  {
    var g := EntryGroup(rows, round, c, e);
    RankEntryFields(g, round, e);
    assert g == Group(c, e.name, e.market, DaysOf(rows, c));
  }

  /** What an entry records about its group: its code, name and market, the earliest and
      the latest close of its sorted days, and the rounded return between them. */
  lemma {:induction false} RankEntryFields(g: Group, round: real -> real, e: PriceEntry)
    requires RankEntry(g, round) == Some(e)
    ensures var days := SortBy(g.days, DayLe());
      && |days| >= 2 && e.code == g.code && e.name == g.name && e.market == g.market
      && e.start == days[0].close && e.end == days[|days| - 1].close
      && e.rate == round(Rate(e.start, e.end))
  {
  }

  /** A ranked code's entry is the one its group yields. */
  lemma {:induction false} EntryGroup(rows: seq<PriceRow>, round: real -> real, c: string, e: PriceEntry) returns (g: Group)
    requires exists r :: r in rows && r.code == c
    requires e in Rank(rows, round) && e.code == c
    ensures g.days == DaysOf(rows, c) && RankEntry(g, round) == Some(e)
  {
    var gs := Groups(rows);
    GroupsCover(rows, c);
    GroupsDistinct(rows);
    var i :| 0 <= i < |gs| && gs[i].code == c;
    GroupsContent(rows, i);
    RankHolds(rows, round, i);
    g := gs[i];
  }

  /** Two row sets that give a code the same days rank it alike. */
  lemma {:induction false} RankSameDays(a: seq<PriceRow>, b: seq<PriceRow>, round: real -> real, c: string)
    requires DaysOf(a, c) == DaysOf(b, c)
    requires exists r :: r in b && r.code == c
    ensures Listed(Rank(a, round), c) <==> Listed(Rank(b, round), c)
    ensures forall e1, e2 :: e1 in Rank(a, round) && e2 in Rank(b, round) && e1.code == c && e2.code == c ==>
              e1.start == e2.start && e1.end == e2.end
  {
    DaysPresent(a, c);
    DaysPresent(b, c);
    RankMembers(a, round, c);
    RankMembers(b, round, c);
    forall e1, e2 | e1 in Rank(a, round) && e2 in Rank(b, round) && e1.code == c && e2.code == c
      ensures e1.start == e2.start && e1.end == e2.end
    {
      RankEntryOf(a, round, c, e1);
      RankEntryOf(b, round, c, e2);
      SameDaysSameEnds(Group(c, e1.name, e1.market, DaysOf(a, c)), Group(c, e2.name, e2.market, DaysOf(b, c)), round, e1, e2);
    }
  }

  /** The closes an entry records depend only on its group's days. */
  lemma {:induction false} SameDaysSameEnds(g1: Group, g2: Group, round: real -> real, e1: PriceEntry, e2: PriceEntry)
    requires g1.days == g2.days
    requires RankEntry(g1, round) == Some(e1) && RankEntry(g2, round) == Some(e2)
    ensures e1.start == e2.start && e1.end == e2.end && e1.rate == e2.rate
  {
  }
}
