/**
 * The analysis engine: cleaning a stock's minute bars into a candle series
 * (`fetch_minute_ohlcv`), the MA3/MA5 golden-cross detector
 * (`check_golden_cross`) and the HTML-tag stripper used on news titles
 * (`_strip_html`).
 */
module AnalysisEngine {
  import opened Wrappers
  import opened Text
  import opened Seqs
  import Kis

  // ---------------------------------------------------------------- candles

  /** A cell after `pd.to_numeric(..., errors="coerce")` on integer text: the number `int()`
      reads, or NaN when it reads none. */
  datatype Num = NaN | Num(value: int)

  function ToNumeric(s: string): (n: Num)
    ensures n.Num? <==> ParseInt(s).Some?
    ensures n.Num? ==> ParseInt(s) == Some(n.value)
  {
    match ParseInt(s)
    case None => NaN
    case Some(v) => Num(v)
  }

  /** One row of the minute frame after the columns are renamed. */
  datatype Candle = Candle(time: string, open: Num, high: Num, low: Num, close: Num, volume: Num)

  /** A bar of the minute-chart endpoint as a row: `stck_cntg_hour` becomes `datetime`,
      the price columns are converted to numbers. */
  function ToCandle(b: Kis.Bar): (c: Candle)
    ensures c.time == b.stamp
    ensures c.close == ToNumeric(b.close) && c.volume == ToNumeric(b.volume)
  {
    Candle(b.stamp, ToNumeric(b.open), ToNumeric(b.high), ToNumeric(b.low), ToNumeric(b.close), ToNumeric(b.volume))
  }

  function CandleTime(c: Candle): string {
    c.time
  }

  /** `sort_values("datetime")`: the times are strings, so the order is the string order. */
  function ByTime(): (Candle, Candle) -> bool {
    (a: Candle, b: Candle) => LexLe(a.time, b.time)
  }

  lemma {:induction false} ByTimePreorder()
    ensures TotalPreorder(ByTime())
    ensures forall a, b :: ByTime()(a, b) && ByTime()(b, a) ==> a.time == b.time
  {
    LexLeTotalOrder();
  }

  /** `config.MINUTE_CANDLES`, the default number of candles kept. */
  const MinuteCandles := 30

  /** pandas' `tail(n)`: the last `n` rows; a negative `n` drops the first `-n` rows instead. */
  function Tail<T>(s: seq<T>, n: int): (r: seq<T>)
    ensures 0 <= n ==> |r| == if n < |s| then n else |s|
    ensures n < 0 ==> |r| == if |s| + n < 0 then 0 else |s| + n
    ensures r == s[|s| - |r|..]
  {
    if n >= 0 then (if n < |s| then s[|s| - n..] else s)
    else if -n < |s| then s[-n..] else []
  }

  /** `drop_duplicates(subset="datetime")` then `sort_values("datetime")`. */
  function CleanCandles(cs: seq<Candle>): seq<Candle> {
    SortBy(DedupeFirst(cs, CandleTime), ByTime())
  }

  /** The cleaned frame, cut to its latest `numCandles` rows when it is longer. */
  function MinuteFrame(cs: seq<Candle>, numCandles: int): seq<Candle> {
    var df := CleanCandles(cs);
    if |df| > numCandles then Tail(df, numCandles) else df
  }

  /** `fetch_minute_ohlcv` on the bars the client returned. */
  function FetchMinuteOhlcv(bars: seq<Kis.Bar>, numCandles: int := MinuteCandles): (r: seq<Candle>)
    ensures |bars| == 0 ==> r == []
    ensures |bars| > 0 ==> r == MinuteFrame(Map(bars, ToCandle), numCandles)
  {
    if |bars| == 0 then [] else MinuteFrame(Map(bars, ToCandle), numCandles)
  }

  /** The distinct times among the rows. */
  function Times(cs: seq<Candle>): set<string> {
    set c | c in cs :: c.time
  }

  lemma {:induction false} TimesAsKeys(cs: seq<Candle>)
    ensures (set t | t in Map(cs, CandleTime)) == Times(cs)
  {
    var m := Map(cs, CandleTime);
    forall t | t in m ensures t in Times(cs) {
      var i :| 0 <= i < |m| && m[i] == t;
      assert cs[i] in cs;
    }
    forall t | t in Times(cs) ensures t in m {
      var c :| c in cs && c.time == t;
      var i :| 0 <= i < |cs| && cs[i] == c;
      assert m[i] == t;
    }
  }

  /** The de-duplicated rows carry each time of the input once. */
  lemma {:induction false} DedupeCount(cs: seq<Candle>)
    ensures |DedupeFirst(cs, CandleTime)| == |Times(cs)|
  {
    var d := DedupeFirst(cs, CandleTime);
    var keys := Map(d, CandleTime);
    DedupeMembers(cs, CandleTime);
    assert NoDup(keys);
    CardDistinct(keys);
    TimesAsKeys(cs);
    assert (set t | t in keys) == (set t | t in Map(cs, CandleTime));
  }

  /** Rows of the de-duplicated frame with the same time are the same row. */
  lemma {:induction false} DedupeSameTime(cs: seq<Candle>, x: Candle, y: Candle)
    requires x in DedupeFirst(cs, CandleTime) && y in DedupeFirst(cs, CandleTime)
    requires x.time == y.time
    ensures x == y
  {
    var d := DedupeFirst(cs, CandleTime);
    var a :| 0 <= a < |d| && d[a] == x;
    var b :| 0 <= b < |d| && d[b] == y;
    assert CandleTime(d[a]) == CandleTime(d[b]);
  }

  /** Strictly ascending times. */
  predicate Ascending(df: seq<Candle>) {
    forall i, j :: 0 <= i < j < |df| ==> LexLess(df[i].time, df[j].time)
  }

  /** The cleaned frame has strictly ascending times. */
  lemma {:induction false} CleanCandlesAscending(cs: seq<Candle>)
    ensures Ascending(CleanCandles(cs))
  {
    var d := DedupeFirst(cs, CandleTime);
    var df := CleanCandles(cs);
    ByTimePreorder();
    SortBySorted(d, ByTime());
    assert NoDup(df) by {
      PermutationNoDup(d, df) by {
        forall a, b | 0 <= a < b < |d| ensures d[a] != d[b] {
          assert CandleTime(d[a]) != CandleTime(d[b]);
        }
      }
    }
    forall i, j | 0 <= i < j < |df| ensures LexLess(df[i].time, df[j].time) {
      assert LexLe(df[i].time, df[j].time);
      if df[i].time == df[j].time {
        assert df[i] in multiset(d) && df[j] in multiset(d);
        DedupeSameTime(cs, df[i], df[j]);
      }
    }
  }

  /** The cleaned frame holds each time of the input exactly once. */
  lemma {:induction false} CleanCandlesTimes(cs: seq<Candle>)
    ensures |CleanCandles(cs)| == |Times(cs)|
    ensures Times(CleanCandles(cs)) == Times(cs)
  {
    var d := DedupeFirst(cs, CandleTime);
    DedupeCount(cs);
    TimesPermutation(d, CleanCandles(cs));
    DedupeMembers(cs, CandleTime);
    TimesAsKeys(cs);
    TimesAsKeys(d);
  }

  /** Rearranged rows carry the same times. */
  lemma {:induction false} TimesPermutation(a: seq<Candle>, b: seq<Candle>)
    requires multiset(a) == multiset(b)
    ensures Times(a) == Times(b)
  {
    forall t ensures t in Times(a) <==> t in Times(b) {
      if t in Times(a) {
        var c :| c in a && c.time == t;
        assert c in multiset(b);
      }
      if t in Times(b) {
        var c :| c in b && c.time == t;
        assert c in multiset(a);
      }
    }
  }

  /** The cleaned frame: ascending times, each time of the input once. */
  lemma {:induction false} CleanCandlesOrdered(cs: seq<Candle>)
    ensures Ascending(CleanCandles(cs))
    ensures |CleanCandles(cs)| == |Times(cs)|
    ensures Times(CleanCandles(cs)) == Times(cs)
  {
    CleanCandlesAscending(cs);
    CleanCandlesTimes(cs);
  }

  /** Every cleaned row is the row of the first bar with its time. */
  lemma {:induction false} CleanCandlesFirstWins(cs: seq<Candle>, c: Candle)
    requires c in CleanCandles(cs)
    ensures exists i :: IsFirstOccurrence(cs, CandleTime, i) && c == cs[i]
  {
    var d := DedupeFirst(cs, CandleTime);
    assert c in multiset(d);
    var j :| 0 <= j < |d| && d[j] == c;
    DedupeOrder(cs, CandleTime);
    var idx := DedupeIndices(cs, CandleTime);
    assert IsFirstOccurrence(cs, CandleTime, idx[j]) && c == cs[idx[j]];
  }

  /** However the rows with distinct times are sorted, the result is the same: the unstable
      `sort_values` agrees with the model's stable sort. */
  lemma {:induction false} CleanCandlesAnySort(cs: seq<Candle>, other: seq<Candle>)
    requires multiset(other) == multiset(DedupeFirst(cs, CandleTime))
    requires SortedBy(other, ByTime())
    ensures other == CleanCandles(cs)
  {
    var d := DedupeFirst(cs, CandleTime);
    var df := CleanCandles(cs);
    ByTimePreorder();
    SortBySorted(d, ByTime());
    assert NoTies(df, ByTime()) by {
      forall i, j | 0 <= i < |df| && 0 <= j < |df| && ByTime()(df[i], df[j]) && ByTime()(df[j], df[i])
        ensures df[i] == df[j]
      {
        assert df[i] in multiset(d) && df[j] in multiset(d);
        DedupeSameTime(cs, df[i], df[j]);
      }
    }
    SortedUnique(df, other, ByTime());
  }

  lemma {:induction false} AscendingSuffix(df: seq<Candle>, k: nat)
    requires Ascending(df) && k <= |df|
    ensures Ascending(df[k..])
  {
    forall i, j | 0 <= i < j < |df| - k ensures LexLess(df[k..][i].time, df[k..][j].time) {
      assert df[k..][i] == df[k + i] && df[k..][j] == df[k + j];
    }
  }

  /** The frame keeps the latest `numCandles` distinct times, in ascending order. */
  lemma {:induction false} MinuteFrameLatest(cs: seq<Candle>, numCandles: int)
    ensures var r := MinuteFrame(cs, numCandles);
      var df := CleanCandles(cs);
      var distinct := |Times(cs)|;
      && r == df[|df| - |r|..]
      && (0 <= numCandles ==> |r| == if numCandles < distinct then numCandles else distinct)
      && (numCandles < 0 ==> |r| == if distinct + numCandles < 0 then 0 else distinct + numCandles)
      && Ascending(r)
  {
    CleanCandlesOrdered(cs);
    var df := CleanCandles(cs);
    var r := MinuteFrame(cs, numCandles);
    assert r == df[|df| - |r|..];
    AscendingSuffix(df, |df| - |r|);
  }

  // ---------------------------------------------------------------- golden cross

  /** The `reason` strings of `check_golden_cross`, one constructor per message. */
  datatype Reason =
    | InsufficientData   // fewer than 6 candles
    | MaUnavailable      // the latest MA3 or MA5 is NaN
    | PrevMaUnavailable  // the previous candle's MA3 or MA5 is NaN
    | GoldenCross        // MA3 crossed above MA5
    | AlreadyAbove       // MA3 was already above MA5 on the previous candle
    | StillBelow         // MA3 is still not above MA5

  /** The returned dict; `ma3`/`ma5` are the rounded averages of the latest candle. */
  datatype CrossResult = CrossResult(signal: bool, time: Option<string>, close: Option<Num>,
                                     ma3: Option<real>, ma5: Option<real>, reason: Reason)

  function CandleClose(c: Candle): Num {
    c.close
  }

  /** The sum of a window of closes; NaN when any of them is NaN. */
  function SumOf(ns: seq<Num>): (r: Option<int>)
    ensures r.Some? <==> NaN !in ns
  {
    if |ns| == 0 then Some(0)
    else match (ns[0], SumOf(ns[1..]))
      case (Num(v), Some(t)) => Some(v + t)
      case _ => None
  }

  /** `df["close"].rolling(window=w).mean()` at row `i`: NaN while fewer than `w` rows
      end at `i`, and when any close in the window is NaN. */
  function RollingMean(df: seq<Candle>, i: nat, w: nat): (r: Option<real>)
    requires i < |df| && w > 0
    ensures r.Some? <==> w <= i + 1 && NaN !in Map(df[i + 1 - w..i + 1], CandleClose)
  {
    if i + 1 < w then None
    else match SumOf(Map(df[i + 1 - w..i + 1], CandleClose))
      case None => None
      case Some(t) => Some(t as real / w as real)
  }

  function RoundMean(m: Option<real>, round: real -> real): Option<real> {
    match m
    case None => None
    case Some(x) => Some(round(x))
  }

  /** `check_golden_cross`: compares MA3 and MA5 on the last two candles; a signal is raised
      when MA3 was at or below MA5 on the previous candle and is above it on the latest.
      `round` is Python's `round(x, 2)`. */
  function CheckGoldenCross(df: seq<Candle>, round: real -> real): (r: CrossResult)
    ensures r.signal <==> r.reason == GoldenCross
    ensures |df| < 6 <==> r.reason == InsufficientData
    ensures |df| < 6 ==> r == CrossResult(false, None, None, None, None, InsufficientData)
    ensures |df| >= 6 ==> r.time == Some(df[|df| - 1].time) && r.close == Some(df[|df| - 1].close)
  {
    if |df| < 6 then CrossResult(false, None, None, None, None, InsufficientData)
    else
      var n := |df| - 1;
      var ma3 := RollingMean(df, n, 3);
      var ma5 := RollingMean(df, n, 5);
      var prev3 := RollingMean(df, n - 1, 3);
      var prev5 := RollingMean(df, n - 1, 5);
      var report := CrossResult(false, Some(df[n].time), Some(df[n].close),
                                RoundMean(ma3, round), RoundMean(ma5, round), MaUnavailable);
      if ma3.None? || ma5.None? then report
      else if prev3.None? || prev5.None? then report.(reason := PrevMaUnavailable)
      else
        var prevBelow := prev3.value <= prev5.value;
        var currAbove := ma3.value > ma5.value;
        if prevBelow && currAbove then report.(signal := true, reason := GoldenCross)
        else if !prevBelow then report.(reason := AlreadyAbove)
        else report.(reason := StillBelow)
  }

  /** The closes of the five rows ending at `i`, in order. */
  lemma {:induction false} Window5(df: seq<Candle>, i: nat)
    requires 4 <= i < |df|
    ensures Map(df[i - 4..i + 1], CandleClose)
         == [df[i - 4].close, df[i - 3].close, df[i - 2].close, df[i - 1].close, df[i].close]
  {
  }

  lemma {:induction false} Window3(df: seq<Candle>, i: nat)
    requires 2 <= i < |df|
    ensures Map(df[i - 2..i + 1], CandleClose) == [df[i - 2].close, df[i - 1].close, df[i].close]
  {
  }

  lemma {:induction false} SumOfCons(a: Num, t: seq<Num>)
    ensures SumOf([a] + t) == if a.NaN? || SumOf(t).None? then None else Some(a.value + SumOf(t).value)
  {
    assert ([a] + t)[0] == a && ([a] + t)[1..] == t;
  }

  /** A window of numeric closes sums to the sum of their values. */
  lemma {:induction false} SumOf3(a: Num, b: Num, c: Num)
    requires a.Num? && b.Num? && c.Num?
    ensures SumOf([a, b, c]) == Some(a.value + b.value + c.value)
  {
    SumOfCons(c, []);
    SumOfCons(b, [c]);
    assert [b] + [c] == [b, c];
    SumOfCons(a, [b, c]);
    assert [a] + [b, c] == [a, b, c];
  }

  lemma {:induction false} SumOf5(a: Num, b: Num, c: Num, d: Num, e: Num)
    requires a.Num? && b.Num? && c.Num? && d.Num? && e.Num?
    ensures SumOf([a, b, c, d, e]) == Some(a.value + b.value + c.value + d.value + e.value)
  {
    SumOf3(c, d, e);
    SumOfCons(b, [c, d, e]);
    assert [b] + [c, d, e] == [b, c, d, e];
    SumOfCons(a, [b, c, d, e]);
    assert [a] + [b, c, d, e] == [a, b, c, d, e];
  }

  /** The value of a numeric close. */
  function CloseAt(df: seq<Candle>, i: nat): int
    requires i < |df|
  {
    if df[i].close.Num? then df[i].close.value else 0
  }

  /** The last six closes are numbers. */
  predicate LastSixNumeric(df: seq<Candle>) {
    |df| >= 6 && forall i :: |df| - 6 <= i < |df| ==> df[i].close.Num?
  }

  lemma {:induction false} MeanAt3(df: seq<Candle>, i: nat)
    requires 2 <= i < |df|
    requires df[i - 2].close.Num? && df[i - 1].close.Num? && df[i].close.Num?
    ensures RollingMean(df, i, 3) == Some((CloseAt(df, i - 2) + CloseAt(df, i - 1) + CloseAt(df, i)) as real / 3.0)
  {
    Window3(df, i);
    SumOf3(df[i - 2].close, df[i - 1].close, df[i].close);
  }

  lemma {:induction false} MeanAt5(df: seq<Candle>, i: nat)
    requires 4 <= i < |df|
    requires forall k :: i - 4 <= k <= i ==> df[k].close.Num?
    ensures RollingMean(df, i, 5)
         == Some((CloseAt(df, i - 4) + CloseAt(df, i - 3) + CloseAt(df, i - 2) + CloseAt(df, i - 1) + CloseAt(df, i)) as real / 5.0)
  {
    Window5(df, i);
    SumOf5(df[i - 4].close, df[i - 3].close, df[i - 2].close, df[i - 1].close, df[i].close);
  }

  /** MA3 above MA5 is, on integer closes, five times the three-close sum above three times
      the five-close sum. */
  lemma {:induction false} MeanCompare(s3: int, s5: int)
    ensures (s3 as real / 3.0 > s5 as real / 5.0) <==> 5 * s3 > 3 * s5
  {
  }

  /** MA3 > MA5 at row `i`, in integers. */
  predicate ShortAbove(df: seq<Candle>, i: nat)
    requires 4 <= i < |df|
  {
    5 * (CloseAt(df, i - 2) + CloseAt(df, i - 1) + CloseAt(df, i))
      > 3 * (CloseAt(df, i - 4) + CloseAt(df, i - 3) + CloseAt(df, i - 2) + CloseAt(df, i - 1) + CloseAt(df, i))
  }

  lemma {:induction false} ShortAboveMeans(df: seq<Candle>, i: nat)
    requires 4 <= i < |df|
    requires forall k :: i - 4 <= k <= i ==> df[k].close.Num?
    ensures RollingMean(df, i, 3).Some? && RollingMean(df, i, 5).Some?
    ensures RollingMean(df, i, 3).value > RollingMean(df, i, 5).value <==> ShortAbove(df, i)
  {
    MeanAt3(df, i);
    MeanAt5(df, i);
    MeanCompare(CloseAt(df, i - 2) + CloseAt(df, i - 1) + CloseAt(df, i),
                CloseAt(df, i - 4) + CloseAt(df, i - 3) + CloseAt(df, i - 2) + CloseAt(df, i - 1) + CloseAt(df, i));
  }

  /** With six numeric closes both averages exist on both candles, and the verdict is the
      edge rule: a cross iff MA3 <= MA5 before and MA3 > MA5 now; "already above" iff
      MA3 > MA5 before; "still below" otherwise. */
  lemma {:induction false} CrossCriterion(df: seq<Candle>, round: real -> real)
    requires LastSixNumeric(df)
    ensures var r := CheckGoldenCross(df, round);
      var n := |df| - 1;
      && r.ma3.Some? && r.ma5.Some?
      && (r.signal <==> !ShortAbove(df, n - 1) && ShortAbove(df, n))
      && (r.reason == AlreadyAbove <==> ShortAbove(df, n - 1))
      && (r.reason == StillBelow <==> !ShortAbove(df, n - 1) && !ShortAbove(df, n))
      && r.reason in {GoldenCross, AlreadyAbove, StillBelow}
  {
    var n := |df| - 1;
    ShortAboveMeans(df, n);
    ShortAboveMeans(df, n - 1);
  }

  /** A moving average only looks back: appending rows leaves earlier averages unchanged. */
  lemma {:induction false} RollingMeanPrefix(df: seq<Candle>, more: seq<Candle>, i: nat, w: nat)
    requires i < |df| && w > 0
    ensures RollingMean(df + more, i, w) == RollingMean(df, i, w)
  {
    if w <= i + 1 {
      assert (df + more)[i + 1 - w..i + 1] == df[i + 1 - w..i + 1];
    }
  }

  /** A single-shot edge detector: after a signal, the next candle never signals again. */
  lemma {:induction false} NoRepeatedSignal(df: seq<Candle>, c: Candle, round: real -> real)
    requires CheckGoldenCross(df, round).signal
    ensures var r := CheckGoldenCross(df + [c], round);
      !r.signal && r.reason in {MaUnavailable, AlreadyAbove}
  {
    var n := |df| - 1;
    RollingMeanPrefix(df, [c], n, 3);
    RollingMeanPrefix(df, [c], n, 5);
  }

  /** The latest averages are undefined exactly when one of the last five closes is NaN. */
  lemma {:induction false} LatestUnavailable(df: seq<Candle>, round: real -> real)
    requires |df| >= 6
    ensures CheckGoldenCross(df, round).reason == MaUnavailable
        <==> exists k :: |df| - 5 <= k < |df| && df[k].close.NaN?
  {
    var n := |df| - 1;
    Window5(df, n);
    Window3(df, n);
    assert (exists k :: n - 4 <= k <= n && df[k].close.NaN?)
       <==> NaN in [df[n - 4].close, df[n - 3].close, df[n - 2].close, df[n - 1].close, df[n].close];
  }

  /** With the last five closes numeric, the previous averages are undefined exactly when
      the sixth-from-last close is NaN. */
  lemma {:induction false} PreviousUnavailable(df: seq<Candle>, round: real -> real)
    requires |df| >= 6
    requires forall k :: |df| - 5 <= k < |df| ==> df[k].close.Num?
    ensures CheckGoldenCross(df, round).reason == PrevMaUnavailable <==> df[|df| - 6].close.NaN?
  {
    PreviousWindows(df);
  }

  /** Which of the four rolling means the last five numeric closes leave defined. */
  lemma {:induction false} PreviousWindows(df: seq<Candle>)
    requires |df| >= 6
    requires forall k :: |df| - 5 <= k < |df| ==> df[k].close.Num?
    ensures var n := |df| - 1;
      && RollingMean(df, n, 3).Some? && RollingMean(df, n, 5).Some? && RollingMean(df, n - 1, 3).Some?
      && (RollingMean(df, n - 1, 5).None? <==> df[n - 5].close.NaN?)
  {
    var n := |df| - 1;
    assert RollingMean(df, n, 5).Some? by {
      Window5(df, n);
    }
    assert RollingMean(df, n, 3).Some? by {
      Window3(df, n);
    }
    assert RollingMean(df, n - 1, 3).Some? by {
      Window3(df, n - 1);
    }
    assert RollingMean(df, n - 1, 5).None? <==> df[n - 5].close.NaN? by {
      Window5(df, n - 1);
    }
  }

  /** Falling closes never signal. */
  lemma {:induction false} FallingNoSignal(df: seq<Candle>, round: real -> real)
    requires LastSixNumeric(df)
    requires forall k :: |df| - 5 <= k < |df| - 1 ==> CloseAt(df, k) > CloseAt(df, k + 1)
    ensures !CheckGoldenCross(df, round).signal
  {
    var n := |df| - 1;
    CrossCriterion(df, round);
    assert CloseAt(df, n - 4) > CloseAt(df, n - 3) > CloseAt(df, n - 2) > CloseAt(df, n - 1) > CloseAt(df, n);
    assert !ShortAbove(df, n);
  }

  /** A flat run of five closes followed by a rise is a cross. */
  lemma {:induction false} FlatThenRise(df: seq<Candle>, round: real -> real)
    requires LastSixNumeric(df)
    requires forall k :: |df| - 6 <= k < |df| - 1 ==> CloseAt(df, k) == CloseAt(df, |df| - 6)
    requires CloseAt(df, |df| - 1) > CloseAt(df, |df| - 6)
    ensures CheckGoldenCross(df, round).signal
    ensures CheckGoldenCross(df, round).reason == GoldenCross
  {
    var n := |df| - 1;
    CrossCriterion(df, round);
    assert !ShortAbove(df, n - 1);
    assert ShortAbove(df, n);
  }

  /** A flat run of five closes followed by a drop is "still below", not a cross. */
  lemma {:induction false} FlatThenDrop(df: seq<Candle>, round: real -> real)
    requires LastSixNumeric(df)
    requires forall k :: |df| - 6 <= k < |df| - 1 ==> CloseAt(df, k) == CloseAt(df, |df| - 6)
    requires CloseAt(df, |df| - 1) < CloseAt(df, |df| - 6)
    ensures !CheckGoldenCross(df, round).signal
    ensures CheckGoldenCross(df, round).reason == StillBelow
  {
    var n := |df| - 1;
    CrossCriterion(df, round);
    assert !ShortAbove(df, n - 1);
    assert !ShortAbove(df, n);
  }

  /** A frame with the given integer closes (and no other columns of interest). */
  function ClosesFrame(closes: seq<int>): (df: seq<Candle>)
    ensures |df| == |closes|
    ensures forall i :: 0 <= i < |df| ==> df[i].close == Num(closes[i])
  {
    Map(closes, (v: int) => Candle("", NaN, NaN, NaN, Num(v), NaN))
  }

  /** Closes 10, 10, 10, 10, 10, 6: MA3 = 26/3 is below MA5 = 46/5 at the last candle, so
      the verdict is "still below" and there is no signal. */
  lemma {:induction false} DropExample(round: real -> real)
    ensures CheckGoldenCross(ClosesFrame([10, 10, 10, 10, 10, 6]), round).reason == StillBelow
  {
    var df := ClosesFrame([10, 10, 10, 10, 10, 6]);
    assert forall k :: 0 <= k < 6 ==> CloseAt(df, k) == [10, 10, 10, 10, 10, 6][k];
    FlatThenDrop(df, round);
  }

  // ---------------------------------------------------------------- news titles

  /** Where a tag `<` (one or more characters other than `>`) `>` that starts at `s[0]` ends:
      the length of the match, when there is one. */
  function TagEnd(s: string): (e: Option<nat>)
    ensures e.Some? ==> 3 <= e.value <= |s| && s[0] == '<' && s[e.value - 1] == '>'
    ensures e.Some? ==> '>' !in s[1..e.value - 1]
    ensures e.None? && |s| > 0 && s[0] == '<' ==> (|s| > 1 && s[1] == '>') || '>' !in s[1..]
  {
    if |s| == 0 || s[0] != '<' then None
    else match IndexOf(s[1..], '>')
      case None => None
      case Some(k) =>
        assert s[1..][..k] == s[1..k + 1];
        if k >= 1 then Some(k + 2) else None
  }

  /** `_strip_html`: `re.sub(r"<[^>]+>", "", text)`, scanning left to right and removing
      each match. */
  function StripHtml(s: string): (r: string)
    ensures |r| <= |s|
    decreases |s|
  {
    if |s| == 0 then ""
    else match TagEnd(s)
      case Some(e) => StripHtml(s[e..])
      case None => [s[0]] + StripHtml(s[1..])
  }

  /** `s[i..j]` is matched by the pattern `<[^>]+>`, `j` being the closing `>`. */
  predicate TagAt(s: string, i: int, j: int) {
    0 <= i && i + 2 <= j < |s| && s[i] == '<' && s[j] == '>' && '>' !in s[i + 1..j]
  }

  /** No substring of `s` matches the tag pattern. */
  ghost predicate NoTag(s: string) {
    forall i, j :: !TagAt(s, i, j)
  }

  /** Text without `<` comes back unchanged. */
  lemma {:induction false} StripHtmlNoAngle(s: string)
    requires '<' !in s
    ensures StripHtml(s) == s
    decreases |s|
  {
    if |s| > 0 {
      assert s[1..] == s[1..];
      StripHtmlNoAngle(s[1..]);
      assert s == [s[0]] + s[1..];
    }
  }

  /** Stripping only removes characters. */
  lemma {:induction false} StripHtmlChars(s: string, c: char)
    requires c in StripHtml(s)
    ensures c in s
    decreases |s|
  {
    match TagEnd(s)
    case Some(e) =>
      StripHtmlChars(s[e..], c);
    case None =>
      if c != s[0] {
        StripHtmlChars(s[1..], c);
      }
  }

  lemma {:induction false} NoTagCons(c: char, t: string)
    requires NoTag(t)
    requires c == '<' ==> (|t| > 0 && t[0] == '>') || '>' !in t
    ensures NoTag([c] + t)
  {
    var r := [c] + t;
    forall i, j ensures !TagAt(r, i, j) {
      if 0 < i && i + 2 <= j < |r| {
        assert r[i + 1..j] == t[i..j - 1];
        assert !TagAt(t, i - 1, j - 1);
      } else if i == 0 && 2 <= j < |r| && c == '<' {
        assert r[1..j] == t[..j - 1] && r[j] == t[j - 1];
        if t[0] == '>' {
          assert t[0] in t[..j - 1];
        }
      }
    }
  }

  /** The output holds no tag: applying the substitution again finds nothing. */
  lemma {:induction false} StripHtmlNoTag(s: string)
    ensures NoTag(StripHtml(s))
    decreases |s|
  {
    if |s| > 0 {
      match TagEnd(s)
      case Some(e) =>
        StripHtmlNoTag(s[e..]);
      case None =>
        var t := StripHtml(s[1..]);
        StripHtmlNoTag(s[1..]);
        if s[0] == '<' {
          if |s| > 1 && s[1] == '>' {
            assert TagEnd(s[1..]).None?;
            assert t == [s[1]] + StripHtml(s[2..]) by { assert s[1..][1..] == s[2..]; }
          } else if '>' in t {
            StripHtmlChars(s[1..], '>');
          }
        }
        NoTagCons(s[0], t);
    }
  }

  /** A tag that `TagEnd` finds at the front is a match of the pattern. */
  lemma {:induction false} TagEndIsTag(s: string)
    ensures TagEnd(s).Some? ==> TagAt(s, 0, TagEnd(s).value - 1)
  {
  }

  /** Text without tags is a fixed point. */
  lemma {:induction false} StripHtmlFixed(s: string)
    requires NoTag(s)
    ensures StripHtml(s) == s
    decreases |s|
  {
    if |s| > 0 {
      TagEndIsTag(s);
      assert NoTag(s[1..]) by {
        forall i, j ensures !TagAt(s[1..], i, j) {
          if 0 <= i && i + 2 <= j < |s| - 1 {
            assert s[1..][i + 1..j] == s[i + 2..j + 1];
            assert !TagAt(s, i + 1, j + 1);
          }
        }
      }
      StripHtmlFixed(s[1..]);
      assert s == [s[0]] + s[1..];
    }
  }

  /** Stripping twice is stripping once. */
  lemma {:induction false} StripHtmlIdempotent(s: string)
    ensures StripHtml(StripHtml(s)) == StripHtml(s)
  {
    StripHtmlNoTag(s);
    StripHtmlFixed(StripHtml(s));
  }
}
