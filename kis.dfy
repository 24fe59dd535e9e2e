/**
 * The deterministic part of the KIS REST client (kis_client.py): the `.env`
 * reader, the access-token cache, the stock-master line format, the filters
 * applied to the records the quote endpoints return, name lookup in the stock
 * cache, and how `get_top_growth_stocks` turns per-stock prices into a ranking.
 * HTTP exchanges are inputs: a response is the value the endpoint sent.
 */
module Kis {
  import opened Wrappers
  import opened Text
  import opened Seqs
  import opened Dates

  // ================================================================ .env loading

  /** What one line of a `.env` file asks for. */
  datatype EnvLine = Skip | Assign(key: string, value: string)

  /** How `_load_env` outcomes one line: blank and `#` lines and lines without `=` say
      nothing; otherwise the text up to the first `=` is the key and the rest the
      value, both stripped. */
  function ParseEnvLine(line: string): (r: EnvLine)
    ensures r.Assign? ==> '=' !in r.key
  {
    var t := Strip(line);
    if t == "" || StartsWith(t, "#") then Skip
    else match IndexOf(t, '=')
      case None => Skip
      case Some(i) =>
        assert '=' !in Strip(t[..i]) by { assert Contains(t[..i], Strip(t[..i])); }
        Assign(Strip(t[..i]), Strip(t[i + 1..]))
  }

  /** Blank lines, comments and lines without `=` are skipped; any other line splits at
      its first `=`. */
  lemma {:induction false} ParseEnvLineCases(line: string)
    ensures Strip(line) == "" || StartsWith(Strip(line), "#") ==> ParseEnvLine(line) == Skip
    ensures '=' !in Strip(line) ==> ParseEnvLine(line) == Skip
    ensures Strip(line) != "" && !StartsWith(Strip(line), "#") && '=' in Strip(line) ==> ParseEnvLine(line).Assign?
    ensures ParseEnvLine(line).Assign? ==>
      exists i :: (0 <= i < |Strip(line)| && Strip(line)[i] == '=' && '=' !in Strip(line)[..i]
        && ParseEnvLine(line) == Assign(Strip(Strip(line)[..i]), Strip(Strip(line)[i + 1..])))
  {
  }

  /** A line `key=value` written without surrounding blanks gives back that pair,
      even when the value itself holds further `=` signs. */
  lemma {:induction false} ParseEnvLineRoundTrip(key: string, value: string)
    requires |key| > 0 && key[0] != '#' && '=' !in key
    requires Strip(key) == key && Strip(value) == value
    ensures ParseEnvLine(key + "=" + value) == Assign(key, value)
  {
    EnvLineUnpadded(key, value);
    FirstSeparator(key, value);
    EnvLineParts(key, value);
  }

  lemma {:induction false} EnvLineParts(key: string, value: string)
    requires |key| > 0 && key[0] != '#'
    ensures var line := key + "=" + value;
      !StartsWith(line, "#") && line[..|key|] == key && line[|key| + 1..] == value
  {
    var line := key + "=" + value;
    assert line[..1][0] == key[0];
    assert line[..|key|] == key && line[|key| + 1..] == value;
  }

  lemma {:induction false} EnvLineUnpadded(key: string, value: string)
    requires |key| > 0 && Strip(key) == key && Strip(value) == value
    ensures Strip(key + "=" + value) == key + "=" + value
  {
    var line := key + "=" + value;
    assert !IsSpace(line[0]) by { assert line[0] == key[0]; }
    assert !IsSpace(line[|line| - 1]) by {
      if |value| == 0 { assert line[|line| - 1] == '='; } else { assert line[|line| - 1] == value[|value| - 1]; }
    }
    assert "" + line + "" == line;
    StripPadded("", line, "");
  }

  lemma {:induction false} FirstSeparator(key: string, value: string)
    requires '=' !in key
    ensures IndexOf(key + "=" + value, '=') == Some(|key|)
  {
    var line := key + "=" + value;
    var j := IndexOf(line, '=');
    assert line[|key|] == '=';
    assert forall k :: 0 <= k < |key| ==> line[k] == key[k];
    assert forall m :: |key| < m <= |line| ==> line[..m][|key|] == '=';
  }

  /** `os.environ[key] = value` raises `ValueError` for an empty name or an embedded NUL. */
  predicate EnvSettable(key: string, value: string) {
    key != "" && '\0' !in key && '\0' !in value
  }

  /** The environment after reading a file, and whether a write raised on the way. */
  datatype EnvOutcome = EnvOutcome(vars: map<string, string>, failed: bool)

  /** Applying the parsed lines to `vars` in order; a failing write stops the loop with
      the writes made before it in place. */
  function LoadEntries(vars: map<string, string>, entries: seq<EnvLine>): (r: EnvOutcome)
    ensures vars.Keys <= r.vars.Keys
    decreases |entries|
  {
    if |entries| == 0 then EnvOutcome(vars, false)
    else match entries[0]
      case Skip => LoadEntries(vars, entries[1..])
      case Assign(k, v) =>
        if k in vars then LoadEntries(vars, entries[1..])
        else if !EnvSettable(k, v) then EnvOutcome(vars, true)
        else LoadEntries(vars[k := v], entries[1..])
  }

  /** The value the first entry naming `key` gives it. */
  function FirstAssign(entries: seq<EnvLine>, key: string): (r: Option<string>)
    ensures r.Some? ==> Assign(key, r.value) in entries
    ensures r.None? <==> forall i :: 0 <= i < |entries| ==> !(entries[i].Assign? && entries[i].key == key)
    decreases |entries|
  {
    if |entries| == 0 then None
    else if entries[0].Assign? && entries[0].key == key then Some(entries[0].value)
    else
      var r := FirstAssign(entries[1..], key);
      assert forall i :: 1 <= i < |entries| ==> entries[i] == entries[1..][i - 1];
      r
  }

  /** Variables already set are never overwritten. */
  lemma {:induction false} LoadKeepsExisting(vars: map<string, string>, entries: seq<EnvLine>)
    ensures forall k :: k in vars ==> LoadEntries(vars, entries).vars[k] == vars[k]
    decreases |entries|
  {
    if |entries| > 0 {
      match entries[0]
      case Skip => LoadKeepsExisting(vars, entries[1..]);
      case Assign(k, v) =>
        if k in vars {
          LoadKeepsExisting(vars, entries[1..]);
        } else if EnvSettable(k, v) {
          LoadKeepsExisting(vars[k := v], entries[1..]);
        }
    }
  }

  /** Without a failing write, a variable that was not set before ends up set exactly
      when some line names it, and holds the value of the first such line. */
  lemma {:induction false} LoadFirstLineWins(vars: map<string, string>, entries: seq<EnvLine>, key: string)
    requires key !in vars
    requires !LoadEntries(vars, entries).failed
    ensures key in LoadEntries(vars, entries).vars <==> FirstAssign(entries, key).Some?
    ensures key in LoadEntries(vars, entries).vars ==> LoadEntries(vars, entries).vars[key] == FirstAssign(entries, key).value
    decreases |entries|
  {
    if |entries| > 0 {
      match entries[0]
      case Skip => LoadFirstLineWins(vars, entries[1..], key);
      case Assign(k, v) =>
        if k in vars {
          LoadFirstLineWins(vars, entries[1..], key);
        } else if k == key {
          LoadKeepsExisting(vars[k := v], entries[1..]);
        } else {
          LoadFirstLineWins(vars[k := v], entries[1..], key);
        }
    }
  }

  /** A write fails only at an entry that names a new variable it cannot set. */
  lemma {:induction false} LoadFailure(vars: map<string, string>, entries: seq<EnvLine>)
    requires LoadEntries(vars, entries).failed
    ensures exists i :: 0 <= i < |entries| && entries[i].Assign? && !EnvSettable(entries[i].key, entries[i].value)
    decreases |entries|
  {
    var rest := entries[1..];
    match entries[0]
    case Skip =>
      LoadFailure(vars, rest);
      var i :| 0 <= i < |rest| && rest[i].Assign? && !EnvSettable(rest[i].key, rest[i].value);
      assert entries[i + 1] == rest[i];
    case Assign(k, v) =>
      if k in vars || EnvSettable(k, v) {
        var vars' := if k in vars then vars else vars[k := v];
        LoadFailure(vars', rest);
        var i :| 0 <= i < |rest| && rest[i].Assign? && !EnvSettable(rest[i].key, rest[i].value);
        assert entries[i + 1] == rest[i];
      }
  }

  /** One step of the load: the entry at `i` either leaves the variables alone, sets one,
      or ends the load with a failure. */
  lemma {:induction false} LoadStep(vars: map<string, string>, entries: seq<EnvLine>, i: int)
    requires 0 <= i < |entries|
    ensures var e := entries[i];
      if e.Assign? && e.key !in vars then
        if EnvSettable(e.key, e.value) then LoadEntries(vars, entries[i..]) == LoadEntries(vars[e.key := e.value], entries[i + 1..])
        else LoadEntries(vars, entries[i..]) == EnvOutcome(vars, true)
      else LoadEntries(vars, entries[i..]) == LoadEntries(vars, entries[i + 1..])
  {
    assert entries[i..][1..] == entries[i + 1..];
    assert entries[i..][0] == entries[i];
  }

  /** The process environment, `os.environ`. */
  class Environment {
    var vars: map<string, string>

    constructor(initial: map<string, string>)
      ensures vars == initial
    {
      vars := initial;
    }
  }

  /** `_load_env`: `file` is the file's lines, `None` when it does not exist. */
  method LoadEnv(env: Environment, file: Option<seq<string>>) returns (r: Result<()>)
    modifies env
    ensures file.None? ==> r == Ok(()) && env.vars == old(env.vars)
    ensures file.Some? ==> env.vars == LoadEntries(old(env.vars), Map(file.value, ParseEnvLine)).vars
    ensures file.Some? ==> (r.Err? <==> LoadEntries(old(env.vars), Map(file.value, ParseEnvLine)).failed)
  {
    if file.None? {
      return Ok(());
    }
    var lines := file.value;
    ghost var entries := Map(lines, ParseEnvLine);
    var i := 0;
    while i < |lines|
      invariant 0 <= i <= |lines|
      invariant LoadEntries(env.vars, entries[i..]) == LoadEntries(old(env.vars), entries)
      decreases |lines| - i
    {
      var e := ParseEnvLine(lines[i]);
      LoadStep(env.vars, entries, i);
      if e.Assign? && e.key !in env.vars {
        if !EnvSettable(e.key, e.value) {
          return Err("ValueError");
        }
        env.vars := env.vars[e.key := e.value];
      }
      i := i + 1;
    }
    assert entries[|lines|..] == [];
    return Ok(());
  }

  // ================================================================ access token

  /** `_is_token_valid`: times are microseconds, and a token counts as expired from one
      minute before its stated expiry. */
  predicate TokenValid(token: Option<string>, expiry: Option<int>, now: int) {
    token.Some? && expiry.Some? && now < expiry.value - Minute
  }

  /** A token valid now was valid at every earlier instant, and is invalid from one
      minute before expiry on. */
  lemma {:induction false} TokenValidWindow(token: Option<string>, expiry: Option<int>, earlier: int, now: int)
    requires earlier <= now && TokenValid(token, expiry, now)
    ensures TokenValid(token, expiry, earlier)
    ensures forall t :: t >= expiry.value - Minute ==> !TokenValid(token, expiry, t)
  {
  }

  /** What the token endpoint sent: the status and the two fields of its JSON body. */
  datatype TokenResponse = TokenResponse(status: int, accessToken: Option<string>, expiredAt: Option<string>)

  class KisClient {
    var accessToken: Option<string>
    /** The parsed expiry, as an instant in microseconds. */
    var tokenExpiredAt: Option<int>

    constructor()
      ensures accessToken.None? && tokenExpiredAt.None?
    {
      accessToken := None;
      tokenExpiredAt := None;
    }

    predicate IsTokenValid(now: int)
      reads this
    {
      TokenValid(accessToken, tokenExpiredAt, now)
    }

    /** `get_access_token` at instant `now`; `exchange` is what the endpoint would answer
        if asked. The token field is stored before the expiry is parsed, so a body with
        a missing or malformed expiry leaves the new token beside the old expiry. */
    method GetAccessToken(now: int, exchange: TokenResponse) returns (r: Result<string>)
      modifies this
      ensures old(IsTokenValid(now)) ==> r == Ok(old(accessToken).value) && accessToken == old(accessToken) && tokenExpiredAt == old(tokenExpiredAt)
      ensures !old(IsTokenValid(now)) && (exchange.status != 200 || exchange.accessToken.None?) ==>
        r.Err? && accessToken == old(accessToken) && tokenExpiredAt == old(tokenExpiredAt)
      ensures !old(IsTokenValid(now)) && exchange.status == 200 && exchange.accessToken.Some? ==>
        accessToken == exchange.accessToken
      ensures !old(IsTokenValid(now)) && exchange.status == 200 && exchange.accessToken.Some? ==>
        var parsed := if exchange.expiredAt.Some? then ParseTimestamp(exchange.expiredAt.value) else None;
        (parsed.Some? ==> r == Ok(exchange.accessToken.value) && tokenExpiredAt == parsed)
        && (parsed.None? ==> r.Err? && tokenExpiredAt == old(tokenExpiredAt))
    {
      if IsTokenValid(now) {
        return Ok(accessToken.value);
      }
      if exchange.status != 200 {
        return Err("RuntimeError");
      }
      if exchange.accessToken.None? {
        return Err("KeyError");
      }
      accessToken := exchange.accessToken;
      if exchange.expiredAt.None? {
        return Err("KeyError");
      }
      var parsed := ParseTimestamp(exchange.expiredAt.value);
      if parsed.None? {
        return Err("ValueError");
      }
      tokenExpiredAt := parsed;
      return Ok(accessToken.value);
    }
  }

  /** After a successful exchange the new token is served until one minute before the
      expiry the endpoint stated. */
  lemma {:induction false} FreshTokenValidity(token: string, d: Date, hh: nat, mm: nat, ss: nat, now: int)
    requires Valid(d) && hh < 24 && mm < 60 && ss < 60
    ensures var e := ParseTimestamp(FormatTimestamp(d, hh, mm, ss));
      TokenValid(Some(token), e, now) <==> now < Instant(d, hh, mm, ss) - Minute
  {
    ParseFormatTimestamp(d, hh, mm, ss);
  }

  // ================================================================ stock master file

  datatype Stock = Stock(code: string, name: string)

  /** Width of the fixed-width tail of a master line: 228 for KOSPI (`J`), 222 for KOSDAQ (`Q`). */
  function Part2Len(market: string): (r: Option<nat>)
    ensures r.Some? <==> market == "J" || market == "Q"
  {
    if market == "J" then Some(228) else if market == "Q" then Some(222) else None
  }

  /** One stripped master line: its head without the fixed-width tail holds the short
      code in columns 0-8 and the Korean name from column 21 on. */
  function ParseMasterLine(line: string, part2Len: nat): (r: Option<Stock>)
    ensures r.Some? ==> |r.value.code| == 6 && IsDigits(r.value.code)
  {
    var part1 := PySlice(line, 0, -(part2Len as int));
    var code := RStrip(PySlice(part1, 0, 9));
    var name := Strip(PySlice(part1, 21, |part1|));
    if |code| == 6 && IsDigits(code) then Some(Stock(code, name)) else None
  }

  /** What one raw line of the file contributes: nothing for a blank line. */
  function MasterEntry(line: string, part2Len: nat): Option<Stock> {
    var t := Strip(line);
    if t == "" then None else ParseMasterLine(t, part2Len)
  }

  function MasterEntryOf(part2Len: nat): string -> Option<Stock> {
    (line: string) => MasterEntry(line, part2Len)
  }

  /** The stocks the lines describe, one per line whose code is six digits, in line order. */
  function MasterStocks(lines: seq<string>, part2Len: nat): seq<Stock> {
    Harvest(lines, MasterEntryOf(part2Len))
  }

  /** Every entry has a six-digit code, and there is at most one per line. */
  lemma {:induction false} MasterStocksShape(lines: seq<string>, part2Len: nat)
    ensures |MasterStocks(lines, part2Len)| <= |lines|
    ensures forall s :: s in MasterStocks(lines, part2Len) ==> |s.code| == 6 && IsDigits(s.code)
  {
    forall s | s in MasterStocks(lines, part2Len) ensures |s.code| == 6 && IsDigits(s.code) {
      HarvestFrom(lines, MasterEntryOf(part2Len), s);
    }
  }

  /** The lines are read independently and in order. */
  lemma {:induction false} MasterStocksAppend(a: seq<string>, b: seq<string>, part2Len: nat)
    ensures MasterStocks(a + b, part2Len) == MasterStocks(a, part2Len) + MasterStocks(b, part2Len)
  {
    HarvestAppend(a, b, MasterEntryOf(part2Len));
  }

  /** A line laid out as the master format prescribes gives back its code and name:
      six digits, three blanks, twelve columns of other fields, the name, then the tail. */
  lemma {:induction false} MasterLineRoundTrip(code: string, mid: string, name: string, part2: string)
    requires |code| == 6 && IsDigits(code) && |mid| == 12
    requires Strip(name) == name
    requires |part2| > 0 && !IsSpace(part2[|part2| - 1])
    ensures ParseMasterLine(Strip(code + "   " + mid + name + part2), |part2|) == Some(Stock(code, name))
  {
    var part1 := code + "   " + mid + name;
    var line := part1 + part2;
    assert code + "   " + mid + name + part2 == line;
    assert line[0] == code[0] && line[|line| - 1] == part2[|part2| - 1];
    assert IsDigit(code[0]);
    StripFramed(line);
    assert PySlice(line, 0, -|part2|) == part1 by { assert line[..|part1|] == part1; }
    MasterFields(code, mid, name);
  }

  /** A string whose first and last characters are not whitespace is already stripped. */
  lemma {:induction false} StripFramed(line: string)
    requires |line| > 0 && !IsSpace(line[0]) && !IsSpace(line[|line| - 1])
    ensures Strip(line) == line
  {
    assert "" + line + "" == line;
    StripPadded("", line, "");
  }

  /** The two fields `ParseMasterLine` cuts out of the head of a well-formed line. */
  lemma {:induction false} MasterFields(code: string, mid: string, name: string)
    requires |code| == 6 && IsDigits(code) && |mid| == 12
    ensures var part1 := code + "   " + mid + name;
      RStrip(PySlice(part1, 0, 9)) == code && PySlice(part1, 21, |part1|) == name
  {
    var part1 := code + "   " + mid + name;
    assert PySlice(part1, 0, 9) == code + "   " by { assert part1[..9] == code + "   "; }
    assert PySlice(part1, 21, |part1|) == name by { assert part1[21..] == name; }
    RStripExact(code + "   ", 6);
    assert (code + "   ")[..6] == code;
  }

  /** `_download_stock_list`: `content` is the decoded master file, `None` when the
      download does not answer 200. */
  method DownloadStockList(market: string, content: Option<string>) returns (r: Result<seq<Stock>>)
    ensures Part2Len(market).None? ==> r == Err("ValueError")
    ensures Part2Len(market).Some? && content.None? ==> r == Err("RuntimeError")
    ensures Part2Len(market).Some? && content.Some? ==>
      r == Ok(MasterStocks(Split(Strip(content.value), '\n'), Part2Len(market).value))
  {
    var part2Len: nat;
    if market == "J" {
      part2Len := 228;
    } else if market == "Q" {
      part2Len := 222;
    } else {
      return Err("ValueError");
    }
    if content.None? {
      return Err("RuntimeError");
    }
    var lines := Split(Strip(content.value), '\n');
    var stocks := ParseMasterLines(lines, part2Len);
    return Ok(stocks);
  }

  /** The parsing loop of `_download_stock_list`. */
  method ParseMasterLines(lines: seq<string>, part2Len: nat) returns (stocks: seq<Stock>)
    ensures stocks == MasterStocks(lines, part2Len)
  {
    stocks := [];
    var i := 0;
    while i < |lines|
      invariant 0 <= i <= |lines|
      invariant stocks == MasterStocks(lines[..i], part2Len)
    {
      HarvestSnoc(lines, i, MasterEntryOf(part2Len));
      var line := Strip(lines[i]);
      if line != "" {
        var entry := ParseMasterLine(line, part2Len);
        if entry.Some? {
          stocks := stocks + [entry.value];
        }
      }
      i := i + 1;
    }
    assert lines[..|lines|] == lines;
  }

  /** `load_stock_list`: the cache is the KOSPI list followed by the KOSDAQ list; a
      failing download raises before the cache is replaced. */
  function LoadStockList(kospi: Result<seq<Stock>>, kosdaq: Result<seq<Stock>>): (r: Result<seq<Stock>>)
    ensures r.Ok? <==> kospi.Ok? && kosdaq.Ok?
    ensures r.Ok? ==> (|r.value| == |kospi.value| + |kosdaq.value|
      && r.value[..|kospi.value|] == kospi.value && r.value[|kospi.value|..] == kosdaq.value)
  {
    if kospi.Err? then Err(kospi.error)
    else if kosdaq.Err? then Err(kosdaq.error)
    else Ok(kospi.value + kosdaq.value)
  }

  // ================================================================ quote records

  /** A JSON record of `output2`: field name to string value. */
  type Record = map<string, string>

  /** `r.get(key, default)` */
  function Field(r: Record, key: string, default: string): string {
    if key in r then r[key] else default
  }

  /** A quote endpoint's answer: the HTTP status, `rt_cd` when present, and the
      `output2` records, newest first. */
  datatype Response = Response(status: int, rtCd: Option<string>, output2: seq<Record>)

  predicate Accepted(resp: Response) {
    resp.status == 200 && resp.rtCd == Some("0")
  }

  // ---------------------------------------------------------------- `_get_period_price`

  /** What the comprehension in `_get_period_price` makes of a record's `stck_clpr`:
      absent or empty (falsy), rejected by `int()`, or an integer. */
  datatype CloseRead = NoClose | BadClose | Close(value: int)

  function ReadClose(r: Record): CloseRead {
    var s := Field(r, "stck_clpr", "");
    if s == "" then NoClose
    else match ParseInt(s)
      case None => BadClose
      case Some(v) => Close(v)
  }

  /** A close is absent exactly when the field is missing or empty, rejected exactly when
      `int()` fails on it, and otherwise it is `int()`'s value. */
  lemma {:induction false} ReadCloseCases(r: Record)
    ensures ReadClose(r) == NoClose <==> Field(r, "stck_clpr", "") == ""
    ensures ReadClose(r) == BadClose <==> Field(r, "stck_clpr", "") != "" && ParseInt(Field(r, "stck_clpr", "")).None?
    ensures ReadClose(r).Close? ==> ParseInt(Field(r, "stck_clpr", "")) == Some(ReadClose(r).value)
  {
  }

  /** The comprehension's condition `r.get("stck_clpr") and int(r["stck_clpr"]) > 0`. */
  predicate PositiveClose(c: CloseRead) {
    c.Close? && c.value > 0
  }

  function CloseValue(c: CloseRead): int {
    if c.Close? then c.value else 0
  }

  /** The closes the comprehension keeps, in record order; a rejected close aborts it. */
  function ValidCloses(cs: seq<CloseRead>): (r: Result<seq<int>>)
    ensures r.Ok? ==> |r.value| <= |cs| && forall i :: 0 <= i < |r.value| ==> r.value[i] > 0
    decreases |cs|
  {
    if |cs| == 0 then Ok([])
    else match cs[0]
      case BadClose => Err("ValueError")
      case NoClose => ValidCloses(cs[1..])
      case Close(v) =>
        var rest := ValidCloses(cs[1..]);
        if rest.Err? then rest else Ok((if v > 0 then [v] else []) + rest.value)
  }

  /** The comprehension raises exactly when some close is rejected. */
  lemma {:induction false} ValidClosesErr(cs: seq<CloseRead>)
    ensures ValidCloses(cs).Err? <==> BadClose in cs
    decreases |cs|
  {
    if |cs| > 0 {
      ValidClosesErr(cs[1..]);
      assert cs == [cs[0]] + cs[1..];
    }
  }

  /** Otherwise it keeps the positive closes in record order. */
  lemma {:induction false} ValidClosesSpec(cs: seq<CloseRead>)
    requires ValidCloses(cs).Ok?
    ensures ValidCloses(cs).value == Map(Filter(cs, PositiveClose), CloseValue)
    decreases |cs|
  {
    if |cs| > 0 {
      ValidClosesSpec(cs[1..]);
      var h := if PositiveClose(cs[0]) then [cs[0]] else [];
      MapAppend(h, Filter(cs[1..], PositiveClose), CloseValue);
    }
  }

  /** The start and end closes of a period. */
  datatype PricePair = PricePair(start: int, end: int)

  /** `_get_period_price` on the endpoint's answer: `Ok(None)` is `(None, None)`, `Err`
      the `ValueError` the comprehension lets escape. */
  function PeriodPrice(resp: Response): (r: Result<Option<PricePair>>)
    ensures r.Ok? && r.value.Some? ==> r.value.value.start > 0 && r.value.value.end > 0
    ensures r.Ok? && r.value.Some? ==> Accepted(resp) && |resp.output2| >= 2
    ensures r.Err? ==> Accepted(resp) && |resp.output2| >= 2
  {
    if resp.status != 200 then Ok(None)
    else if resp.rtCd != Some("0") then Ok(None)
    else if |resp.output2| < 2 then Ok(None)
    else match ValidCloses(Map(resp.output2, ReadClose))
      case Err(e) => Err(e)
      case Ok(vs) => if |vs| < 2 then Ok(None) else Ok(Some(PricePair(vs[|vs| - 1], vs[0])))
  }

  /** With at least two accepted records and no rejected close, the prices are there iff
      at least two records have a positive close; the end price is the first (newest) of
      those closes and the start price the last (oldest). */
  lemma {:induction false} PeriodPriceEndpoints(resp: Response)
    requires Accepted(resp) && |resp.output2| >= 2
    requires BadClose !in Map(resp.output2, ReadClose)
    ensures var valid := Filter(Map(resp.output2, ReadClose), PositiveClose);
      && (PeriodPrice(resp).Ok? && (PeriodPrice(resp).value.Some? <==> |valid| >= 2))
      && (|valid| >= 2 ==>
            PeriodPrice(resp).value.value == PricePair(CloseValue(valid[|valid| - 1]), CloseValue(valid[0])))
  {
    var cs := Map(resp.output2, ReadClose);
    ValidClosesErr(cs);
    ValidClosesSpec(cs);
  }

  /** A rejected close among at least two accepted records raises. */
  lemma {:induction false} PeriodPriceRaises(resp: Response, i: nat)
    requires Accepted(resp) && |resp.output2| >= 2
    requires i < |resp.output2| && ReadClose(resp.output2[i]) == BadClose
    ensures PeriodPrice(resp).Err?
  {
    var cs := Map(resp.output2, ReadClose);
    assert cs[i] == BadClose;
    ValidClosesErr(cs);
  }

  // ---------------------------------------------------------------- `get_daily_ohlcv`, `get_minute_ohlcv`

  /** One bar as the client returns it: every field is the endpoint's string. */
  datatype Bar = Bar(stamp: string, open: string, high: string, low: string, close: string, volume: string)

  /** The field holding the bar's date or time, and the one holding its close. */
  datatype BarFields = BarFields(stampKey: string, closeKey: string)

  const DailyFields := BarFields("stck_bsop_date", "stck_clpr")
  const MinuteFields := BarFields("stck_cntg_hour", "stck_prpr")

  /** The dictionary the loop appends; missing open/high/low/volume read as "0". */
  function ToBar(f: BarFields, r: Record): (b: Bar)
    ensures b.stamp == Field(r, f.stampKey, "") && b.close == Field(r, f.closeKey, "")
    ensures "stck_oprc" !in r ==> b.open == "0"
    ensures "stck_hgpr" !in r ==> b.high == "0"
    ensures "stck_lwpr" !in r ==> b.low == "0"
    ensures "cntg_vol" !in r ==> b.volume == "0"
  {
    Bar(Field(r, f.stampKey, ""), Field(r, "stck_oprc", "0"), Field(r, "stck_hgpr", "0"),
        Field(r, "stck_lwpr", "0"), Field(r, f.closeKey, ""), Field(r, "cntg_vol", "0"))
  }

  /** What the loop does with one record: skip it (empty stamp, empty close or a zero
      close), raise on a close `int()` rejects, or keep its bar. */
  datatype BarRead = Skipped | Broken | Kept(bar: Bar)

  function ReadBar(f: BarFields, r: Record): BarRead {
    var stamp := Field(r, f.stampKey, "");
    var close := Field(r, f.closeKey, "");
    if stamp == "" || close == "" then Skipped
    else match ParseInt(close)
      case None => Broken
      case Some(v) => if v == 0 then Skipped else Kept(ToBar(f, r))
  }

  /** A record is kept exactly when it has a stamp and a close that `int()` reads as
      nonzero, and it raises exactly when it has both and `int()` rejects the close. */
  lemma {:induction false} ReadBarCases(f: BarFields, r: Record)
    ensures ReadBar(f, r).Kept? <==> && Field(r, f.stampKey, "") != "" && Field(r, f.closeKey, "") != ""
                                     && ParseInt(Field(r, f.closeKey, "")).Some? && ParseInt(Field(r, f.closeKey, "")).value != 0
    ensures ReadBar(f, r) == Broken <==> && Field(r, f.stampKey, "") != "" && Field(r, f.closeKey, "") != ""
                                         && ParseInt(Field(r, f.closeKey, "")).None?
    ensures ReadBar(f, r).Kept? ==> ReadBar(f, r).bar == ToBar(f, r)
  {
  }

  /** The outcome for each record, in record order. */
  function ReadBars(f: BarFields, records: seq<Record>): (r: seq<BarRead>)
    ensures |r| == |records|
    decreases |records|
  {
    if |records| == 0 then []
    else ReadBars(f, records[..|records| - 1]) + [ReadBar(f, records[|records| - 1])]
  }

  lemma {:induction false} ReadBarsAt(f: BarFields, records: seq<Record>, k: nat)
    requires k < |records|
    ensures ReadBars(f, records)[k] == ReadBar(f, records[k])
    decreases |records|
  {
    if k < |records| - 1 {
      var pre := records[..|records| - 1];
      ReadBarsAt(f, pre, k);
      assert pre[k] == records[k];
    }
  }

  predicate IsKept(b: BarRead) {
    b.Kept?
  }

  function KeptBar(b: BarRead): Bar {
    if b.Kept? then b.bar else Bar("", "", "", "", "", "")
  }

  /** The bars of the kept records, in record order. */
  function KeptBars(outcomes: seq<BarRead>): seq<Bar> {
    Map(Filter(outcomes, IsKept), KeptBar)
  }

  /** What either OHLCV call returns for the endpoint's answer: nothing unless it was
      accepted, nothing if a close is rejected (the `except` branch), else the bars of
      the kept records in their order. */
  function Ohlcv(f: BarFields, resp: Response): seq<Bar> {
    if !Accepted(resp) then []
    else
      var outcomes := ReadBars(f, resp.output2);
      if Broken in outcomes then [] else KeptBars(outcomes)
  }

  /** The record loop of both OHLCV calls. */
  method CollectBars(f: BarFields, records: seq<Record>) returns (bars: seq<Bar>)
    ensures Broken in ReadBars(f, records) ==> bars == []
    ensures Broken !in ReadBars(f, records) ==> bars == KeptBars(ReadBars(f, records))
  {
    bars := [];
    var i := 0;
    while i < |records|
      invariant 0 <= i <= |records|
      invariant Broken !in ReadBars(f, records[..i])
      invariant bars == KeptBars(ReadBars(f, records[..i]))
    {
      var r := records[i];
      assert records[..i + 1][..i] == records[..i] && records[..i + 1][i] == r;
      var outcome := CheckRecord(f, r);
      assert ReadBars(f, records[..i + 1]) == ReadBars(f, records[..i]) + [outcome];
      KeptBarsAppend(ReadBars(f, records[..i]), [outcome]);
      if outcome == Broken {
        ReadBarsAt(f, records, i);
        return [];
      }
      if outcome.Kept? {
        bars := bars + [outcome.bar];
      }
      i := i + 1;
    }
    assert records[..|records|] == records;
  }

  /** The loop body's test `not stamp or not close or int(close) == 0` on one record. */
  method CheckRecord(f: BarFields, r: Record) returns (outcome: BarRead)
    ensures outcome == ReadBar(f, r)
  {
    var stamp := Field(r, f.stampKey, "");
    var close := Field(r, f.closeKey, "");
    if stamp == "" || close == "" {
      return Skipped;
    }
    var v := ParseInt(close);
    if v.None? {
      return Broken;
    }
    if v.value == 0 {
      return Skipped;
    }
    return Kept(ToBar(f, r));
  }

  /** `get_daily_ohlcv` */
  method GetDailyOhlcv(resp: Response) returns (bars: seq<Bar>)
    ensures bars == Ohlcv(DailyFields, resp)
  {
    if resp.status != 200 {
      return [];
    }
    if resp.rtCd != Some("0") {
      return [];
    }
    bars := CollectBars(DailyFields, resp.output2);
  }

  /** `get_minute_ohlcv` */
  method GetMinuteOhlcv(resp: Response) returns (bars: seq<Bar>)
    ensures bars == Ohlcv(MinuteFields, resp)
  {
    if resp.status != 200 {
      return [];
    }
    if resp.rtCd != Some("0") {
      return [];
    }
    bars := CollectBars(MinuteFields, resp.output2);
  }

  /** Every bar returned is the bar of a kept record: it has a date or time and a close
      that is an integer other than zero; there are no more bars than records. */
  lemma {:induction false} OhlcvBars(f: BarFields, resp: Response)
    ensures |Ohlcv(f, resp)| <= |resp.output2|
    ensures forall b :: b in Ohlcv(f, resp) ==>
      exists i :: 0 <= i < |resp.output2| && ReadBar(f, resp.output2[i]) == Kept(b)
  {
    var outcomes := ReadBars(f, resp.output2);
    if Accepted(resp) && Broken !in outcomes {
      var kept := Filter(outcomes, IsKept);
      FilterMembers(outcomes, IsKept);
      forall b | b in Ohlcv(f, resp)
        ensures exists i :: 0 <= i < |resp.output2| && ReadBar(f, resp.output2[i]) == Kept(b)
      {
        var k :| 0 <= k < |kept| && Map(kept, KeptBar)[k] == b;
        assert kept[k] in outcomes;
        var j :| 0 <= j < |outcomes| && outcomes[j] == kept[k];
        ReadBarsAt(f, resp.output2, j);
      }
    }
  }

  /** The bars of two runs of records are those of the first run followed by those of the
      second: records keep their order. */
  lemma {:induction false} KeptBarsAppend(a: seq<BarRead>, b: seq<BarRead>)
    ensures KeptBars(a + b) == KeptBars(a) + KeptBars(b)
  {
    FilterAppend(a, b, IsKept);
    MapAppend(Filter(a, IsKept), Filter(b, IsKept), KeptBar);
  }

  // ================================================================ `get_stock_info`

  /** `matched[0]`: the first entry named exactly `query`, else the first whose name
      contains it. */
  function MatchByName(cache: seq<Stock>, query: string): (r: Option<Stock>)
    ensures r.Some? ==> r.value in cache
    ensures (exists i :: 0 <= i < |cache| && cache[i].name == query) ==>
      r.Some? && exists i :: (0 <= i < |cache| && cache[i] == r.value && cache[i].name == query
        && forall j :: 0 <= j < i ==> cache[j].name != query)
    ensures (forall i :: 0 <= i < |cache| ==> cache[i].name != query) && r.Some? ==>
      exists i :: 0 <= i < |cache| && cache[i] == r.value && Contains(cache[i].name, query)
        && forall j :: 0 <= j < i ==> !Contains(cache[j].name, query)
    ensures r.None? <==> forall i :: 0 <= i < |cache| ==> !Contains(cache[i].name, query)
  {
    match FirstWhere(cache, (s: Stock) => s.name == query)
    case Some(i) =>
      ContainsSelf(cache[i].name);
      Some(cache[i])
    case None =>
      match FirstWhere(cache, (s: Stock) => Contains(s.name, query))
      case Some(i) => Some(cache[i])
      case None =>
        assert forall i :: 0 <= i < |cache| ==> !Contains(cache[i].name, query);
        None
  }

  /** A name contains itself, so an exact match is never missed by the substring search. */
  lemma {:induction false} ContainsSelf(s: string)
    ensures Contains(s, s)
  {
    assert StartsWith(s[0..], s);
  }

  /** ROE and operating margin as `_get_financial_data` returns them. */
  datatype Financials = Financials(roe: Option<real>, operatingMargin: Option<real>)

  /** The dictionaries `get_stock_info` returns: the four error messages, or the result. */
  datatype StockInfo =
    | NotLoaded
    | NotFound
    | NoPriceData(stock: Stock)
    | ZeroStart(stock: Stock)
    | Info(stock: Stock, start: int, end: int, growth: real, fin: Financials)

  /** `(end - start) / start * 100` as an exact rational. */
  function ReturnPct(p: PricePair): real
    requires p.start != 0
  {
    (p.end - p.start) as real / p.start as real * 100.0
  }

  /** `get_stock_info`: `quote` and `financials` give what the endpoints answer for a
      code, `round` is `round(x, 2)`. */
  function GetStockInfo(cache: seq<Stock>, query: string, quote: string -> Response,
                        financials: string -> Financials, round: real -> real): (r: Result<StockInfo>)
    ensures |cache| == 0 ==> r == Ok(NotLoaded)
    ensures |cache| > 0 && MatchByName(cache, query).None? ==> r == Ok(NotFound)
    ensures r.Ok? && r.value.Info? ==>
      var s := MatchByName(cache, query).value;
      var p := PeriodPrice(quote(s.code));
      && r.value.stock == s && p == Ok(Some(PricePair(r.value.start, r.value.end)))
      && r.value.start > 0 && r.value.growth == round(ReturnPct(p.value.value))
      && r.value.fin == financials(s.code)
    ensures |cache| > 0 && MatchByName(cache, query).Some? ==>
      var s := MatchByName(cache, query).value;
      var p := PeriodPrice(quote(s.code));
      && (p == Ok(None) ==> r == Ok(NoPriceData(s)))
      && (p.Ok? && p.value.Some? ==> r.Ok? && r.value.Info?)
      && (p.Err? ==> r == Err(p.error))
    ensures r.Err? <==> |cache| > 0 && MatchByName(cache, query).Some?
                        && PeriodPrice(quote(MatchByName(cache, query).value.code)).Err?
    ensures r.Ok? ==> !r.value.ZeroStart?
  {
    if |cache| == 0 then Ok(NotLoaded)
    else match MatchByName(cache, query)
      case None => Ok(NotFound)
      case Some(s) =>
        match PeriodPrice(quote(s.code))
        case Err(e) => Err(e)
        case Ok(None) => Ok(NoPriceData(s))
        case Ok(Some(p)) =>
          if p.start == 0 then Ok(ZeroStart(s))
          else Ok(Info(s, p.start, p.end, round(ReturnPct(p)), financials(s.code)))
  }

  // ================================================================ `get_top_growth_stocks`

  datatype Growth = Growth(code: string, name: string, start: int, end: int, growth: real)

  /** `_fetch_one`'s rule: a result only when both prices are known and the start price is
      not zero; an exception yields none. */
  function FetchOne(s: Stock, price: Result<Option<PricePair>>, round: real -> real): (r: Option<Growth>)
    ensures r.Some? <==> price.Ok? && price.value.Some? && price.value.value.start != 0
    ensures r.Some? ==> (r.value.code == s.code && r.value.name == s.name
      && r.value.start == price.value.value.start && r.value.end == price.value.value.end
      && r.value.growth == round(ReturnPct(price.value.value)))
  {
    match price
    case Err(_) => None
    case Ok(None) => None
    case Ok(Some(p)) =>
      if p.start == 0 then None
      else Some(Growth(s.code, s.name, p.start, p.end, round(ReturnPct(p))))
  }

  /** The per-item rule applied to what the endpoint answers for the item's code. */
  function ItemResultOf(quote: string -> Response, round: real -> real): Stock -> Option<Growth> {
    (s: Stock) => FetchOne(s, PeriodPrice(quote(s.code)), round)
  }

  /** `as_completed` hands back every submitted item exactly once, in some order. */
  predicate IsArrivalOrder(order: seq<nat>, n: nat) {
    && |order| == n
    && (forall j :: 0 <= j < |order| ==> order[j] < n)
    && (forall i :: 0 <= i < n ==> i in order)
  }

  /** The results appended as the futures complete in `order`. */
  function Gather(items: seq<Stock>, order: seq<nat>, result: Stock -> Option<Growth>): (r: seq<Growth>)
    requires forall j :: 0 <= j < |order| ==> order[j] < |items|
    decreases |order|
  {
    if |order| == 0 then []
    else
      var last := result(items[order[|order| - 1]]);
      Gather(items, order[..|order| - 1], result) + (if last.Some? then [last.value] else [])
  }

  /** `results.sort(key=return, reverse=True)` compares by return, larger first. */
  function ByGrowthDesc(): (Growth, Growth) -> bool {
    (a: Growth, b: Growth) => a.growth >= b.growth
  }

  lemma {:induction false} ByGrowthDescPreorder()
    ensures TotalPreorder(ByGrowthDesc())
  {
  }

  /** `s[:n]` only when `n is not None`: `stocks[:limit]` and `results[:top_n]`. */
  function PrefixIfGiven<T>(s: seq<T>, n: Option<int>): (r: seq<T>)
    ensures |r| <= |s| && r == s[..|r|]
    ensures n.None? ==> r == s
    ensures n.Some? && n.value >= 0 ==> |r| == if n.value < |s| then n.value else |s|
  {
    if n.Some? then PyPrefix(s, n.value); PySlice(s, 0, n.value) else s
  }

  /** `get_top_growth_stocks` after the token and the stock list: `stocks` is what
      `_download_stock_list` gave, `arrival` the completion order of the futures. */
  method TopGrowthStocks(stocks: Result<seq<Stock>>, limit: Option<int>, quote: string -> Response,
                         arrival: seq<nat>, round: real -> real, topN: Option<int>)
    returns (r: Result<seq<Growth>>)
    requires stocks.Ok? ==> IsArrivalOrder(arrival, |PrefixIfGiven(stocks.value, limit)|)
    ensures stocks.Err? ==> r == Err(stocks.error)
    ensures stocks.Ok? ==>
      r == Ok(PrefixIfGiven(SortBy(Gather(PrefixIfGiven(stocks.value, limit), arrival, ItemResultOf(quote, round)), ByGrowthDesc()), topN))
  {
    if stocks.Err? {
      return Err(stocks.error);
    }
    var items := PrefixIfGiven(stocks.value, limit);
    var results := GatherResults(items, arrival, quote, round);
    if |results| == 0 {
      return Ok([]);
    }
    results := SortBy(results, ByGrowthDesc());
    var top := if topN.Some? then PySlice(results, 0, topN.value) else results;
    return Ok(top);
  }

  /** The `as_completed` loop: each arriving result that is not `None` is appended. */
  method GatherResults(items: seq<Stock>, arrival: seq<nat>, quote: string -> Response, round: real -> real)
    returns (results: seq<Growth>)
    requires forall j :: 0 <= j < |arrival| ==> arrival[j] < |items|
    ensures results == Gather(items, arrival, ItemResultOf(quote, round))
  {
    ghost var rule := ItemResultOf(quote, round);
    results := [];
    var j := 0;
    while j < |arrival|
      invariant 0 <= j <= |arrival|
      invariant results == Gather(items, arrival[..j], rule)
    {
      assert arrival[..j + 1][..j] == arrival[..j];
      var s := items[arrival[j]];
      var result := FetchOne(s, PeriodPrice(quote(s.code)), round);
      assert result == rule(s);
      if result.Some? {
        results := results + [result.value];
      }
      j := j + 1;
    }
    assert arrival[..|arrival|] == arrival;
  }

  /** The gathered results are exactly the results of the items in `order`. */
  lemma {:induction false} GatherMembers(items: seq<Stock>, order: seq<nat>, result: Stock -> Option<Growth>, g: Growth)
    requires forall j :: 0 <= j < |order| ==> order[j] < |items|
    ensures g in Gather(items, order, result) <==> exists j :: 0 <= j < |order| && result(items[order[j]]) == Some(g)
    decreases |order|
  {
    if |order| > 0 {
      var pre := order[..|order| - 1];
      GatherMembers(items, pre, result, g);
      assert forall j :: 0 <= j < |pre| ==> pre[j] == order[j];
    }
  }

  /** Over an arrival order, they are the results of all the items. */
  lemma {:induction false} ArrivalMembers(items: seq<Stock>, arrival: seq<nat>, result: Stock -> Option<Growth>, g: Growth)
    requires IsArrivalOrder(arrival, |items|)
    ensures g in Gather(items, arrival, result) <==> exists i :: 0 <= i < |items| && result(items[i]) == Some(g)
  {
    GatherMembers(items, arrival, result, g);
    if g in Gather(items, arrival, result) {
      var j :| 0 <= j < |arrival| && result(items[arrival[j]]) == Some(g);
      assert 0 <= arrival[j] < |items|;
    }
    if exists i :: 0 <= i < |items| && result(items[i]) == Some(g) {
      var i :| 0 <= i < |items| && result(items[i]) == Some(g);
      assert i in arrival;
      var j :| 0 <= j < |arrival| && arrival[j] == i;
    }
  }

  /** The ranking holds a result for exactly the items with both prices and a nonzero
      start (whatever the arrival order), is sorted by return, largest first, and is a
      prefix of the full ranking, all of it unless `top_n` is given. */
  lemma {:induction false} TopGrowthRanking(items: seq<Stock>, arrival: seq<nat>, quote: string -> Response,
                         round: real -> real, topN: Option<int>, g: Growth)
    requires IsArrivalOrder(arrival, |items|)
    ensures var full := SortBy(Gather(items, arrival, ItemResultOf(quote, round)), ByGrowthDesc());
      && (g in full <==> exists i :: 0 <= i < |items| && ItemResultOf(quote, round)(items[i]) == Some(g))
      && SortedBy(PrefixIfGiven(full, topN), ByGrowthDesc())
      && PrefixIfGiven(full, topN) == full[..|PrefixIfGiven(full, topN)|]
      && (topN.None? ==> PrefixIfGiven(full, topN) == full)
  {
    var rule := ItemResultOf(quote, round);
    var gathered := Gather(items, arrival, rule);
    var full := SortBy(gathered, ByGrowthDesc());
    ArrivalMembers(items, arrival, rule, g);
    assert g in full <==> g in gathered by {
      assert g in full <==> g in multiset(full);
    }
    ByGrowthDescPreorder();
    SortBySorted(gathered, ByGrowthDesc());
    if topN.Some? {
      PyPrefix(full, topN.value);
    }
  }

  /** An item yields a result exactly when the endpoint gives both prices (and then the
      start price is positive). */
  lemma {:induction false} ItemResultRule(quote: string -> Response, round: real -> real, s: Stock)
    ensures ItemResultOf(quote, round)(s).Some? <==> PeriodPrice(quote(s.code)).Ok? && PeriodPrice(quote(s.code)).value.Some?
  {
  }
}
