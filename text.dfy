/**
 * The Python `str` operations the scanner relies on: `strip`/`rstrip`
 * (Python's whitespace set), `isdigit`, `int()`, `split`, substring
 * search and the code-point order `<` that Python (and SQLite's BINARY
 * collation on UTF-8 text) uses to compare strings.
 */
module Text {
  import opened Wrappers
  import Seqs

  // ---------------------------------------------------------------- whitespace

  /** Python's `str.isspace()`: the characters `strip()` and `int()` discard at the ends. */
  predicate IsSpace(c: char) {
    || ('\t' <= c <= '\r')
    || ('\U{1c}' <= c <= ' ')
    || c == '\U{85}' || c == '\U{a0}' || c == '\U{1680}'
    || ('\U{2000}' <= c <= '\U{200a}')
    || c == '\U{2028}' || c == '\U{2029}' || c == '\U{202f}' || c == '\U{205f}' || c == '\U{3000}'
  }

  /** `s.lstrip()` */
  function LStrip(s: string): (r: string)
    ensures |r| <= |s| && r == s[|s| - |r|..]
    ensures forall i :: 0 <= i < |s| - |r| ==> IsSpace(s[i])
    ensures |r| > 0 ==> !IsSpace(r[0])
  {
    if |s| > 0 && IsSpace(s[0]) then LStrip(s[1..]) else s
  }

  /** `s.rstrip()` */
  function RStrip(s: string): (r: string)
    ensures |r| <= |s| && r == s[..|r|]
    ensures forall i :: |r| <= i < |s| ==> IsSpace(s[i])
    ensures |r| > 0 ==> !IsSpace(r[|r| - 1])
  {
    if |s| > 0 && IsSpace(s[|s| - 1]) then RStrip(s[..|s| - 1]) else s
  }

  /** `s.strip()` */
  function Strip(s: string): (r: string)
    ensures |r| <= |s|
    ensures |r| > 0 ==> !IsSpace(r[0]) && !IsSpace(r[|r| - 1])
    ensures Contains(s, r)
    ensures r == "" <==> forall i :: 0 <= i < |s| ==> IsSpace(s[i])
  {
    var l := LStrip(s);
    var r := RStrip(l);
    var k := |s| - |l|;
    assert s[k..][..|r|] == r;
    r
  }

  /** `lstrip` removes exactly the leading run of whitespace. */
  lemma {:induction false} LStripExact(s: string, k: nat)
    requires k <= |s|
    requires forall i :: 0 <= i < k ==> IsSpace(s[i])
    requires k < |s| ==> !IsSpace(s[k])
    ensures LStrip(s) == s[k..]
  {
    if k > 0 {
      LStripExact(s[1..], k - 1);
      assert s[1..][k - 1..] == s[k..];
    }
  }

  /** `rstrip` removes exactly the trailing run of whitespace. */
  lemma {:induction false} RStripExact(s: string, k: nat)
    requires k <= |s|
    requires forall i :: k <= i < |s| ==> IsSpace(s[i])
    requires k > 0 ==> !IsSpace(s[k - 1])
    ensures RStrip(s) == s[..k]
    decreases |s|
  {
    if k < |s| {
      RStripExact(s[..|s| - 1], k);
      assert s[..|s| - 1][..k] == s[..k];
    }
  }

  /** Surrounding a string that neither starts nor ends with whitespace by whitespace
      and stripping gives it back. Every string splits this way, so this pins `Strip` down. */
  lemma {:induction false} StripPadded(pre: string, t: string, post: string)
    requires forall i :: 0 <= i < |pre| ==> IsSpace(pre[i])
    requires forall i :: 0 <= i < |post| ==> IsSpace(post[i])
    requires |t| > 0 ==> !IsSpace(t[0]) && !IsSpace(t[|t| - 1])
    ensures Strip(pre + t + post) == t
  {
    var s := pre + t + post;
    assert s == pre + (t + post);
    if |t| == 0 {
      assert s == pre + post;
      LStripPadded(pre, post);
      LStripExact(post, |post|);
      assert LStrip(s) == "";
    } else {
      LStripPadded(pre, t + post);
      assert (t + post)[0] == t[0];
      LStripExact(t + post, 0);
      RStripPadded(t, post);
    }
  }

  /** Leading whitespace, then text: `lstrip` drops the whitespace. */
  lemma {:induction false} LStripPadded(pre: string, rest: string)
    requires forall i :: 0 <= i < |pre| ==> IsSpace(pre[i])
    ensures LStrip(pre + rest) == LStrip(rest)
    decreases |pre|
  {
    var s := pre + rest;
    if |pre| == 0 {
      assert s == rest;
    } else {
      var tail := pre[1..];
      assert IsSpace(s[0]) by { assert s[0] == pre[0]; }
      assert s[1..] == tail + rest;
      LStripPadded(tail, rest);
    }
  }

  /** Text, then trailing whitespace: `rstrip` drops the whitespace. */
  lemma {:induction false} RStripPadded(t: string, post: string)
    requires forall i :: 0 <= i < |post| ==> IsSpace(post[i])
    requires |t| > 0 ==> !IsSpace(t[|t| - 1])
    ensures RStrip(t + post) == t
    decreases |post|
  {
    var s := t + post;
    if |post| == 0 {
      assert s == t;
      if |t| > 0 {
        assert s[|s| - 1] == t[|t| - 1];
      }
    } else {
      var front := post[..|post| - 1];
      assert IsSpace(s[|s| - 1]) by { assert s[|s| - 1] == post[|post| - 1]; }
      assert s[..|s| - 1] == t + front;
      RStripPadded(t, front);
    }
  }

  /** Stripping twice is stripping once. */
  lemma {:induction false} StripIdempotent(s: string)
    ensures Strip(Strip(s)) == Strip(s)
  {
    var t := Strip(s);
    assert "" + t + "" == t;
    StripPadded("", t, "");
  }

  // ---------------------------------------------------------------- digits

  /** ASCII digits; Python's `isdigit` also accepts other Unicode digits, which the model does not. */
  predicate IsDigit(c: char) {
    '0' <= c <= '9'
  }

  /** `s.isdigit()`: nonempty and all digits. */
  predicate IsDigits(s: string) {
    |s| > 0 && forall i :: 0 <= i < |s| ==> IsDigit(s[i])
  }

  function DigitValue(c: char): (r: nat)
    requires IsDigit(c)
    ensures r < 10
  {
    c as int - '0' as int
  }

  function DigitChar(d: nat): (c: char)
    requires d < 10
    ensures IsDigit(c) && DigitValue(c) == d
  {
    ('0' as int + d) as char
  }

  function Pow10(n: nat): (r: nat)
    ensures r > 0
  {
    if n == 0 then 1 else 10 * Pow10(n - 1)
  }

  /** The number a string of decimal digits denotes (leading zeros allowed). */
  function DigitsValue(s: string): (r: nat)
    requires forall i :: 0 <= i < |s| ==> IsDigit(s[i])
    ensures r < Pow10(|s|)
  {
    if |s| == 0 then 0 else DigitsValue(s[..|s| - 1]) * 10 + DigitValue(s[|s| - 1])
  }

  /** `n` as exactly `w` decimal digits, zero-padded on the left (`f"{n:0{w}d}"` for `n < 10^w`). */
  function PadDigits(n: nat, w: nat): (r: string)
    ensures |r| == w
    ensures forall i :: 0 <= i < |r| ==> IsDigit(r[i])
  {
    if w == 0 then "" else PadDigits(n / 10, w - 1) + [DigitChar(n % 10)]
  }

  lemma {:induction false} PadDigitsValue(n: nat, w: nat)
    requires n < Pow10(w)
    ensures DigitsValue(PadDigits(n, w)) == n
  {
    if w > 0 {
      PadDigitsValue(n / 10, w - 1);
      var s := PadDigits(n, w);
      assert s[..w - 1] == PadDigits(n / 10, w - 1);
    }
  }

  lemma {:induction false} DigitsValuePad(s: string)
    requires forall i :: 0 <= i < |s| ==> IsDigit(s[i])
    ensures PadDigits(DigitsValue(s), |s|) == s
  {
    if |s| > 0 {
      var pre := s[..|s| - 1];
      DigitsValuePad(pre);
      var v := DigitsValue(s);
      assert v / 10 == DigitsValue(pre) && v % 10 == DigitValue(s[|s| - 1]);
      assert s == pre + [s[|s| - 1]];
    }
  }

  /** Digits read from the front: the first digit weighs `10^(|s|-1)`. */
  lemma {:induction false} DigitsValueFront(s: string)
    requires |s| > 0 && forall i :: 0 <= i < |s| ==> IsDigit(s[i])
    ensures DigitsValue(s) == DigitValue(s[0]) * Pow10(|s| - 1) + DigitsValue(s[1..])
  {
    if |s| > 1 {
      var pre := s[..|s| - 1];
      var last := DigitValue(s[|s| - 1]);
      var d0 := DigitValue(s[0]);
      DigitsValueFront(pre);
      assert pre[1..] == s[1..][..|s| - 2];
      assert pre[0] == s[0];
      assert DigitsValue(s[1..]) == DigitsValue(pre[1..]) * 10 + last;
      assert DigitsValue(pre) == d0 * Pow10(|s| - 2) + DigitsValue(pre[1..]);
      assert Pow10(|s| - 1) == 10 * Pow10(|s| - 2);
      ShiftDigit(d0, Pow10(|s| - 2), DigitsValue(pre[1..]), last);
    }
  }

  lemma {:induction false} ShiftDigit(d: int, p: int, x: int, last: int)
    ensures (d * p + x) * 10 + last == d * (10 * p) + (x * 10 + last)
  {
  }

  /** Padding a concatenation of digit blocks: `PadDigits` of `a·10^w2 + b` splits into two blocks. */
  lemma {:induction false} PadDigitsSplit(a: nat, w1: nat, b: nat, w2: nat)
    requires b < Pow10(w2)
    ensures PadDigits(a * Pow10(w2) + b, w1 + w2) == PadDigits(a, w1) + PadDigits(b, w2)
  {
    if w2 > 0 {
      var n := a * Pow10(w2) + b;
      var p := Pow10(w2 - 1);
      assert Pow10(w2) == 10 * p;
      ShiftDigit(a, p, b / 10, b % 10);
      DivTen(n, a * p + b / 10, b % 10);
      DivTenBound(b, p);
      PadDigitsSplit(a, w1, b / 10, w2 - 1);
    }
  }

  lemma {:induction false} DivTen(n: int, q: int, r: int)
    requires 0 <= r < 10 && n == q * 10 + r
    ensures n / 10 == q && n % 10 == r
  {
  }

  lemma {:induction false} DivTenBound(b: nat, p: nat)
    requires b < 10 * p
    ensures b / 10 < p
  {
  }

  // ---------------------------------------------------------------- integers

  /** `str(n)` for a natural number: no leading zeros. */
  function NatString(n: nat): (r: string)
    ensures IsDigits(r)
    ensures |r| > 1 ==> r[0] != '0'
  {
    if n < 10 then [DigitChar(n)] else NatString(n / 10) + [DigitChar(n % 10)]
  }

  lemma {:induction false} NatStringValue(n: nat)
    ensures DigitsValue(NatString(n)) == n
  {
    if n >= 10 {
      NatStringValue(n / 10);
      var s := NatString(n);
      assert s[..|s| - 1] == NatString(n / 10);
    }
  }

  /** `str(n)` */
  function IntString(n: int): string {
    if n < 0 then "-" + NatString(-n) else NatString(n)
  }

  /** Python's `int(s)` on a string: surrounding whitespace allowed, an optional sign,
      then one or more digits; anything else raises `ValueError` (`None` here). */
  function ParseInt(s: string): Option<int> {
    ParseSigned(Strip(s))
  }

  /** An optional sign then one or more digits, nothing else. */
  function ParseSigned(t: string): Option<int> {
    if |t| > 0 && (t[0] == '-' || t[0] == '+') then
      if IsDigits(t[1..]) then
        Some(if t[0] == '-' then -(DigitsValue(t[1..]) as int) else DigitsValue(t[1..]))
      else None
    else if IsDigits(t) then
      Some(DigitsValue(t))
    else None
  }

  /** A digit string, signed or not, has no whitespace to strip. */
  lemma {:induction false} StripSigned(d: string, sign: string)
    requires IsDigits(d) && (sign == "" || sign == "-")
    ensures Strip(sign + d) == sign + d
  {
    var m := sign + d;
    assert m[|m| - 1] == d[|d| - 1];
    assert !IsSpace(m[0]) && !IsSpace(m[|m| - 1]);
    StripPadded("", m, "");
    assert "" + m + "" == m;
  }

  /** A digit string parses to its value. */
  lemma {:induction false} ParseIntDigits(d: string)
    requires IsDigits(d)
    ensures ParseInt(d) == Some(DigitsValue(d) as int)
  {
    StripSigned(d, "");
    assert "" + d == d;
  }

  lemma {:induction false} ParseSignedNeg(d: string)
    requires IsDigits(d)
    ensures ParseSigned("-" + d) == Some(-(DigitsValue(d) as int))
  {
    var m := "-" + d;
    assert m[0] == '-' && m[1..] == d;
  }

  /** A digit string with a `-` in front parses to the negated value. */
  lemma {:induction false} ParseIntNegDigits(d: string)
    requires IsDigits(d)
    ensures ParseInt("-" + d) == Some(-(DigitsValue(d) as int))
  {
    StripSigned(d, "-");
    ParseSignedNeg(d);
  }

  /** `int(str(n)) == n` */
  lemma {:induction false} ParseIntRoundTrip(n: int)
    ensures ParseInt(IntString(n)) == Some(n)
  {
    var m: nat := if n < 0 then -n else n;
    var d := NatString(m);
    NatStringValue(m);
    if n < 0 {
      assert IntString(n) == "-" + d;
      ParseIntNegDigits(d);
    } else {
      assert IntString(n) == d;
      ParseIntDigits(d);
    }
  }

  // ---------------------------------------------------------------- search and split

  /** `sub in s` */
  predicate Contains(s: string, sub: string) {
    exists i :: 0 <= i <= |s| && StartsWith(s[i..], sub)
  }

  /** `s.startswith(p)` */
  predicate StartsWith(s: string, p: string) {
    |p| <= |s| && s[..|p|] == p
  }

  /** Position of the first `c` in `s`, as `s.find(c)` gives it. */
  function IndexOf(s: string, c: char): (r: Option<nat>)
    ensures r.Some? ==> r.value < |s| && s[r.value] == c && c !in s[..r.value]
    ensures r.None? <==> c !in s
  {
    var f := Seqs.FirstWhere(s, (x: char) => x == c);
    if f.Some? then Some(f.value) else None
  }

  /** `s.split(c)` for a one-character separator. */
  function Split(s: string, c: char): (r: seq<string>)
    ensures |r| >= 1
    ensures forall i :: 0 <= i < |r| ==> c !in r[i]
    decreases |s|
  {
    match IndexOf(s, c)
    case None => [s]
    case Some(i) => [s[..i]] + Split(s[i + 1..], c)
  }

  /** `c.join(parts)` */
  function Join(parts: seq<string>, c: char): string {
    if |parts| == 0 then ""
    else if |parts| == 1 then parts[0]
    else parts[0] + [c] + Join(parts[1..], c)
  }

  lemma {:induction false} JoinSplit(s: string, c: char)
    ensures Join(Split(s, c), c) == s
    decreases |s|
  {
    match IndexOf(s, c)
    case None =>
    case Some(i) =>
      JoinSplit(s[i + 1..], c);
      var rest := Split(s[i + 1..], c);
      assert Split(s, c)[1..] == rest;
      assert s == s[..i] + [c] + s[i + 1..];
  }

  lemma {:induction false} SplitJoin(parts: seq<string>, c: char)
    requires |parts| >= 1
    requires forall i :: 0 <= i < |parts| ==> c !in parts[i]
    ensures Split(Join(parts, c), c) == parts
    decreases |parts|
  {
    if |parts| > 1 {
      assert c !in parts[0];
      SplitAt(parts[0], Join(parts[1..], c), c);
      SplitJoin(parts[1..], c);
    } else {
      assert IndexOf(parts[0], c).None?;
    }
  }

  /** Splitting at the first separator. */
  lemma {:induction false} SplitAt(p: string, tail: string, c: char)
    requires c !in p
    ensures Split(p + [c] + tail, c) == [p] + Split(tail, c)
  {
    var s := p + [c] + tail;
    assert s[|p|] == c;
    forall i | 0 <= i < |p| ensures s[i] != c {
      assert s[i] == p[i];
    }
    assert IndexOf(s, c) == Some(|p|);
    assert s[..|p|] == p && s[|p| + 1..] == tail;
  }

  // ---------------------------------------------------------------- order

  /** Python's `a < b` on strings: code-point lexicographic order. */
  predicate LexLess(a: string, b: string) {
    if |a| == 0 then |b| > 0
    else if |b| == 0 then false
    else if a[0] != b[0] then a[0] < b[0]
    else LexLess(a[1..], b[1..])
  }

  /** Python's `a <= b` on strings. */
  predicate LexLe(a: string, b: string) {
    a == b || LexLess(a, b)
  }

  lemma {:induction false} LexLessIrreflexive(a: string)
    ensures !LexLess(a, a)
  {
    if |a| > 0 {
      LexLessIrreflexive(a[1..]);
    }
  }

  lemma {:induction false} LexLessAsymmetric(a: string, b: string)
    ensures !(LexLess(a, b) && LexLess(b, a))
  {
    if |a| > 0 && |b| > 0 && a[0] == b[0] {
      LexLessAsymmetric(a[1..], b[1..]);
    }
  }

  lemma {:induction false} LexLessTransitive(a: string, b: string, c: string)
    requires LexLess(a, b) && LexLess(b, c)
    ensures LexLess(a, c)
  {
    if |a| > 0 && a[0] == b[0] && b[0] == c[0] {
      LexLessTransitive(a[1..], b[1..], c[1..]);
    }
  }

  lemma {:induction false} LexLeTransitive(a: string, b: string, c: string)
    requires LexLe(a, b) && LexLe(b, c)
    ensures LexLe(a, c)
  {
    if a != b && b != c {
      LexLessTransitive(a, b, c);
    }
  }

  lemma {:induction false} LexTrichotomy(a: string, b: string)
    ensures a == b || LexLess(a, b) || LexLess(b, a)
  {
    if |a| > 0 && |b| > 0 && a[0] == b[0] {
      LexTrichotomy(a[1..], b[1..]);
      if a[1..] == b[1..] {
        assert a == [a[0]] + a[1..] && b == [b[0]] + b[1..];
      }
    }
  }

  /** `<=` on strings is a total order (and so a total preorder a sort may use). */
  lemma {:induction false} LexLeTotalOrder()
    ensures forall a, b :: LexLe(a, b) || LexLe(b, a)
    ensures forall a, b, c :: LexLe(a, b) && LexLe(b, c) ==> LexLe(a, c)
    ensures forall a, b :: LexLe(a, b) && LexLe(b, a) ==> a == b
  {
    forall a, b ensures LexLe(a, b) || LexLe(b, a) {
      LexTrichotomy(a, b);
    }
    forall a, b, c | LexLe(a, b) && LexLe(b, c) ensures LexLe(a, c) {
      if a != b && b != c {
        LexLessTransitive(a, b, c);
      }
    }
    forall a, b | LexLe(a, b) && LexLe(b, a) ensures a == b {
      LexLessAsymmetric(a, b);
    }
  }

  lemma {:induction false} LeadingDigitDecides(x: nat, y: nat, p: nat, rx: nat, ry: nat)
    requires x < y && rx < p && ry < p
    ensures x * p + rx < y * p + ry
  {
    assert (x + 1) * p <= y * p;
  }

  /** For digit strings of one length, string order is numeric order. */
  lemma {:induction false} LexLessDigits(a: string, b: string)
    requires |a| == |b|
    requires forall i :: 0 <= i < |a| ==> IsDigit(a[i])
    requires forall i :: 0 <= i < |b| ==> IsDigit(b[i])
    ensures LexLess(a, b) <==> DigitsValue(a) < DigitsValue(b)
  {
    if |a| > 0 {
      DigitsValueFront(a);
      DigitsValueFront(b);
      var p := Pow10(|a| - 1);
      if a[0] == b[0] {
        LexLessDigits(a[1..], b[1..]);
      } else if a[0] < b[0] {
        LeadingDigitDecides(DigitValue(a[0]), DigitValue(b[0]), p, DigitsValue(a[1..]), DigitsValue(b[1..]));
      } else {
        LeadingDigitDecides(DigitValue(b[0]), DigitValue(a[0]), p, DigitsValue(b[1..]), DigitsValue(a[1..]));
      }
    }
  }
}
