/**
 Go's duration text: `Duration.String` and `time.ParseDuration`. The issuer prints a
 lifetime with the one and reads it back with the other (internal/server/server.go,
 internal/tokenfactory/factory.go).

 `ParseDuration` multiplies a fraction in floating point; here the product is exact and
 rounded down, which is what the library computes whenever the fraction has at most as
 many digits as its unit has decimal places.
 */
module Durations {
  import opened Base
  import opened Text

  const LIMIT: nat := 0x8000_0000_0000_0000
  const WORD: nat := 0x1_0000_0000_0000_0000

  function Pow10(k: nat): (p: nat)
    ensures p > 0
  {
    if k == 0 then 1 else 10 * Pow10(k - 1)
  }

  // ----- Printing -----

  /** The last `prec` digits of `v` without trailing zeros, unless `printing` keeps them. */
  function FracTail(v: nat, prec: nat, printing: bool): (s: string)
    ensures AllDigits(s) && |s| <= prec && (printing ==> |s| == prec)
    decreases prec
  {
    if prec == 0 then ""
    else
      var p := printing || v % 10 != 0;
      FracTail(v / 10, prec - 1, p) + (if p then [DigitChar(v % 10)] else "")
  }

  function Point(tail: string): string {
    if tail == "" then "" else "." + tail
  }

  /** `v` without its last `prec` digits. */
  function Shift(v: nat, prec: nat): nat
    decreases prec
  {
    if prec == 0 then v else Shift(v / 10, prec - 1)
  }

  /** A number of `10^prec`-ths of the unit `u`. */
  function FmtUnit(v: nat, prec: nat, u: string): string {
    Dec(Shift(v, prec)) + Point(FracTail(v, prec, false)) + u
  }

  function HoursText(hours: nat): string {
    if hours > 0 then Dec(hours) + "h" else ""
  }

  function MinutesText(mins: nat): string {
    if mins > 0 then Dec(mins % 60) + "m" else ""
  }

  /** `Duration.String` of a non-negative duration. */
  function Format(d: nat): string {
    if d == 0 then "0s"
    else if d < 1_000 then FmtUnit(d, 0, "ns")
    else if d < 1_000_000 then FmtUnit(d, 3, "\U{00B5}s")
    else if d < 1_000_000_000 then FmtUnit(d, 6, "ms")
    else
      var secs := d / 1_000_000_000;
      var mins := secs / 60;
      var hours := mins / 60;
      HoursText(hours) + (MinutesText(mins) + FmtUnit(d % 60_000_000_000, 9, "s"))
  }

  // ----- Parsing -----

  /** Leading digits as a number; None when it exceeds 2^63. */
  function LeadingInt(s: string, x: nat): (r: Option<(nat, string)>)
    ensures r.Some? ==> |r.value.1| <= |s|
  {
    if !StartsWithDigit(s) then Some((x, s))
    else if x > LIMIT / 10 then None
    else
      var y := 10 * x + DigitOf(s[0]);
      if y > LIMIT then None else LeadingInt(s[1..], y)
  }

  /** Leading digits as a fraction `x / scale`; digits beyond 63 bits are skipped. */
  function LeadingFraction(s: string, x: nat, scale: nat, overflow: bool): (r: (nat, nat, string))
    requires scale > 0
    ensures |r.2| <= |s| && r.1 > 0
  {
    if !StartsWithDigit(s) then (x, scale, s)
    else if overflow || x > (LIMIT - 1) / 10 then LeadingFraction(s[1..], x, scale, true)
    else
      var y := 10 * x + DigitOf(s[0]);
      if y > LIMIT then LeadingFraction(s[1..], x, scale, true)
      else LeadingFraction(s[1..], y, scale * 10, false)
  }

  /** How many leading characters are neither a digit nor a period. */
  function UnitLength(s: string): (n: nat)
    ensures n <= |s|
  {
    if s == "" || s[0] == '.' || IsDigit(s[0]) then 0 else 1 + UnitLength(s[1..])
  }

  function UnitValue(u: string): (r: Option<nat>)
    ensures r.Some? ==> r.value > 0
  {
    if u == "ns" then Some(1)
    else if u in {"us", "\U{00B5}s", "\U{03BC}s"} then Some(1_000)
    else if u == "ms" then Some(1_000_000)
    else if u == "s" then Some(1_000_000_000)
    else if u == "m" then Some(60_000_000_000)
    else if u == "h" then Some(3_600_000_000_000)
    else None
  }

  /** `whole + frac / scale`, and what follows it. */
  datatype Number = Number(whole: nat, frac: nat, scale: nat, rest: string)

  /** The fraction after a whole part, if there is one. */
  function AfterWhole(v: nat, rest: string): (n: Number)
    ensures n.whole == v && n.scale > 0 && |n.rest| <= |rest|
    ensures rest != "" && rest[0] == '.' ==> |n.rest| < |rest|
  {
    if rest != "" && rest[0] == '.' then
      var (f, scale, after) := LeadingFraction(rest[1..], 0, 1, false);
      Number(v, f, scale, after)
    else
      Number(v, 0, 1, rest)
  }

  /** A number needs a digit before or after its point. */
  function ParseNumber(s: string): (r: Option<Number>)
    ensures r.Some? ==> |r.value.rest| < |s| && r.value.scale > 0
  {
    if s == "" || (s[0] != '.' && !IsDigit(s[0])) then None
    else match LeadingInt(s, 0)
      case None => None
      case Some((v, rest)) =>
        var n := AfterWhole(v, rest);
        if |rest| == |s| && |n.rest| == |rest| - 1 then None else Some(n)
  }

  /** `f / scale` of a unit, rounded down. */
  function Prorated(f: nat, unit: nat, scale: nat): nat
    requires scale > 0
  {
    f * unit / scale
  }

  /** How many units of this size 2^63 holds. */
  function Most(unit: nat): nat
    requires unit > 0
  {
    LIMIT / unit
  }

  function Scaled(n: Number, unit: nat): Option<nat>
    requires n.scale > 0 && unit > 0
  {
    if n.whole > Most(unit) then None
    else
      var total := unit * n.whole + Prorated(n.frac, unit, n.scale);
      if total > LIMIT then None else Some(total)
  }

  /** One number with its unit, and what is left of the text. */
  function ParseComponent(s: string): (r: Option<(nat, string)>)
    ensures r.Some? ==> |r.value.1| < |s|
  {
    match ParseNumber(s)
    case None => None
    case Some(n) =>
      var k := UnitLength(n.rest);
      match UnitValue(n.rest[..k])
      case None => None
      case Some(unit) =>
        match Scaled(n, unit)
        case None => None
        case Some(v) => Some((v, n.rest[k..]))
  }

  /** 64-bit addition wraps around. */
  function Wrapped(x: nat): (w: nat)
    ensures x < WORD ==> w == x
  {
    x % WORD
  }

  /** The sum of the components in `s` added to `d`, in 64-bit arithmetic. */
  function ParseSum(s: string, d: int): (r: Option<int>)
    requires 0 <= d <= LIMIT
    ensures r.Some? ==> 0 <= r.value <= LIMIT
    decreases |s|
  {
    if s == "" then Some(d)
    else match ParseComponent(s)
      case None => None
      case Some((v, rest)) =>
        var sum := Wrapped(d + v);
        if sum > LIMIT then None else ParseSum(rest, sum)
  }

  /** `time.ParseDuration`. */
  function ParseDuration(s: string): Option<int> {
    var neg := s != "" && s[0] == '-';
    var t := if s != "" && (s[0] == '-' || s[0] == '+') then s[1..] else s;
    if t == "0" then Some(0)
    else if t == "" then None
    else match ParseSum(t, 0)
      case None => None
      case Some(d) =>
        if neg then Some(0 - d) else if d > LIMIT - 1 then None else Some(d)
  }

  lemma ParsedIsDuration(s: string)
    ensures ParseDuration(s).Some? ==> IsDuration(ParseDuration(s).value)
  {
  }

  // ----- Round trip -----

  lemma {:induction false} LeadingIntReads(ds: string, rest: string, x: nat)
    requires AllDigits(ds) && !StartsWithDigit(rest) && Eval(x, ds) <= LIMIT
    ensures LeadingInt(ds + rest, x) == Some((Eval(x, ds), rest))
    decreases |ds|
  {
    if ds == "" {
      assert ds + rest == rest;
    } else {
      var y := 10 * x + DigitOf(ds[0]);
      EvalGrows(y, ds[1..]);
      assert (ds + rest)[1..] == ds[1..] + rest;
      LeadingIntReads(ds[1..], rest, y);
    }
  }

  lemma {:induction false} LeadingFractionReads(ds: string, rest: string, x: nat, scale: nat)
    requires AllDigits(ds) && !StartsWithDigit(rest) && scale > 0 && Eval(x, ds) <= LIMIT / 10
    ensures LeadingFraction(ds + rest, x, scale, false) == (Eval(x, ds), scale * Pow10(|ds|), rest)
    decreases |ds|
  {
    if ds == "" {
      assert ds + rest == rest;
    } else {
      var y := 10 * x + DigitOf(ds[0]);
      EvalGrows(y, ds[1..]);
      assert (ds + rest)[1..] == ds[1..] + rest;
      LeadingFractionReads(ds[1..], rest, y, scale * 10);
      assert scale * 10 * Pow10(|ds| - 1) == scale * Pow10(|ds|);
    }
  }

  ghost predicate IsUnit(u: string) {
    u in {"ns", "us", "\U{00B5}s", "ms", "s", "m", "h"}
  }

  /** What may follow a printed component: nothing, or the digits of the next one. */
  ghost predicate Follows(rest: string) {
    rest == "" || IsDigit(rest[0])
  }

  lemma UnitReads(u: string, rest: string)
    requires IsUnit(u) && Follows(rest)
    ensures UnitLength(u + rest) == |u| && (u + rest)[..|u|] == u && (u + rest)[|u|..] == rest
    ensures UnitValue(u).Some? && !StartsWithDigit(u + rest) && (u + rest)[0] != '.'
  {
    assert UnitLength(rest) == 0;
    assert (u + rest)[1..] == u[1..] + rest;
    if |u| == 2 {
      assert u[1..] == [u[1]];
      assert ([u[1]] + rest)[1..] == rest;
    }
  }

  /** A printed number is read back as its whole part and its digits after the point. */
  lemma NumberReads(whole: nat, tail: string, after: string)
    requires AllDigits(tail) && whole <= LIMIT && Eval(0, tail) <= LIMIT / 10
    requires after != "" && !IsDigit(after[0]) && after[0] != '.'
    ensures ParseNumber(Dec(whole) + (Point(tail) + after)) == Some(Number(whole, Eval(0, tail), Pow10(|tail|), after))
  {
    var rest := Point(tail) + after;
    EvalDec(whole);
    LeadingIntReads(Dec(whole), rest, 0);
    PointReads(whole, tail, after);
  }

  lemma DropHead(c: char, s: string, t: string)
    ensures ([c] + s + t)[0] == c && ([c] + s + t)[1..] == s + t
  {
  }

  lemma PointReads(whole: nat, tail: string, after: string)
    requires AllDigits(tail) && Eval(0, tail) <= LIMIT / 10
    requires after != "" && !IsDigit(after[0]) && after[0] != '.'
    ensures !StartsWithDigit(Point(tail) + after)
    ensures AfterWhole(whole, Point(tail) + after) == Number(whole, Eval(0, tail), Pow10(|tail|), after)
  {
    if tail == "" {
      assert Point(tail) + after == after;
    } else {
      DropHead('.', tail, after);
      LeadingFractionReads(tail, after, 0, 1);
    }
  }

  lemma MostBounds(unit: nat)
    requires unit > 0
    ensures LIMIT < (Most(unit) + 1) * unit
  {
  }

  lemma FactorLess(a: nat, b: nat, m: nat)
    requires a * m < b * m
    ensures a < b
  {
  }

  lemma ScaledWithin(n: Number, unit: nat)
    requires n.scale > 0 && unit > 0 && unit * n.whole + Prorated(n.frac, unit, n.scale) <= LIMIT
    ensures Scaled(n, unit) == Some(unit * n.whole + Prorated(n.frac, unit, n.scale))
  {
    assert n.whole * unit <= LIMIT;
    MostBounds(unit);
    FactorLess(n.whole, Most(unit) + 1, unit);
  }

  lemma ComponentIs(text: string, n: Number, u: string, rest: string, value: nat)
    requires ParseNumber(text) == Some(n) && n.rest == u + rest && n.scale > 0
    requires IsUnit(u) && Follows(rest) && UnitValue(u).Some? && Scaled(n, UnitValue(u).value) == Some(value)
    ensures ParseComponent(text) == Some((value, rest))
  {
    UnitReads(u, rest);
  }

  /** A printed component is read back whole. */
  lemma ComponentReads(whole: nat, tail: string, u: string, rest: string, unit: nat, value: nat)
    requires AllDigits(tail) && IsUnit(u) && Follows(rest) && UnitValue(u) == Some(unit)
    requires whole <= LIMIT && Eval(0, tail) <= LIMIT / 10 && value <= LIMIT
    requires value == unit * whole + Prorated(Eval(0, tail), unit, Pow10(|tail|))
    ensures ParseComponent(Dec(whole) + (Point(tail) + (u + rest))) == Some((value, rest))
  {
    var text := Dec(whole) + (Point(tail) + (u + rest));
    var n := Number(whole, Eval(0, tail), Pow10(|tail|), u + rest);
    UnitReads(u, rest);
    NumberReads(whole, tail, u + rest);
    ScaledWithin(n, unit);
    ComponentIs(text, n, u, rest, value);
  }

  // ----- Fractions -----

  /** The printed digits, before and after the point, make up the number. */
  lemma {:induction false} PrintedValue(v: nat, prec: nat, printing: bool)
    ensures Shift(v, prec) * Pow10(prec)
            + Eval(0, FracTail(v, prec, printing)) * Pow10(prec - |FracTail(v, prec, printing)|) == v
    decreases prec
  {
    if prec > 0 {
      var p := printing || v % 10 != 0;
      var rest := FracTail(v / 10, prec - 1, p);
      PrintedValue(v / 10, prec - 1, p);
      TimesTen(Shift(v, prec), prec - 1);
      if p {
        EvalSnoc(0, rest, DigitChar(v % 10));
        assert Pow10(0) == 1;
      } else {
        assert rest + "" == rest;
        TimesTen(Eval(0, rest), prec - 1 - |rest|);
      }
    }
  }

  lemma TimesTen(x: nat, k: nat)
    ensures x * Pow10(k + 1) == 10 * (x * Pow10(k))
  {
  }

  lemma Exactly(f: nat, unit: nat, scale: nat, q: nat)
    requires scale > 0 && f * unit == scale * q
    ensures Prorated(f, unit, scale) == q
  {
    assert scale * (Prorated(f, unit, scale) - q) == -(f * unit % scale);
    Between(scale, Prorated(f, unit, scale) - q);
  }

  lemma Between(m: int, x: int)
    requires m > 0 && -m < m * x < m
    ensures x == 0
  {
  }

  lemma {:induction false} PowSplit(a: nat, b: nat)
    ensures Pow10(a + b) == Pow10(a) * Pow10(b)
  {
    if a > 0 {
      PowSplit(a - 1, b);
      assert 10 * (Pow10(a - 1) * Pow10(b)) == (10 * Pow10(a - 1)) * Pow10(b);
    }
  }

  lemma Cancel(f: nat, p: nat, d: nat, k: nat)
    requires d > 0 && p == d * k
    ensures Prorated(f, p, d) == f * k
  {
    assert f * (d * k) == d * (f * k);
    Exactly(f, p, d, f * k);
  }

  /** `v` in units of `10^prec`, printed with `prec` decimal places, is read back as `v`. */
  lemma UnitTextReads(v: nat, prec: nat, u: string, rest: string)
    requires prec <= 9 && IsUnit(u) && UnitValue(u) == Some(Pow10(prec)) && Follows(rest) && v <= LIMIT
    ensures ParseComponent(FmtUnit(v, prec, u) + rest) == Some((v, rest))
  {
    var tail, whole := FracTail(v, prec, false), Shift(v, prec);
    Regrouped(Dec(whole), Point(tail), u, rest);
    PrintedValue(v, prec, false);
    TailSmall(v, prec, false);
    UnitParts(v, prec, whole, Eval(0, tail), |tail|);
    ComponentReads(whole, tail, u, rest, Pow10(prec), v);
  }

  lemma UnitParts(v: nat, prec: nat, whole: nat, f: nat, digits: nat)
    requires digits <= prec && v <= LIMIT && f < Pow10(prec) <= 1_000_000_000
    requires whole * Pow10(prec) + f * Pow10(prec - digits) == v
    ensures v == Pow10(prec) * whole + Prorated(f, Pow10(prec), Pow10(digits))
    ensures whole <= LIMIT && f <= LIMIT / 10
  {
    PowSplit(digits, prec - digits);
    Parts(v, whole, Pow10(prec), f, Pow10(digits), Pow10(prec - digits));
  }

  lemma Parts(v: nat, whole: nat, p: nat, f: nat, d: nat, k: nat)
    requires d > 0 && k > 0 && p == d * k && f < p <= 1_000_000_000 && v <= LIMIT
    requires whole * p + f * k == v
    ensures v == p * whole + Prorated(f, p, d) && whole <= LIMIT && f <= LIMIT / 10
  {
    Cancel(f, p, d, k);
    AtMostProduct(whole, p);
  }

  lemma {:induction false} TailSmall(v: nat, prec: nat, printing: bool)
    requires prec <= 9
    ensures Eval(0, FracTail(v, prec, printing)) < Pow10(prec) <= 1_000_000_000
    decreases prec
  {
    NineDigits(prec);
    if prec > 0 {
      var p := printing || v % 10 != 0;
      var rest := FracTail(v / 10, prec - 1, p);
      TailSmall(v / 10, prec - 1, p);
      if p {
        EvalSnoc(0, rest, DigitChar(v % 10));
      } else {
        assert rest + "" == rest;
      }
    }
  }

  lemma Regrouped(a: string, b: string, c: string, d: string)
    ensures a + b + c + d == a + (b + (c + d))
  {
  }

  lemma AtMostProduct(a: nat, b: nat)
    requires b > 0
    ensures a <= a * b
  {
  }

  lemma NineDigits(prec: nat)
    requires prec <= 9
    ensures Pow10(prec) <= 1_000_000_000
  {
    assert Pow10(4) == 10_000 && Pow10(9) == 100_000 * Pow10(4);
    PowMonotone(prec, 9);
  }

  lemma {:induction false} PowMonotone(a: nat, b: nat)
    requires a <= b
    ensures Pow10(a) <= Pow10(b)
  {
    if a < b { PowMonotone(a, b - 1); }
  }

  // ----- Whole durations -----

  lemma SumStep(s: string, acc: nat, v: nat, rest: string)
    requires ParseComponent(s) == Some((v, rest)) && acc + v <= LIMIT
    ensures ParseSum(s, acc) == ParseSum(rest, acc + v)
  {
  }

  /** A whole number of units, printed before `rest`. */
  lemma WholeReads(n: nat, u: string, unit: nat, rest: string, acc: nat)
    requires IsUnit(u) && UnitValue(u) == Some(unit) && Follows(rest) && acc + unit * n <= LIMIT
    ensures ParseSum(Dec(n) + u + rest, acc) == ParseSum(rest, acc + unit * n)
  {
    AtMostProduct(n, unit);
    Exactly(0, unit, 1, 0);
    ComponentReads(n, "", u, rest, unit, unit * n);
    Regrouped(Dec(n), Point(""), u, rest);
    assert Dec(n) + Point("") == Dec(n);
    SumStep(Dec(n) + u + rest, acc, unit * n, rest);
  }

  lemma FractionReads(v: nat, prec: nat, u: string, acc: nat)
    requires prec <= 9 && IsUnit(u) && UnitValue(u) == Some(Pow10(prec)) && acc + v <= LIMIT
    ensures ParseSum(FmtUnit(v, prec, u), acc) == Some(acc + v)
  {
    UnitTextReads(v, prec, u, "");
    assert FmtUnit(v, prec, u) + "" == FmtUnit(v, prec, u);
    SumStep(FmtUnit(v, prec, u), acc, v, "");
  }

  lemma Powers()
    ensures Pow10(0) == 1 && Pow10(3) == 1_000 && Pow10(6) == 1_000_000 && Pow10(9) == 1_000_000_000
  {
    assert Pow10(1) == 10;
    PowSplit(3, 3);
    PowSplit(6, 3);
  }

  lemma MinutesRead(mins: nat, text: string, acc: nat, part: nat)
    requires Follows(text) && part == 60_000_000_000 * (mins % 60) && acc + part <= LIMIT
    ensures ParseSum(MinutesText(mins) + text, acc) == ParseSum(text, acc + part)
    ensures Follows(MinutesText(mins) + text)
  {
    if mins > 0 {
      WholeReads(mins % 60, "m", 60_000_000_000, text, acc);
      Associates(Dec(mins % 60), "m", text);
      DecStarts(mins % 60, "m" + text);
    } else {
      assert "" + text == text;
    }
  }

  lemma HoursRead(hours: nat, text: string, whole: nat)
    requires Follows(text) && whole == 3_600_000_000_000 * hours && whole <= LIMIT
    ensures ParseSum(HoursText(hours) + text, 0) == ParseSum(text, whole)
  {
    if hours > 0 {
      WholeReads(hours, "h", 3_600_000_000_000, text, 0);
    } else {
      assert "" + text == text;
    }
  }

  lemma SecondsRead(v: nat, acc: nat)
    requires acc + v <= LIMIT
    ensures ParseSum(FmtUnit(v, 9, "s"), acc) == Some(acc + v)
    ensures Follows(FmtUnit(v, 9, "s")) && FmtUnit(v, 9, "s") != ""
  {
    Powers();
    FractionReads(v, 9, "s", acc);
    DecStarts(Shift(v, 9), Point(FracTail(v, 9, false)) + "s");
    Associates(Dec(Shift(v, 9)), Point(FracTail(v, 9, false)), "s");
  }

  lemma HoursAndMinutes(mins: nat) returns (whole: nat, part: nat)
    ensures whole == 3_600_000_000_000 * (mins / 60) && part == 60_000_000_000 * (mins % 60)
    ensures whole + part == 60_000_000_000 * mins
  {
    whole, part := 3_600_000_000_000 * (mins / 60), 60_000_000_000 * (mins % 60);
  }

  lemma ClockReads(mins: nat, text: string, total: nat)
    requires 60_000_000_000 * mins <= LIMIT && Follows(text)
    requires ParseSum(text, 60_000_000_000 * mins) == Some(total)
    ensures ParseSum(HoursText(mins / 60) + (MinutesText(mins) + text), 0) == Some(total)
  {
    var whole, part := HoursAndMinutes(mins);
    MinutesRead(mins, text, whole, part);
    var rest := MinutesText(mins) + text;
    assert ParseSum(rest, whole) == Some(total);
    HoursRead(mins / 60, rest, whole);
  }

  lemma Associates(a: string, b: string, c: string)
    ensures a + b + c == a + (b + c)
  {
  }

  lemma DecStarts(n: nat, rest: string)
    ensures Dec(n) + rest != "" && IsDigit((Dec(n) + rest)[0])
  {
  }

  lemma FormatStarts(d: nat)
    ensures Format(d) != "" && IsDigit(Format(d)[0]) && |Format(d)| > 1
  {
  }

  lemma SubSecondReads(d: nat)
    requires 0 < d < 1_000_000_000
    ensures ParseSum(Format(d), 0) == Some(d)
  {
    Powers();
    if d < 1_000 {
      FractionReads(d, 0, "ns", 0);
    } else if d < 1_000_000 {
      FractionReads(d, 3, "\U{00B5}s", 0);
    } else {
      FractionReads(d, 6, "ms", 0);
    }
  }

  lemma SumReads(d: nat)
    requires d <= MAX_DURATION
    ensures ParseSum(Format(d), 0) == Some(d)
  {
    if d == 0 {
      WholeReads(0, "s", 1_000_000_000, "", 0);
      assert Dec(0) + "s" + "" == "0s";
    } else if d < 1_000_000_000 {
      SubSecondReads(d);
    } else {
      var mins := d / 1_000_000_000 / 60;
      assert d == 60_000_000_000 * mins + d % 60_000_000_000;
      var v := d % 60_000_000_000;
      SecondsRead(v, 60_000_000_000 * mins);
      ClockReads(mins, FmtUnit(v, 9, "s"), d);
    }
  }

  /** Every non-negative duration is read back from its own text. */
  lemma FormatParses(d: nat)
    requires d <= MAX_DURATION
    ensures ParseDuration(Format(d)) == Some(d)
  {
    FormatStarts(d);
    SumReads(d);
  }
}
