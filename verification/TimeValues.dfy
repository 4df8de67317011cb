/**
 Time claims as a token request writes them (internal/tokenfactory/factory.go), and what each
 documented form means (README.md).
 */
module TimeValues {
  import opened Base
  import opened Jwt
  import opened Text
  import opened Durations

  /** How RFC 3339 text is read; `time.Parse` is not modelled further. */
  type DateParser = string -> Option<Time>

  /** Truncation toward zero. */
  function Truncated(r: real): int {
    if r >= 0.0 then r.Floor else -((-r).Floor)
  }

  /** `strconv.ParseInt` in base ten with 64 bits. */
  function ParseInt(s: string): Option<int> {
    var signed := s != "" && (s[0] == '-' || s[0] == '+');
    var digits := if signed then s[1..] else s;
    if digits == "" || !AllDigits(digits) then None
    else
      var n: int := if signed && s[0] == '-' then 0 - Eval(0, digits) else Eval(0, digits);
      if IsDuration(n) then Some(n) else None
  }

  /** The text a duration is read from: trimmed, without a leading "in ". */
  function DurationText(s: string): string {
    TrimSpace(TrimPrefix(TrimSpace(s), "in "))
  }

  /** A time claim: epoch seconds, a duration from `now`, RFC 3339 text, or epoch seconds as text. */
  function ParseTimeValue(v: Json, now: Time, dates: DateParser): Option<Time> {
    match v
    case Num(r) => Some(Truncated(r) * SECOND)
    case Str(s) =>
      (match ParseDuration(DurationText(s))
       case Some(d) => Some(now + d)
       case None =>
         match dates(s)
         case Some(t) => Some(t)
         case None =>
           match ParseInt(TrimSpace(s))
           case Some(n) => Some(n * SECOND)
           case None => None)
    case _ => None
  }

  // ----- The documented forms -----

  datatype Unit = Ns | Us | Ms | Sec | Min | Hour

  /** A length of time: as the endpoint prints it, or a whole number of one unit. */
  datatype Length = Exact(d: nat) | Count(n: nat, unit: Unit)

  /** How a request may write a time; a duration counts from now, and back from it with a minus. */
  datatype Written =
    | Epoch(seconds: int)
    | EpochText(seconds: int)
    | After(text: string, d: nat)
    | In(text: string, d: nat)
    | Before(text: string, d: nat)
    | Date(year: string, rest: string)

  function UnitText(u: Unit): string {
    match u
    case Ns => "ns"
    case Us => "us"
    case Ms => "ms"
    case Sec => "s"
    case Min => "m"
    case Hour => "h"
  }

  function UnitNanos(u: Unit): nat {
    match u
    case Ns => 1
    case Us => 1_000
    case Ms => 1_000_000
    case Sec => 1_000_000_000
    case Min => 60_000_000_000
    case Hour => 3_600_000_000_000
  }

  function LengthText(l: Length): string {
    match l
    case Exact(d) => Format(d)
    case Count(n, u) => Dec(n) + UnitText(u)
  }

  function Nanos(l: Length): nat {
    match l
    case Exact(d) => d
    case Count(n, u) => UnitNanos(u) * n
  }

  /** The text of a duration of `d` nanoseconds. */
  ghost predicate Spells(text: string, d: nat) {
    d <= MAX_DURATION && exists l :: LengthText(l) == text && Nanos(l) == d
  }

  function SignedDec(n: int): string {
    if n < 0 then "-" + Dec(0 - n) else Dec(n)
  }

  /** The text or the number in the request. */
  function Show(w: Written): Json {
    match w
    case Epoch(n) => Num(n as real)
    case EpochText(n) => Str(SignedDec(n))
    case After(text, _) => Str(text)
    case In(text, _) => Str("in " + text)
    case Before(text, _) => Str("-" + text)
    case Date(year, rest) => Str(year + ("-" + rest))
  }

  /** The instant the documentation promises, counted from `now`. */
  function Meant(w: Written, now: Time, dates: DateParser): Option<Time> {
    match w
    case Epoch(n) => Some(n * SECOND)
    case EpochText(n) => Some(n * SECOND)
    case After(_, d) => Some(now + d)
    case In(_, d) => Some(now + d)
    case Before(_, d) => Some(now - d)
    case Date(year, rest) => dates(year + ("-" + rest))
  }

  /**
   The forms that are read as documented: epoch text other than zero that is not also a date,
   lengths within what a duration holds, and dates that start with a year and a dash.
   */
  ghost predicate Proper(w: Written, dates: DateParser) {
    match w
    case Epoch(_) => true
    case EpochText(n) => n != 0 && IsDuration(n) && dates(SignedDec(n)).None?
    case After(text, d) => Spells(text, d)
    case In(text, d) => Spells(text, d)
    case Before(text, d) => Spells(text, d)
    case Date(year, rest) =>
      && AllDigits(year) && |year| == 4 && rest != "" && IsDigit(rest[0]) && !IsSpace(rest[|rest| - 1])
      && dates(year + ("-" + rest)).Some?
  }

  // ----- Lengths -----

  lemma FormatEnds(d: nat)
    ensures Format(d) != "" && Format(d)[|Format(d)| - 1] == 's'
  {
  }

  lemma CountReads(n: nat, u: Unit)
    requires UnitNanos(u) * n <= LIMIT
    ensures ParseSum(Dec(n) + UnitText(u), 0) == Some(UnitNanos(u) * n)
  {
    WholeReads(n, UnitText(u), UnitNanos(u), "", 0);
    assert Dec(n) + UnitText(u) + "" == Dec(n) + UnitText(u);
  }

  /** Text of a length `d`: a digit first, no space at the end, and parts that sum up to it. */
  ghost predicate Measures(text: string, d: nat) {
    |text| > 1 && IsDigit(text[0]) && !IsSpace(text[|text| - 1]) && ParseSum(text, 0) == Some(d)
  }

  lemma PrintedMeasures(d: nat)
    requires d <= MAX_DURATION
    ensures Measures(Format(d), d)
  {
    FormatStarts(d);
    FormatEnds(d);
    SumReads(d);
  }

  lemma CountMeasures(n: nat, u: Unit)
    requires UnitNanos(u) * n <= MAX_DURATION
    ensures Measures(Dec(n) + UnitText(u), UnitNanos(u) * n)
  {
    CountReads(n, u);
    DecStarts(n, UnitText(u));
  }

  lemma SpellingMeasures(text: string, d: nat)
    requires Spells(text, d)
    ensures Measures(text, d)
  {
    var l :| LengthText(l) == text && Nanos(l) == d;
    match l
    case Exact(d) => PrintedMeasures(d);
    case Count(n, u) => CountMeasures(n, u);
  }

  lemma TextTight(text: string)
    requires text != "" && IsDigit(text[0]) && !IsSpace(text[|text| - 1])
    ensures TrimSpace(text) == text && DurationText(text) == text
    ensures DurationText("-" + text) == "-" + text
  {
    TrimTight(text);
    TrimTight("-" + text);
  }

  lemma InDropped(text: string)
    requires text != "" && IsDigit(text[0]) && !IsSpace(text[|text| - 1])
    ensures DurationText("in " + text) == text
  {
    TrimTight(text);
    TrimTight("in " + text);
    assert ("in " + text)[3..] == text;
  }

  lemma PlainReads(text: string, sum: Option<int>)
    requires text != "" && (IsDigit(text[0]) || text[0] == '.') && text != "0" && ParseSum(text, 0) == sum
    requires sum.Some? ==> sum.value <= MAX_DURATION
    ensures ParseDuration(text) == sum
  {
  }

  lemma MinusReads(signed: string, text: string, sum: Option<int>)
    requires signed != "" && signed[0] == '-' && signed[1..] == text && text != "0" && text != ""
    requires ParseSum(text, 0) == sum
    ensures ParseDuration(signed) == if sum.Some? then Some(0 - sum.value) else None
  {
  }

  lemma MinusDrops(text: string)
    ensures ("-" + text)[0] == '-' && ("-" + text)[1..] == text
  {
  }

  /** A length's text is read as that length, and with a minus in front as its negative. */
  lemma MeasureReads(text: string, d: nat)
    requires Measures(text, d) && d <= MAX_DURATION
    ensures TrimSpace(text) == text && ParseDuration(text) == Some(d)
    ensures TrimSpace("-" + text) == "-" + text && ParseDuration("-" + text) == Some(0 - d)
  {
    TextTight(text);
    MinusDrops(text);
    PlainReads(text, Some(d));
    MinusReads("-" + text, text, Some(d));
  }

  lemma SpanReads(text: string, d: int, now: Time, dates: DateParser)
    requires ParseDuration(DurationText(text)) == Some(d)
    ensures ParseTimeValue(Str(text), now, dates) == Some(now + d)
  {
  }

  lemma AfterTime(text: string, d: nat, now: Time, dates: DateParser)
    requires Measures(text, d) && d <= MAX_DURATION
    ensures ParseTimeValue(Show(After(text, d)), now, dates) == Meant(After(text, d), now, dates) == Some(now + d)
  {
    MeasureReads(text, d);
    TextTight(text);
    SpanReads(text, d, now, dates);
  }

  lemma InTime(text: string, d: nat, now: Time, dates: DateParser)
    requires Measures(text, d) && d <= MAX_DURATION
    ensures ParseTimeValue(Show(In(text, d)), now, dates) == Meant(In(text, d), now, dates) == Some(now + d)
  {
    MeasureReads(text, d);
    InDropped(text);
    SpanReads("in " + text, d, now, dates);
  }

  lemma BeforeTime(text: string, d: nat, now: Time, dates: DateParser)
    requires Measures(text, d) && d <= MAX_DURATION
    ensures ParseTimeValue(Show(Before(text, d)), now, dates) == Meant(Before(text, d), now, dates) == Some(now - d)
  {
    MeasureReads(text, d);
    TextTight(text);
    SpanReads("-" + text, 0 - d, now, dates);
  }

  // ----- Numbers and dates -----

  lemma DecTight(n: nat, sign: string)
    requires sign == "" || sign == "-"
    ensures TrimSpace(sign + Dec(n)) == sign + Dec(n) && DurationText(sign + Dec(n)) == sign + Dec(n)
  {
    var s := sign + Dec(n);
    assert s[|s| - 1] == Dec(n)[|Dec(n)| - 1];
    TrimTight(s);
  }

  /** A number without a unit is no duration, unless it is zero. */
  lemma NoUnit(digits: string)
    requires AllDigits(digits) && digits != "" && Eval(0, digits) <= LIMIT
    ensures ParseSum(digits, 0) == None
  {
    LeadingIntReads(digits, "", 0);
    assert digits + "" == digits;
    assert ParseComponent(digits) == None;
  }

  lemma DecOfPositive(n: nat)
    requires n > 0
    ensures Dec(n) != "0"
  {
    EvalDec(n);
  }

  /** Digits with or without a minus are no duration, but a number. */
  lemma NumberText(signed: string, digits: string, negative: bool, n: int)
    requires AllDigits(digits) && digits != "" && digits != "0" && IsDuration(n)
    requires signed == (if negative then "-" + digits else digits)
    requires n == if negative then 0 - Eval(0, digits) else Eval(0, digits)
    ensures ParseDuration(signed) == None && ParseInt(signed) == Some(n)
  {
    NoUnit(digits);
    MinusDrops(digits);
    if negative {
      MinusReads(signed, digits, None);
    } else {
      PlainReads(signed, None);
    }
  }

  lemma EpochTextReads(n: int, now: Time, dates: DateParser)
    requires IsDuration(n) && n != 0 && dates(SignedDec(n)).None?
    ensures ParseTimeValue(Str(SignedDec(n)), now, dates) == Some(n * SECOND)
  {
    var m: nat := if n < 0 then 0 - n else n;
    EvalDec(m);
    DecOfPositive(m);
    DecTight(m, if n < 0 then "-" else "");
    assert "" + Dec(m) == Dec(m);
    NumberText(SignedDec(n), Dec(m), n < 0, n);
    NumberTime(SignedDec(n), n, now, dates);
  }

  lemma NumberTime(text: string, n: int, now: Time, dates: DateParser)
    requires DurationText(text) == text && TrimSpace(text) == text && dates(text).None?
    requires ParseDuration(text) == None && ParseInt(text) == Some(n)
    ensures ParseTimeValue(Str(text), now, dates) == Some(n * SECOND)
  {
  }

  /** The epoch written as text is read as a duration of zero: now. */
  lemma EpochZero(now: Time, dates: DateParser)
    ensures ParseTimeValue(Str(SignedDec(0)), now, dates) == Some(now)
  {
    DecTight(0, "");
    assert "" + Dec(0) == Dec(0) == "0";
  }

  /** Epoch seconds as text are read as documented exactly when they are not zero, or it is that time now. */
  lemma EpochTextExactly(n: int, now: Time, dates: DateParser)
    requires IsDuration(n) && dates(SignedDec(n)).None?
    ensures ParseTimeValue(Str(SignedDec(n)), now, dates) == Some(n * SECOND) <==> n != 0 || now == 0
  {
    if n == 0 {
      EpochZero(now, dates);
    } else {
      EpochTextReads(n, now, dates);
    }
  }

  lemma DateReads(year: string, rest: string, now: Time, dates: DateParser)
    requires Proper(Date(year, rest), dates)
    ensures ParseTimeValue(Str(year + ("-" + rest)), now, dates) == dates(year + ("-" + rest))
  {
    var s := year + ("-" + rest);
    assert s[|s| - 1] == rest[|rest| - 1];
    TrimTight(s);
    NoDate(year, rest);
    PlainReads(s, None);
  }

  /** After the year comes no unit. */
  lemma NoDate(year: string, rest: string)
    requires AllDigits(year) && |year| == 4 && rest != "" && IsDigit(rest[0])
    ensures ParseSum(year + ("-" + rest), 0) == None
  {
    FourDigits(year);
    LeadingIntReads(year, "-" + rest, 0);
    DashUnit(rest);
    assert ParseComponent(year + ("-" + rest)) == None;
  }

  lemma FourDigits(year: string)
    requires AllDigits(year) && |year| == 4
    ensures Eval(0, year) <= 9_999
  {
    EvalBelow(0, year);
    assert Pow10(4) == 10_000;
  }

  lemma {:induction false} EvalBelow(x: nat, s: string)
    requires AllDigits(s)
    ensures Eval(x, s) < (x + 1) * Pow10(|s|)
    decreases |s|
  {
    if s != "" {
      EvalBelow(10 * x + DigitOf(s[0]), s[1..]);
      AtMostFactor(10 * x + DigitOf(s[0]) + 1, 10 * (x + 1), Pow10(|s| - 1));
      assert 10 * (x + 1) * Pow10(|s| - 1) == (x + 1) * (10 * Pow10(|s| - 1));
    }
  }

  lemma AtMostFactor(a: nat, b: nat, m: nat)
    requires a <= b
    ensures a * m <= b * m
  {
  }

  lemma DashUnit(rest: string)
    requires rest != "" && IsDigit(rest[0])
    ensures UnitLength("-" + rest) == 1 && ("-" + rest)[..1] == "-" && UnitValue("-") == None
  {
    assert ("-" + rest)[1..] == rest;
  }

  /** Every documented form is read as the documentation says. */
  lemma WrittenReads(w: Written, now: Time, dates: DateParser)
    requires Proper(w, dates)
    ensures ParseTimeValue(Show(w), now, dates) == Meant(w, now, dates)
  {
    match w
    case Epoch(n) =>
    case EpochText(n) => EpochTextReads(n, now, dates);
    case After(text, d) =>
      SpellingMeasures(text, d);
      AfterTime(text, d, now, dates);
    case In(text, d) =>
      SpellingMeasures(text, d);
      InTime(text, d, now, dates);
    case Before(text, d) =>
      SpellingMeasures(text, d);
      BeforeTime(text, d, now, dates);
    case Date(year, rest) => DateReads(year, rest, now, dates);
  }

  /** A JSON number that is not whole is cut toward zero. */
  lemma TowardZero(r: real, now: Time, dates: DateParser)
    ensures ParseTimeValue(Num(r), now, dates).Some? && ParseTimeValue(Num(r), now, dates).value % SECOND == 0
    ensures var n := ParseTimeValue(Num(r), now, dates).value / SECOND;
            if r >= 0.0 then n as real <= r < (n + 1) as real else (n - 1) as real < r <= n as real
  {
  }

  lemma DurationTextPadded(before: string, gap: string, text: string, after: string)
    requires Blank(before) && Blank(gap) && Blank(after)
    requires text != "" && IsDigit(text[0]) && !IsSpace(text[|text| - 1])
    ensures DurationText(before + text + after) == text
    ensures DurationText(before + ("in " + (gap + text)) + after) == text
  {
    TextTight(text);
    TrimPadded(before, text, after);
    var spaced := "in " + (gap + text);
    assert spaced[|spaced| - 1] == text[|text| - 1];
    TrimPadded(before, spaced, after);
    assert spaced[3..] == gap + text;
    TrimPadded(gap, text, "");
    assert gap + text + "" == gap + text;
  }

  /** Space around a duration, and between "in" and the duration, makes no difference. */
  lemma SpaceIgnored(before: string, gap: string, text: string, d: nat, after: string, now: Time, dates: DateParser)
    requires Blank(before) && Blank(gap) && Blank(after) && Spells(text, d)
    ensures ParseTimeValue(Str(before + text + after), now, dates) == Some(now + d)
    ensures ParseTimeValue(Str(before + ("in " + (gap + text)) + after), now, dates) == Some(now + d)
  {
    SpellingMeasures(text, d);
    MeasurePadded(before, gap, text, d, after, now, dates);
  }

  lemma MeasurePadded(before: string, gap: string, text: string, d: nat, after: string, now: Time, dates: DateParser)
    requires Blank(before) && Blank(gap) && Blank(after) && Measures(text, d) && d <= MAX_DURATION
    ensures ParseTimeValue(Str(before + text + after), now, dates) == Some(now + d)
    ensures ParseTimeValue(Str(before + ("in " + (gap + text)) + after), now, dates) == Some(now + d)
  {
    DurationTextPadded(before, gap, text, after);
    MeasureReads(text, d);
    SpanReads(before + text + after, d, now, dates);
    SpanReads(before + ("in " + (gap + text)) + after, d, now, dates);
  }
}
