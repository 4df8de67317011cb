/**
 Decimal digits and the string trimming the sources use. Strings are sequences of
 Unicode characters.
 */
module Text {
  import opened Base

  predicate IsDigit(c: char) {
    '0' <= c <= '9'
  }

  function DigitOf(c: char): (d: nat)
    requires IsDigit(c)
    ensures d < 10
  {
    c as int - '0' as int
  }

  function DigitChar(d: nat): (c: char)
    requires d < 10
    ensures IsDigit(c) && DigitOf(c) == d
  {
    ('0' as int + d) as char
  }

  predicate AllDigits(s: string) {
    forall i :: 0 <= i < |s| ==> IsDigit(s[i])
  }

  /** Decimal notation. */
  function Dec(n: nat): (s: string)
    ensures s != "" && AllDigits(s)
  {
    if n < 10 then [DigitChar(n)] else Dec(n / 10) + [DigitChar(n % 10)]
  }

  /** The number read by appending the digits `s` to `x`. */
  function Eval(x: nat, s: string): nat
    requires AllDigits(s)
    decreases |s|
  {
    if s == "" then x else Eval(10 * x + DigitOf(s[0]), s[1..])
  }

  lemma {:induction false} EvalSnoc(x: nat, s: string, c: char)
    requires AllDigits(s) && IsDigit(c)
    ensures AllDigits(s + [c]) && Eval(x, s + [c]) == 10 * Eval(x, s) + DigitOf(c)
    decreases |s|
  {
    if s == "" {
      assert s + [c] == [c];
    } else {
      assert (s + [c])[1..] == s[1..] + [c];
      EvalSnoc(10 * x + DigitOf(s[0]), s[1..], c);
    }
  }

  /** Reading back what was printed. */
  lemma {:induction false} EvalDec(n: nat)
    ensures Eval(0, Dec(n)) == n
  {
    if n >= 10 {
      EvalDec(n / 10);
      EvalSnoc(0, Dec(n / 10), DigitChar(n % 10));
    } else {
      assert [DigitChar(n)][1..] == "";
      assert Dec(n)[1..] == "";
    }
  }

  lemma {:induction false} EvalGrows(x: nat, s: string)
    requires AllDigits(s)
    ensures Eval(x, s) >= x
    decreases |s|
  {
    if s != "" {
      EvalGrows(10 * x + DigitOf(s[0]), s[1..]);
    }
  }

  predicate StartsWithDigit(s: string) {
    s != "" && IsDigit(s[0])
  }

  // ----- Trimming -----

  predicate IsSpace(c: char) {
    || c in {'\t', '\n', '\U{000B}', '\U{000C}', '\r', ' ', '\U{0085}', '\U{00A0}', '\U{1680}'}
    || '\U{2000}' <= c <= '\U{200A}'
    || c in {'\U{2028}', '\U{2029}', '\U{202F}', '\U{205F}', '\U{3000}'}
  }

  function TrimLeft(s: string): string {
    if s != "" && IsSpace(s[0]) then TrimLeft(s[1..]) else s
  }

  function TrimRight(s: string): string {
    if s != "" && IsSpace(s[|s| - 1]) then TrimRight(s[..|s| - 1]) else s
  }

  function TrimSpace(s: string): string {
    TrimRight(TrimLeft(s))
  }

  function TrimPrefix(s: string, prefix: string): string {
    if prefix <= s then s[|prefix|..] else s
  }

  predicate HasSuffix(s: string, suffix: string) {
    |suffix| <= |s| && s[|s| - |suffix|..] == suffix
  }

  function TrimSuffix(s: string, suffix: string): string {
    if HasSuffix(s, suffix) then s[..|s| - |suffix|] else s
  }

  /** A string with no space at either end is its own trim. */
  lemma TrimTight(s: string)
    requires s == "" || (!IsSpace(s[0]) && !IsSpace(s[|s| - 1]))
    ensures TrimSpace(s) == s
  {
  }

  /** Nothing but space. */
  predicate Blank(s: string) {
    forall i :: 0 <= i < |s| ==> IsSpace(s[i])
  }

  lemma {:induction false} TrimLeftBlank(s: string)
    ensures TrimLeft(s) == "" <==> Blank(s)
    ensures Blank(TrimLeft(s)) ==> TrimLeft(s) == ""
  {
    if s != "" {
      if IsSpace(s[0]) {
        TrimLeftBlank(s[1..]);
        assert s == [s[0]] + s[1..];
      }
    }
  }

  lemma {:induction false} TrimRightBlank(s: string)
    ensures TrimRight(s) == "" <==> Blank(s)
  {
    if s != "" && IsSpace(s[|s| - 1]) {
      TrimRightBlank(s[..|s| - 1]);
      assert s == s[..|s| - 1] + [s[|s| - 1]];
    }
  }

  lemma {:induction false} TrimLeftBefore(b: string, x: string)
    requires x != "" && !IsSpace(x[0])
    ensures TrimLeft(b + x) == TrimLeft(b) + x
  {
    if b == "" {
      assert b + x == x;
    } else if IsSpace(b[0]) {
      assert (b + x)[1..] == b[1..] + x;
      TrimLeftBefore(b[1..], x);
    }
  }

  lemma {:induction false} TrimRightAfter(s: string, blank: string)
    requires s != "" && !IsSpace(s[|s| - 1]) && Blank(blank)
    ensures TrimRight(s + blank) == s
  {
    if blank == "" {
      assert s + blank == s;
    } else {
      var padded := s + blank;
      assert padded[|padded| - 1] == blank[|blank| - 1];
      assert padded[..|padded| - 1] == s + blank[..|blank| - 1];
      TrimRightAfter(s, blank[..|blank| - 1]);
    }
  }

  /** Trimming takes exactly the space around a text. */
  lemma TrimPadded(before: string, s: string, after: string)
    requires s != "" && !IsSpace(s[0]) && !IsSpace(s[|s| - 1]) && Blank(before) && Blank(after)
    ensures TrimSpace(before + s + after) == s
  {
    assert before + s + after == before + (s + after);
    TrimLeftBefore(before, s + after);
    TrimLeftBlank(before);
    assert "" + (s + after) == s + after;
    TrimRightAfter(s, after);
  }
}
