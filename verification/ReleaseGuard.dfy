/**
 The release guard (internal/releaseguard/releaseguard.go): the major version in a module
 path's final `/vN` segment, the major of a release version, and the path to migrate to.
 */
module ReleaseGuard {
  import opened Base
  import opened Text

  datatype GuardError =
    | EmptyPath
    | MajorTooLarge
    | MajorBelowOne
    | BadVersion
    | VersionTooLarge
    | Mismatch(got: nat, want: nat, target: string)

  const MAX_INT: nat := 0x7fff_ffff_ffff_ffff

  /** `strconv.Atoi` on a string of digits. */
  function Atoi(digits: string): Option<nat>
    requires AllDigits(digits)
  {
    if Eval(0, digits) <= MAX_INT then Some(Eval(0, digits)) else None
  }

  /** A `/vN` segment starts at `i` and runs to the end. */
  predicate SegmentAt(s: string, i: nat) {
    i + 2 < |s| && s[i] == '/' && s[i + 1] == 'v' && AllDigits(s[i + 2..])
  }

  /** The leftmost place, from `i` on, where a final `/vN` segment starts. */
  function FindSegment(s: string, i: nat): (r: Option<nat>)
    ensures r.Some? ==> i <= r.value && SegmentAt(s, r.value)
    decreases |s| - i
  {
    if i >= |s| then None else if SegmentAt(s, i) then Some(i) else FindSegment(s, i + 1)
  }

  function ModuleMajor(modulePath: string): Result<nat, GuardError> {
    var path := TrimSpace(modulePath);
    if path == "" then Err(EmptyPath)
    else
      var s := TrimSuffix(path, "/");
      match FindSegment(s, 0)
      case None => Ok(1)
      case Some(i) =>
        match Atoi(s[i + 2..])
        case None => Err(MajorTooLarge)
        case Some(major) => if major < 1 then Err(MajorBelowOne) else Ok(major)
  }

  /** How many leading characters are digits. */
  function DigitRun(s: string): (n: nat)
    ensures n <= |s| && AllDigits(s[..n]) && (n < |s| ==> !IsDigit(s[n]))
  {
    if StartsWithDigit(s) then 1 + DigitRun(s[1..]) else 0
  }

  /** What follows a number and a period. */
  function AfterNumber(s: string): Option<string> {
    var n := DigitRun(s);
    if n == 0 || n == |s| || s[n] != '.' then None else Some(s[n + 1..])
  }

  predicate SuffixChar(c: char) {
    IsDigit(c) || 'A' <= c <= 'Z' || 'a' <= c <= 'z' || c == '.' || c == '-'
  }

  /** A pre-release or build suffix, or nothing. */
  predicate VersionTail(s: string) {
    s == "" || (s[0] in "-+" && |s| > 1 && forall i :: 1 <= i < |s| ==> SuffixChar(s[i]))
  }

  /** The last number and what may follow it. */
  predicate PatchAndTail(s: string) {
    DigitRun(s) > 0 && VersionTail(s[DigitRun(s)..])
  }

  predicate NumbersAndTail(s: string) {
    match AfterNumber(s)
    case None => false
    case Some(minor) =>
      match AfterNumber(minor)
      case None => false
      case Some(patch) => PatchAndTail(patch)
  }

  function Untagged(v: string): string {
    if v != "" && v[0] == 'v' then v[1..] else v
  }

  function MajorOf(s: string): Result<nat, GuardError> {
    if !NumbersAndTail(s) then Err(BadVersion)
    else match Atoi(s[..DigitRun(s)])
      case None => Err(VersionTooLarge)
      case Some(major) => Ok(major)
  }

  function VersionMajor(version: string): Result<nat, GuardError> {
    MajorOf(Untagged(TrimSpace(version)))
  }

  /** The path without its final `/vN` segment. */
  function BasePath(modulePath: string): string {
    var base := TrimSuffix(modulePath, "/");
    match FindSegment(base, 0)
    case Some(i) => base[..i]
    case None => base
  }

  function TargetModulePath(modulePath: string, major: nat): string {
    if major >= 2 then BasePath(modulePath) + "/v" + Dec(major) else BasePath(modulePath)
  }

  function Check(modulePath: string, version: string): Result<(), GuardError> {
    match ModuleMajor(modulePath)
    case Err(e) => Err(e)
    case Ok(want) =>
      match VersionMajor(version)
      case Err(e) => Err(e)
      case Ok(got) => if got == want then Ok(()) else Err(Mismatch(got, want, TargetModulePath(modulePath, got)))
  }

  // ----- The segment -----

  lemma DigitsAfter(s: string, i: nat)
    requires SegmentAt(s, i)
    ensures forall k :: i + 2 <= k < |s| ==> IsDigit(s[k])
  {
    forall k | i + 2 <= k < |s| ensures IsDigit(s[k]) {
      assert s[i + 2..][k - (i + 2)] == s[k];
    }
  }

  /** A string has at most one final `/vN` segment. */
  lemma SegmentUnique(s: string, i: nat, j: nat)
    requires SegmentAt(s, i) && SegmentAt(s, j)
    ensures i == j
  {
    DigitsAfter(s, i);
    DigitsAfter(s, j);
  }

  lemma {:induction false} FindsAny(s: string, i: nat, j: nat)
    requires i <= j && SegmentAt(s, j)
    ensures FindSegment(s, i) == Some(j)
    decreases |s| - i
  {
    if SegmentAt(s, i) {
      SegmentUnique(s, i, j);
    } else {
      FindsAny(s, i + 1, j);
    }
  }

  /** A segment is found where it was put, before any trimming of the path. */
  lemma SegmentFound(b: string, digits: string)
    requires AllDigits(digits) && digits != ""
    ensures var s := b + "/v" + digits;
            && FindSegment(s, 0) == Some(|b|) && s[..|b|] == b && s[|b| + 2..] == digits && TrimSuffix(s, "/") == s
  {
    var s := b + "/v" + digits;
    assert s[|b| + 2..] == digits;
    assert s[|b|] == '/' && s[|b| + 1] == 'v';
    FindsAny(s, 0, |b|);
    LastIsDigit(b + "/v", digits);
  }

  lemma LastIsDigit(b: string, digits: string)
    requires AllDigits(digits) && digits != ""
    ensures var s := b + digits; s != "" && IsDigit(s[|s| - 1]) && !HasSuffix(s, "/")
  {
    var s := b + digits;
    assert s[|s| - 1] == digits[|digits| - 1];
    assert s[|s| - 1..][0] == s[|s| - 1];
  }

  lemma TrimTarget(b: string, digits: string)
    requires AllDigits(digits) && digits != ""
    ensures TrimSpace(b + "/v" + digits) == TrimLeft(b) + "/v" + digits
  {
    var x := "/v" + digits;
    assert b + "/v" + digits == b + x;
    TrimLeftBefore(b, x);
    assert TrimLeft(b) + x == TrimLeft(b) + "/v" + digits;
    LastIsDigit(TrimLeft(b) + "/v", digits);
    var s := TrimLeft(b) + "/v" + digits;
    assert !IsSpace(s[|s| - 1]);
  }

  /** The major of a path is the number after its final "/v", if it is at least one and an int. */
  lemma SegmentMajor(b: string, digits: string)
    requires AllDigits(digits) && digits != ""
    ensures ModuleMajor(b + "/v" + digits) ==
            if Eval(0, digits) > MAX_INT then Err(MajorTooLarge)
            else if Eval(0, digits) == 0 then Err(MajorBelowOne)
            else Ok(Eval(0, digits))
  {
    TrimTarget(b, digits);
    SegmentFound(TrimLeft(b), digits);
  }

  // ----- Round trips -----

  /** The suggested path for a major of at least two has that major, whatever path it was made from. */
  lemma TargetHasMajor(modulePath: string, major: nat)
    requires 2 <= major <= MAX_INT
    ensures ModuleMajor(TargetModulePath(modulePath, major)) == Ok(major)
  {
    SegmentMajor(BasePath(modulePath), Dec(major));
    EvalDec(major);
  }

  /** Suggesting again replaces an earlier suggestion instead of adding to it. */
  lemma TargetOverwrites(modulePath: string, major: nat, next: nat)
    requires major >= 2
    ensures TargetModulePath(TargetModulePath(modulePath, major), next) == TargetModulePath(modulePath, next)
  {
    SegmentFound(BasePath(modulePath), Dec(major));
  }

  /**
   The check passes exactly when the version's major is the path's. The suggestion changes the
   segment's number, or drops the segment for a major below two.
   */
  lemma CheckExactly(b: string, want: nat, version: string, got: nat)
    requires 1 <= want <= MAX_INT && VersionMajor(version) == Ok(got)
    ensures Check(b + "/v" + Dec(want), version) ==
            if got == want then Ok(()) else Err(Mismatch(got, want, if got >= 2 then b + "/v" + Dec(got) else b))
  {
    SegmentMajor(b, Dec(want));
    SegmentFound(b, Dec(want));
    EvalDec(want);
  }

  /** A path without a version segment is for major one; the suggestion appends the segment. */
  lemma CheckPlain(modulePath: string, version: string, got: nat)
    requires !Blank(modulePath) && VersionMajor(version) == Ok(got)
    requires forall i :: 0 <= i < |modulePath| ==> modulePath[i] != '/' || !SegmentAt(modulePath, i)
    requires modulePath[|modulePath| - 1] != '/' && TrimSpace(modulePath) == modulePath
    ensures Check(modulePath, version) ==
            if got == 1 then Ok(())
            else Err(Mismatch(got, 1, if got >= 2 then modulePath + "/v" + Dec(got) else modulePath))
  {
    assert !HasSuffix(modulePath, "/") by {
      assert modulePath[|modulePath| - 1..][0] == modulePath[|modulePath| - 1];
    }
    if FindSegment(modulePath, 0).Some? {
      assert false;
    }
  }

  lemma NeverZero(modulePath: string)
    ensures ModuleMajor(modulePath).Ok? ==> 1 <= ModuleMajor(modulePath).value <= MAX_INT
  {
  }

  /** Apart from surrounding space and one final slash, the text ends in a segment for another major than one. */
  ghost predicate OtherMajor(s: string) {
    var t := TrimSuffix(TrimSpace(s), "/");
    exists i :: 0 <= i < |t| && SegmentAt(t, i) && Eval(0, t[i + 2..]) != 1
  }

  /**
   A path whose segment can be dropped: it does not end in space, and the text before its
   segment is not blank and carries no other major.
   */
  ghost predicate Droppable(modulePath: string) {
    && modulePath != "" && !IsSpace(modulePath[|modulePath| - 1])
    && !Blank(BasePath(modulePath)) && !OtherMajor(BasePath(modulePath))
  }

  /** A path reads as major one exactly when it is not blank and names no other major. */
  lemma MajorOneExactly(modulePath: string)
    ensures ModuleMajor(modulePath) == Ok(1) <==> !Blank(modulePath) && !OtherMajor(modulePath)
  {
    TrimLeftBlank(modulePath);
    TrimRightBlank(TrimLeft(modulePath));
    var t := TrimSuffix(TrimSpace(modulePath), "/");
    if i :| 0 <= i < |t| && SegmentAt(t, i) {
      FindsAny(t, 0, i);
      forall j | 0 <= j < |t| && SegmentAt(t, j) ensures j == i {
        SegmentUnique(t, i, j);
      }
    }
  }

  /** Trailing space hides the segment from the suggestion. */
  lemma PaddedBase(modulePath: string)
    requires modulePath != "" && IsSpace(modulePath[|modulePath| - 1])
    ensures BasePath(modulePath) == modulePath
  {
    NoSegmentBeforeSpace(modulePath, 0);
    assert modulePath[|modulePath| - 1..][0] == modulePath[|modulePath| - 1];
  }

  lemma {:induction false} NoSegmentBeforeSpace(s: string, i: nat)
    requires s != "" && IsSpace(s[|s| - 1])
    ensures FindSegment(s, i) == None
    decreases |s| - i
  {
    if i < |s| {
      if SegmentAt(s, i) { DigitsAfter(s, i); }
      NoSegmentBeforeSpace(s, i + 1);
    }
  }

  /**
   After a mismatch, moving to the suggested path makes the check succeed exactly when the
   version's major is at least two, or is one and the path's segment can be dropped.
   */
  lemma MigrationExactly(modulePath: string, version: string)
    requires Check(modulePath, version).Err? && Check(modulePath, version).error.Mismatch?
    ensures var e := Check(modulePath, version).error;
            Check(e.target, version).Ok? <==> e.got >= 2 || (e.got == 1 && Droppable(modulePath))
  {
    var e := Check(modulePath, version).error;
    if e.got >= 2 {
      TargetHasMajor(modulePath, e.got);
    } else {
      NeverZero(e.target);
      DroppedMajor(modulePath);
    }
  }

  /** Dropping the segment of a path with another major leaves major one exactly when it can be dropped. */
  lemma DroppedMajor(modulePath: string)
    requires ModuleMajor(modulePath).Ok?
    ensures ModuleMajor(modulePath) != Ok(1) ==>
              (ModuleMajor(BasePath(modulePath)) == Ok(1) <==> Droppable(modulePath))
  {
    MajorOneExactly(BasePath(modulePath));
    if modulePath != "" && IsSpace(modulePath[|modulePath| - 1]) {
      PaddedBase(modulePath);
    }
  }

  /** For major one: a segment stacked on another leaves a path that fails again. */
  lemma StackedSegment(version: string)
    requires VersionMajor(version) == Ok(1)
    ensures Check("x/v3/v2", version) == Err(Mismatch(1, 2, "x/v3")) && Check("x/v3", version).Err?
  {
    OuterSegment();
    InnerSegment();
  }

  lemma OuterSegment()
    ensures ModuleMajor("x/v3/v2") == Ok(2) && TargetModulePath("x/v3/v2", 1) == "x/v3"
  {
    TrimTight("x/v3/v2");
    SegmentFound("x/v3", Dec(2));
    EvalDec(2);
    assert Dec(2) == "2" && "x/v3" + "/v" + Dec(2) == "x/v3/v2";
  }

  lemma InnerSegment()
    ensures ModuleMajor("x/v3") == Ok(3)
  {
    TrimTight("x/v3");
    SegmentFound("x", Dec(3));
    EvalDec(3);
    assert Dec(3) == "3" && "x" + "/v" + Dec(3) == "x/v3";
  }

  /** For major one: trailing space hides the segment from the suggestion, which repeats the path. */
  lemma PaddedSegment(version: string)
    requires VersionMajor(version) == Ok(1)
    ensures Check("x/v2 ", version) == Err(Mismatch(1, 2, "x/v2 "))
  {
    assert Dec(2) == "2" && "x" + "/v" + Dec(2) == "x/v2";
    SegmentFound("x", Dec(2));
    EvalDec(2);
    assert "x/v2 "[..4] == "x/v2";
    TrimTight("x/v2");
    assert TrimSpace("x/v2 ") == "x/v2";
    NoSegmentBeforeSpace("x/v2 ", 0);
  }

  /** For major one: a path that is only a segment leaves nothing. */
  lemma OnlySegment(version: string)
    requires VersionMajor(version) == Ok(1)
    ensures Check("/v2", version) == Err(Mismatch(1, 2, "")) && Check("", version) == Err(EmptyPath)
  {
    assert Dec(2) == "2" && "" + "/v" + Dec(2) == "/v2";
    SegmentFound("", Dec(2));
    EvalDec(2);
    TrimTight("/v2");
  }

  /** Major zero is not satisfied by any path. */
  lemma MajorZeroNeverPasses(modulePath: string, version: string)
    requires VersionMajor(version) == Ok(0)
    ensures Check(modulePath, version).Err?
  {
    NeverZero(modulePath);
  }

  // ----- Versions -----

  lemma {:induction false} DigitRunOf(digits: string, rest: string)
    requires AllDigits(digits) && !StartsWithDigit(rest)
    ensures DigitRun(digits + rest) == |digits|
    ensures (digits + rest)[..|digits|] == digits && (digits + rest)[|digits|..] == rest
  {
    if digits == "" {
      assert digits + rest == rest;
    } else {
      assert (digits + rest)[1..] == digits[1..] + rest;
      DigitRunOf(digits[1..], rest);
    }
  }

  lemma AfterDigits(d: string, rest: string)
    requires AllDigits(d) && d != ""
    ensures AfterNumber(d + ("." + rest)) == Some(rest)
    ensures DigitRun(d + ("." + rest)) == |d| && (d + ("." + rest))[..|d|] == d
  {
    DigitRunOf(d, "." + rest);
    PastPeriod(d, rest);
    AfterNumberIs(d + ("." + rest), |d|, rest);
  }

  lemma AfterNumberIs(s: string, n: nat, rest: string)
    requires DigitRun(s) == n && 0 < n < |s| && s[n] == '.' && s[n + 1..] == rest
    ensures AfterNumber(s) == Some(rest)
  {
  }

  lemma PastPeriod(d: string, rest: string)
    ensures (d + ("." + rest))[|d|] == '.' && (d + ("." + rest))[|d| + 1..] == rest
  {
    assert ("." + rest)[1..] == rest;
  }

  /** Three numbers and a suffix, as a version is written after its optional "v". */
  ghost predicate Written(s: string, major: string, minor: string, patch: string, tail: string) {
    && s == major + ("." + (minor + ("." + (patch + tail))))
    && AllDigits(major) && AllDigits(minor) && AllDigits(patch) && major != "" && minor != "" && patch != ""
    && Suffix(tail)
  }

  /** Nothing, or a dash or plus and at least one letter, digit, period or dash. */
  predicate Suffix(tail: string) {
    tail == "" || (tail[0] in {'-', '+'} && |tail| >= 2 && forall i :: 1 <= i < |tail| ==> InSuffix(tail[i]))
  }

  predicate InSuffix(c: char) {
    '0' <= c <= '9' || 'a' <= c <= 'z' || 'A' <= c <= 'Z' || c in {'.', '-'}
  }

  lemma NumbersFit(s: string, major: string, minor: string, patch: string, tail: string)
    requires Written(s, major, minor, patch, tail)
    ensures NumbersAndTail(s) && DigitRun(s) == |major| && s[..|major|] == major
  {
    AfterDigits(major, minor + ("." + (patch + tail)));
    AfterDigits(minor, patch + tail);
    DigitRunOf(patch, tail);
  }

  lemma Peeled(s: string) returns (number: string, rest: string)
    requires AfterNumber(s).Some?
    ensures AllDigits(number) && number != "" && AfterNumber(s) == Some(rest) && s == number + ("." + rest)
  {
    number, rest := s[..DigitRun(s)], AfterNumber(s).value;
  }

  lemma LastPeeled(s: string) returns (number: string, tail: string)
    requires PatchAndTail(s)
    ensures AllDigits(number) && number != "" && Suffix(tail) && s == number + tail
  {
    number, tail := s[..DigitRun(s)], s[DigitRun(s)..];
  }

  lemma TakenApart(s: string) returns (major: string, minor: string, patch: string, tail: string)
    requires NumbersAndTail(s)
    ensures Written(s, major, minor, patch, tail)
  {
    var rest, last;
    major, rest := Peeled(s);
    minor, last := Peeled(rest);
    patch, tail := LastPeeled(last);
  }

  /** Versions are exactly three numbers with periods between, and a suffix. */
  lemma NumbersExactly(s: string)
    ensures NumbersAndTail(s) <==> exists major, minor, patch, tail :: Written(s, major, minor, patch, tail)
  {
    if NumbersAndTail(s) {
      var major, minor, patch, tail := TakenApart(s);
    }
    if major, minor, patch, tail :| Written(s, major, minor, patch, tail) {
      NumbersFit(s, major, minor, patch, tail);
    }
  }

  lemma Ending(s: string, major: string, minor: string, patch: string, tail: string)
    requires Written(s, major, minor, patch, tail)
    ensures s != "" && IsDigit(s[0]) && !IsSpace(s[|s| - 1])
    ensures TrimSpace(s) == s && TrimSpace("v" + s) == "v" + s
  {
    assert s[0] == major[0];
    if tail == "" {
      assert s[|s| - 1] == patch[|patch| - 1];
    } else {
      assert s[|s| - 1] == tail[|tail| - 1];
    }
    TrimTight(s);
    TrimTight("v" + s);
  }

  /** The major of a version is read back, with or without the leading "v", whatever follows it. */
  lemma VersionReads(s: string, major: string, minor: string, patch: string, tail: string)
    requires Written(s, major, minor, patch, tail)
    ensures VersionMajor("v" + s) == VersionMajor(s) ==
            if Eval(0, major) <= MAX_INT then Ok(Eval(0, major)) else Err(VersionTooLarge)
  {
    NumbersFit(s, major, minor, patch, tail);
    Ending(s, major, minor, patch, tail);
    assert ("v" + s)[1..] == s;
  }

  /** A text that is no version is refused as such. */
  lemma NoVersion(version: string)
    ensures VersionMajor(version) == Err(BadVersion) <==>
            !exists major, minor, patch, tail :: Written(Untagged(TrimSpace(version)), major, minor, patch, tail)
  {
    NumbersExactly(Untagged(TrimSpace(version)));
  }
}
