/**
 Shared vocabulary: optional and fallible results, signing algorithms, and time.

 A `Time` is an integer number of nanoseconds since the Unix epoch. A Go
 `time.Duration` is a 64-bit number of nanoseconds, and `time.Time.Sub` saturates
 at both ends of that range, which `Sub` reproduces.
 */
module Base {
  datatype Option<+T> = None | Some(value: T)

  datatype Result<+T, +E> = Ok(value: T) | Err(error: E)

  datatype Algorithm = RS256 | ES256 | EdDSA

  const ALL_ALGORITHMS: seq<Algorithm> := [RS256, ES256, EdDSA]

  function AlgName(alg: Algorithm): string {
    match alg
    case RS256 => "RS256"
    case ES256 => "ES256"
    case EdDSA => "EdDSA"
  }

  type Time = int

  const SECOND: int := 1_000_000_000
  const MIN_DURATION: int := -0x8000_0000_0000_0000
  const MAX_DURATION: int := 0x7fff_ffff_ffff_ffff

  /** Midnight of 1 January of year 1, the instant `time.Time.IsZero` recognises. */
  const ZERO_TIME: Time := -62_135_596_800 * SECOND

  predicate IsDuration(d: int) {
    MIN_DURATION <= d <= MAX_DURATION
  }

  /** `t.Sub(u)`: the difference, clamped to what a `time.Duration` can hold. */
  function Sub(t: Time, u: Time): (d: int)
    ensures IsDuration(d)
    ensures IsDuration(t - u) ==> d == t - u
  {
    if t - u > MAX_DURATION then MAX_DURATION
    else if t - u < MIN_DURATION then MIN_DURATION
    else t - u
  }

  /** The largest whole number of seconds not after `t`, in nanoseconds. */
  function SecFloor(t: int): (f: int)
    ensures f % SECOND == 0
    ensures f <= t < f + SECOND
  {
    t - t % SECOND
  }

  lemma SecFloorShift(whole: int, d: int)
    requires whole % SECOND == 0
    ensures SecFloor(whole + d) == whole + SecFloor(d)
  {
    assert whole == SECOND * (whole / SECOND);
    assert SecFloor(d) == SECOND * (d / SECOND);
  }

  lemma SecFloorMonotone(a: int, b: int)
    requires a <= b
    ensures SecFloor(a) <= SecFloor(b)
  {
    assert SecFloor(a) == SECOND * (a / SECOND);
    assert SecFloor(b) == SECOND * (b / SECOND);
  }
}
