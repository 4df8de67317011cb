/**
 What the verification classifier reports (internal/verify/verify.go): independent checks on
 a token, ranked in a fixed order, and the report of the first that fails.
 */
module Checks {
  import opened Base
  import opened RingModel
  import opened Jwt

  datatype Reason = MalformedToken | BadAlg | BadKid | BadSignature | Expired | NotYetValid | BadIssuer | BadAudience

  /** The documented precedence of the reasons. */
  const REASONS: seq<Reason> :=
    [MalformedToken, BadAlg, BadKid, BadSignature, Expired, NotYetValid, BadIssuer, BadAudience]

  datatype Message =
    | NoMessage
    | ParserSays
    | NoUsableAlg
    | AlgNotAccepted(alg: string)
    | NoKid
    | NoKeyFor(kid: string)
    | SignatureDoesNotVerify
    | IsExpired
    | IsNotValidYet
    | UsedBeforeIssued
    | NoIssuer
    | IssuerMismatch(actual: string, expected: string)
    | AudienceMismatch

  datatype Verdict = Verdict(
    valid: bool,
    reason: Option<Reason>,
    message: Message,
    header: Option<Fields>,
    claims: Option<Fields>,
    unverified: Option<Fields>,
    alg: string,
    kid: string,
    status: Option<KeyStatus>)

  /** Failures outside the closed reason set. */
  datatype OpError = NoKeySource | LookupFailed | SignaturePassFailed

  datatype Outcome = Judged(verdict: Verdict) | Failed(error: OpError)

  /** No source, an adapter without a ring, or a table of published keys. */
  datatype KeySource =
    | NoSource
    | NilRing
    | Source(keys: map<string, (PublicKey, KeyStatus)>, algs: seq<string>)
  {
    function Algorithms(): seq<string> {
      if Source? then algs else []
    }
  }

  datatype Input = Input(
    token: Token,
    keys: KeySource,
    expectedIssuer: string,
    allowedAlgs: seq<string>,
    audience: seq<string>,
    leeway: int,
    now: Time)

  // ----- The checks -----

  datatype Check =
    | Structure | Registered | Shapes | AlgSource | Accepted
    | KidNamed | KidSource | LookupWorks | KidKnown
    | SignatureReadable | SignatureGood
    | Unexpired | Started | Issued | IssuerMatches | AudienceMatches

  function AlgOf(q: Input): string {
    match StringHeader(HeaderOf(q.token), "alg")
    case Some(alg) => alg
    case None => ""
  }

  function KidOf(q: Input): string {
    match StringHeader(HeaderOf(q.token), "kid")
    case Some(kid) => kid
    case None => ""
  }

  function AcceptedAlgs(q: Input): seq<string> {
    if q.allowedAlgs == [] then q.keys.Algorithms() else q.allowedAlgs
  }

  predicate KeyKnown(q: Input) {
    q.keys.Source? && KidOf(q) in q.keys.keys
  }

  predicate ShapesFit(claims: Fields) {
    && NumericDate(claims, "exp").Ok? && NumericDate(claims, "nbf").Ok? && NumericDate(claims, "iat").Ok?
    && AudienceClaim(claims).Ok? && StringClaim(claims, "iss").Ok? && StringClaim(claims, "sub").Ok?
  }

  function IssuerOf(q: Input): string {
    match StringClaim(ClaimsOf(q.token), "iss")
    case Ok(s) => s
    case Err(_) => ""
  }

  ghost predicate AudienceFits(q: Input) {
    AudienceClaim(ClaimsOf(q.token)).Ok? ==>
      exists a :: a in q.audience && a in AudienceClaim(ClaimsOf(q.token)).value
  }

  /** The instant has passed, leeway included. */
  predicate Ended(t: Option<Time>, now: Time, leeway: int) {
    t.Some? && now >= t.value + leeway
  }

  /** The instant is still to come, leeway included. */
  predicate Ahead(t: Option<Time>, now: Time, leeway: int) {
    t.Some? && now < t.value - leeway
  }

  /** Each check on its own, whatever the others say. */
  ghost predicate Passes(q: Input, c: Check) {
    var claims := ClaimsOf(q.token);
    match c
    case Structure => q.token.Compact?
    case Registered => q.token.Compact? ==> AlgOf(q) in REGISTERED
    case Shapes => ShapesFit(claims)
    case AlgSource => q.allowedAlgs == [] ==> q.keys != NoSource
    case Accepted => AlgOf(q) in AcceptedAlgs(q)
    case KidNamed => KidOf(q) != ""
    case KidSource => q.keys != NoSource
    case LookupWorks => q.keys != NilRing
    case KidKnown => KeyKnown(q)
    case SignatureReadable => q.token.Compact? ==> q.token.signature != Undecodable
    case SignatureGood => KeyKnown(q) ==> SignatureVerifies(q.token, AlgOf(q), q.keys.keys[KidOf(q)].0)
    case Unexpired => !Ended(TimeClaim(claims, "exp"), q.now, q.leeway)
    case Started => !Ahead(TimeClaim(claims, "nbf"), q.now, q.leeway)
    case Issued => !Ahead(TimeClaim(claims, "iat"), q.now, q.leeway)
    case IssuerMatches => q.expectedIssuer == "" || IssuerOf(q) == q.expectedIssuer
    case AudienceMatches => q.audience == [] || AudienceFits(q)
  }

  const EMPTY_VERDICT := Verdict(false, None, NoMessage, None, None, None, "", "", None)

  /** A verdict on a token whose signature has not been verified. */
  function BaseVerdict(header: Fields, claims: Fields, alg: string, kid: string): Verdict {
    EMPTY_VERDICT.(header := Some(header), unverified := Some(claims), alg := alg, kid := kid)
  }

  function AuthenticatedVerdict(header: Fields, claims: Fields, alg: string, kid: string, status: KeyStatus): Verdict {
    EMPTY_VERDICT.(header := Some(header), claims := Some(claims), alg := alg, kid := kid, status := Some(status))
  }

  function Invalid(reason: Reason, message: Message, v: Verdict): Outcome {
    Judged(v.(valid := false, reason := Some(reason), message := message))
  }

  function Unauthenticated(q: Input, alg: string, kid: string): Verdict {
    BaseVerdict(HeaderOf(q.token), ClaimsOf(q.token), alg, kid)
  }

  function Authenticated(q: Input): Verdict
    requires KeyKnown(q)
  {
    AuthenticatedVerdict(HeaderOf(q.token), ClaimsOf(q.token), AlgOf(q), KidOf(q), q.keys.keys[KidOf(q)].1)
  }

  /** What is reported when `c` is the first check to fail. */
  function Report(q: Input, c: Check): Outcome
    requires CheckRank(c) > CheckRank(KidKnown) ==> KeyKnown(q)
  {
    match c
    case Structure => Invalid(MalformedToken, ParserSays, EMPTY_VERDICT)
    case Registered =>
      Invalid(BadAlg, if AlgOf(q) == "" then NoUsableAlg else AlgNotAccepted(AlgOf(q)),
              Unauthenticated(q, AlgOf(q), KidOf(q)))
    case Shapes => Invalid(MalformedToken, ParserSays, EMPTY_VERDICT)
    case AlgSource => Failed(NoKeySource)
    case Accepted => Invalid(BadAlg, AlgNotAccepted(AlgOf(q)), Unauthenticated(q, AlgOf(q), ""))
    case KidNamed => Invalid(BadKid, NoKid, Unauthenticated(q, AlgOf(q), ""))
    case KidSource => Failed(NoKeySource)
    case LookupWorks => Failed(LookupFailed)
    case KidKnown =>
      Invalid(BadKid, NoKeyFor(KidOf(q)), Unauthenticated(q, AlgOf(q), KidOf(q)).(status := Some(Unknown)))
    case SignatureReadable => Failed(SignaturePassFailed)
    case SignatureGood =>
      Invalid(BadSignature, SignatureDoesNotVerify,
              Unauthenticated(q, AlgOf(q), KidOf(q)).(status := Some(q.keys.keys[KidOf(q)].1)))
    case Unexpired => Invalid(Expired, IsExpired, Authenticated(q))
    case Started => Invalid(NotYetValid, IsNotValidYet, Authenticated(q))
    case Issued => Invalid(NotYetValid, UsedBeforeIssued, Authenticated(q))
    case IssuerMatches =>
      Invalid(BadIssuer, if IssuerOf(q) == "" then NoIssuer else IssuerMismatch(IssuerOf(q), q.expectedIssuer),
              Authenticated(q))
    case AudienceMatches => Invalid(BadAudience, AudienceMismatch, Authenticated(q))
  }

  function CheckRank(c: Check): nat {
    match c
    case Structure => 0
    case Registered => 1
    case Shapes => 2
    case AlgSource => 3
    case Accepted => 4
    case KidNamed => 5
    case KidSource => 6
    case LookupWorks => 7
    case KidKnown => 8
    case SignatureReadable => 9
    case SignatureGood => 10
    case Unexpired => 11
    case Started => 12
    case Issued => 13
    case IssuerMatches => 14
    case AudienceMatches => 15
  }

  /** `c` fails and every check ranked before it passes. */
  ghost predicate FirstFailing(q: Input, c: Check) {
    !Passes(q, c) && forall d :: CheckRank(d) < CheckRank(c) ==> Passes(q, d)
  }

  ghost predicate AllPass(q: Input) {
    forall c :: Passes(q, c)
  }

  lemma {:induction false} LeastFailing(q: Input, c: Check)
    requires !Passes(q, c)
    ensures exists d :: FirstFailing(q, d)
    decreases CheckRank(c)
  {
    if !FirstFailing(q, c) {
      var d :| CheckRank(d) < CheckRank(c) && !Passes(q, d);
      LeastFailing(q, d);
    }
  }

  /** The classifier's contract: the report of the first failing check, or a valid verdict. */
  ghost function Reference(q: Input): Outcome {
    if AllPass(q) then
      assert Passes(q, KidKnown);
      Judged(Authenticated(q).(valid := true))
    else
      var failing :| !Passes(q, failing);
      LeastFailing(q, failing);
      var c :| FirstFailing(q, c);
      assert CheckRank(c) > CheckRank(KidKnown) ==> Passes(q, KidKnown);
      Report(q, c)
  }

  lemma ReferenceIs(q: Input, c: Check)
    requires FirstFailing(q, c)
    ensures CheckRank(c) > CheckRank(KidKnown) ==> KeyKnown(q)
    ensures Reference(q) == Report(q, c)
  {
    assert CheckRank(c) > CheckRank(KidKnown) ==> Passes(q, KidKnown);
    forall d | FirstFailing(q, d) ensures d == c {
      assert CheckRank(d) == CheckRank(c);
    }
  }

  /** Every check ranked below `n` passes. */
  ghost predicate PassedBelow(q: Input, n: nat) {
    forall c :: CheckRank(c) < n ==> Passes(q, c)
  }
}
