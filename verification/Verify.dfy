/**
 The verification classifier's early-return chain (internal/verify/verify.go), proved to
 report the first failing check and to classify every token by what is in the input.
 */
module Verifier {
  import opened Base
  import opened RingModel
  import opened Jwt
  import opened Checks
  import opened VerdictMeaning

  /** The call's own input: a zero time means the clock, a negative leeway none. */
  function Resolved(q: Input, clock: Time): Input {
    q.(now := if q.now == ZERO_TIME then clock else q.now, leeway := if q.leeway < 0 then 0 else q.leeway)
  }

  /** Copies a header entry by entry, in any order. */
  method CopyFields(from: Fields) returns (copy: Fields)
    ensures copy == from
  {
    copy := map[];
    var todo := from.Keys;
    while todo != {}
      invariant todo <= from.Keys && copy.Keys == from.Keys - todo
      invariant forall name :: name in copy ==> copy[name] == from[name]
      decreases todo
    {
      var name :| name in todo;
      copy := copy[name := from[name]];
      todo := todo - {name};
    }
  }

  method AnyAudienceMatches(expected: seq<string>, actual: seq<string>) returns (found: bool)
    ensures found <==> exists a :: a in expected && a in actual
  {
    for i := 0 to |expected|
      invariant forall j :: 0 <= j < i ==> expected[j] !in actual
    {
      if expected[i] in actual {
        return true;
      }
    }
    return false;
  }

  function OrEmpty(s: Option<string>): string {
    if s.Some? then s.value else ""
  }

  method Verify(given: Input, clock: Time) returns (out: Outcome)
    ensures out == Reference(Resolved(given, clock))
    ensures var now := if given.now == ZERO_TIME then clock else given.now;
            var leeway := if given.leeway > 0 then given.leeway else 0;
            var q := given.(now := now, leeway := leeway);
            Classifies(out, q) && Shows(out, q) && Explains(out, q)
  {
    var q := Resolved(given, clock);
    ReferenceClassifies(q);
    ReferenceShows(q);
    out := Judge(q);
  }

  /** The chain from the diagnostic pass to the choice of algorithms. */
  method Judge(q: Input) returns (out: Outcome)
    ensures out == Reference(q)
  {
    // The diagnostic pass.
    if q.token.Unreadable? {
      ReferenceIs(q, Structure);
      return Invalid(MalformedToken, ParserSays, EMPTY_VERDICT);
    }
    var claims := q.token.claims;
    var header := CopyFields(q.token.header);
    var algField := StringHeader(header, "alg");
    var kidField := StringHeader(header, "kid");
    if algField.None? || algField.value !in REGISTERED {
      var alg := OrEmpty(algField);
      ReferenceIs(q, Registered);
      return Invalid(BadAlg, if alg != "" then AlgNotAccepted(alg) else NoUsableAlg,
                     BaseVerdict(header, claims, alg, OrEmpty(kidField)));
    }
    if !ShapesFit(claims) {
      ReferenceIs(q, Shapes);
      return Invalid(MalformedToken, ParserSays, EMPTY_VERDICT);
    }
    assert PassedBelow(q, 3);

    // The algorithm.
    var alg := algField.value;
    var allowed := q.allowedAlgs;
    if |allowed| == 0 {
      if q.keys.NoSource? {
        ReferenceIs(q, AlgSource);
        return Failed(NoKeySource);
      }
      allowed := q.keys.Algorithms();
    }
    if alg !in allowed {
      ReferenceIs(q, Accepted);
      return Invalid(BadAlg, AlgNotAccepted(alg), BaseVerdict(header, claims, alg, ""));
    }
    assert PassedBelow(q, 5);

    out := JudgeKey(q, header, claims, alg, kidField);
  }

  /** The chain from the key lookup to the signature, once the algorithm is accepted. */
  method JudgeKey(q: Input, header: Fields, claims: Fields, alg: string, kidField: Option<string>)
    returns (out: Outcome)
    requires PassedBelow(q, 5) && header == HeaderOf(q.token) && claims == ClaimsOf(q.token)
    requires alg == AlgOf(q) && kidField == StringHeader(header, "kid")
    ensures out == Reference(q)
  {
    assert Passes(q, Structure);
    if kidField.None? || kidField.value == "" {
      ReferenceIs(q, KidNamed);
      return Invalid(BadKid, NoKid, BaseVerdict(header, claims, alg, ""));
    }
    var kid := kidField.value;
    if q.keys.NoSource? {
      ReferenceIs(q, KidSource);
      return Failed(NoKeySource);
    }
    var base := BaseVerdict(header, claims, alg, kid);
    if q.keys.NilRing? {
      ReferenceIs(q, LookupWorks);
      return Failed(LookupFailed);
    }
    if kid !in q.keys.keys {
      ReferenceIs(q, KidKnown);
      return Invalid(BadKid, NoKeyFor(kid), base.(status := Some(Unknown)));
    }
    var (key, status) := q.keys.keys[kid];
    base := base.(status := Some(status));
    assert PassedBelow(q, 9);
    if q.token.signature.Undecodable? {
      ReferenceIs(q, SignatureReadable);
      return Failed(SignaturePassFailed);
    }
    if !SignatureVerifies(q.token, alg, key) {
      ReferenceIs(q, SignatureGood);
      return Invalid(BadSignature, SignatureDoesNotVerify, base);
    }
    assert PassedBelow(q, 11);
    out := JudgeClaims(q, AuthenticatedVerdict(header, claims, alg, kid, status), claims);
  }

  /** The rest of the chain, on a claim set the signature vouches for. */
  method JudgeClaims(q: Input, base: Verdict, claims: Fields) returns (out: Outcome)
    requires PassedBelow(q, 11) && claims == ClaimsOf(q.token)
    requires KeyKnown(q) && base == Authenticated(q)
    ensures out == Reference(q)
  {
    assert Passes(q, Shapes);
    if Ended(TimeClaim(claims, "exp"), q.now, q.leeway) {
      ReferenceIs(q, Unexpired);
      return Invalid(Expired, IsExpired, base);
    }
    if Ahead(TimeClaim(claims, "nbf"), q.now, q.leeway) {
      ReferenceIs(q, Started);
      return Invalid(NotYetValid, IsNotValidYet, base);
    }
    if Ahead(TimeClaim(claims, "iat"), q.now, q.leeway) {
      ReferenceIs(q, Issued);
      return Invalid(NotYetValid, UsedBeforeIssued, base);
    }
    assert PassedBelow(q, 14);
    if q.expectedIssuer != "" {
      var issuer := StringClaim(claims, "iss").value;
      if issuer != q.expectedIssuer {
        ReferenceIs(q, IssuerMatches);
        return Invalid(BadIssuer, if issuer != "" then IssuerMismatch(issuer, q.expectedIssuer) else NoIssuer, base);
      }
    }
    if |q.audience| > 0 {
      var found := AnyAudienceMatches(q.audience, AudienceClaim(claims).value);
      if !found {
        ReferenceIs(q, AudienceMatches);
        return Invalid(BadAudience, AudienceMismatch, base);
      }
    }
    assert AllPass(q);
    return Judged(base.(valid := true));
  }
}
