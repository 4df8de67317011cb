/**
 The same outcomes read off the input: for each verdict and each failure, what must hold of
 the token's own fields, the keys and the caller's policy. Nothing here uses the checks but
 the proofs, which show that reporting the first failing check comes to the same.
 */
module VerdictMeaning {
  import opened Base
  import opened RingModel
  import opened Jwt
  import opened Checks

  /** The text of a header field, empty unless it is a string. */
  function HeaderText(t: Token, name: string): string {
    if t.Compact? && name in t.header && t.header[name].Str? then t.header[name].s else ""
  }

  /** A registered claim is of the wrong kind. */
  ghost predicate IllShaped(claims: Fields) {
    || (exists name :: name in {"exp", "nbf", "iat"} && name in claims && !claims[name].Num?)
    || (exists name :: name in {"iss", "sub"} && name in claims && !claims[name].Str?)
    || ("aud" in claims && claims["aud"].Arr? && exists item :: item in claims["aud"].items && !item.Str?)
  }

  /** The methods that can verify under a key of each kind. */
  function Methods(kind: Algorithm): set<string> {
    match kind
    case RS256 => {"RS256", "RS384", "RS512", "PS256", "PS384", "PS512"}
    case ES256 => {"ES256"}
    case EdDSA => {"EdDSA"}
  }

  /** The whole second of a time claim has come, with the margin; a zero counts as no claim. */
  predicate Come(claims: Fields, name: string, now: Time, margin: int) {
    name in claims && claims[name].Num? && claims[name].r != 0.0
    && claims[name].r.Floor * 1_000_000_000 + margin <= now
  }

  predicate ToCome(claims: Fields, name: string, now: Time, margin: int) {
    name in claims && claims[name].Num? && claims[name].r != 0.0
    && now < claims[name].r.Floor * 1_000_000_000 - margin
  }

  /** Three decodable segments, a registered algorithm, claims of the right kinds. */
  ghost predicate Decoded(q: Input) {
    q.token.Compact? && HeaderText(q.token, "alg") in REGISTERED && !IllShaped(q.token.claims)
  }

  /** The algorithm is one the caller allows or, when it names none, one the source advertises. */
  ghost predicate AlgTaken(q: Input) {
    && Decoded(q)
    && var alg := HeaderText(q.token, "alg");
    if q.allowedAlgs == [] then q.keys.Source? && alg in q.keys.algs else alg in q.allowedAlgs
  }

  ghost predicate KeyFound(q: Input) {
    && AlgTaken(q) && q.keys.Source?
    && HeaderText(q.token, "kid") != "" && HeaderText(q.token, "kid") in q.keys.keys
  }

  /** The key under the kid signed this header and these claims, by a method of its kind. */
  ghost predicate Authentic(q: Input) {
    && KeyFound(q)
    && var key := q.keys.keys[HeaderText(q.token, "kid")].0;
    q.token.signature == Over(Signed(key, q.token.header, q.token.claims))
    && HeaderText(q.token, "alg") in Methods(key.alg)
  }

  /** Authentic and, with the leeway, neither expired nor still to start. */
  ghost predicate InTime(q: Input) {
    && Authentic(q) && !Come(q.token.claims, "exp", q.now, q.leeway)
    && !ToCome(q.token.claims, "nbf", q.now, q.leeway) && !ToCome(q.token.claims, "iat", q.now, q.leeway)
  }

  /** In time and, when an issuer is expected, from exactly that one. */
  ghost predicate FromIssuer(q: Input) {
    && InTime(q)
    && (q.expectedIssuer != "" ==> "iss" in q.token.claims && q.token.claims["iss"] == Str(q.expectedIssuer))
  }

  predicate Addresses(aud: Json, a: string) {
    aud == Str(a) || (aud.Arr? && Str(a) in aud.items)
  }

  /** From the issuer and, when audiences are expected, naming one of them, alone or in a list. */
  ghost predicate ForAudience(q: Input) {
    && FromIssuer(q)
    && (q.audience != [] ==>
          "aud" in q.token.claims && exists a :: a in q.audience && Addresses(q.token.claims["aud"], a))
  }

  predicate Blames(out: Outcome, reason: Reason) {
    out.Judged? && out.verdict.reason == Some(reason)
  }

  /** How a token fares whose signature is good: by time, issuer and audience. */
  ghost predicate ClassifiesGenuine(out: Outcome, q: Input) {
    && (out.Judged? && out.verdict.valid <==> ForAudience(q))
    && (Blames(out, BadAudience) <==> FromIssuer(q) && !ForAudience(q))
    && (Blames(out, BadIssuer) <==> InTime(q) && !FromIssuer(q))
    && (Blames(out, NotYetValid) <==> Authentic(q) && !Come(q.token.claims, "exp", q.now, q.leeway) && !InTime(q))
    && (Blames(out, Expired) <==> Authentic(q) && Come(q.token.claims, "exp", q.now, q.leeway))
  }

  /** How a token fares whose algorithm is accepted: by its key and its signature. */
  ghost predicate ClassifiesKeyed(out: Outcome, q: Input) {
    var kid := HeaderText(q.token, "kid");
    && (Blames(out, BadSignature) <==> KeyFound(q) && !Authentic(q) && q.token.signature != Undecodable)
    && (Blames(out, BadKid) <==> AlgTaken(q) && (kid == "" || (q.keys.Source? && kid !in q.keys.keys)))
    && (out == Failed(SignaturePassFailed) <==> KeyFound(q) && q.token.signature == Undecodable)
    && (out == Failed(LookupFailed) <==> AlgTaken(q) && kid != "" && q.keys.NilRing?)
  }

  /** How the others fare. */
  ghost predicate ClassifiesOther(out: Outcome, q: Input) {
    var alg, kid := HeaderText(q.token, "alg"), HeaderText(q.token, "kid");
    && (Blames(out, BadAlg) <==>
          && q.token.Compact?
          && (alg in REGISTERED ==> Decoded(q) && !AlgTaken(q) && !(q.allowedAlgs == [] && q.keys.NoSource?)))
    && (Blames(out, MalformedToken) <==>
          q.token.Unreadable? || (alg in REGISTERED && IllShaped(q.token.claims)))
    && (out == Failed(NoKeySource) <==>
          Decoded(q) && q.keys.NoSource? && (q.allowedAlgs == [] || (AlgTaken(q) && kid != "")))
  }

  /**
   The outcome in terms of the input: valid exactly when nothing is wrong, and each reason and
   each operational failure exactly when it is the first thing wrong.
   */
  ghost predicate Classifies(out: Outcome, q: Input) {
    ClassifiesGenuine(out, q) && ClassifiesKeyed(out, q) && ClassifiesOther(out, q)
  }

  lemma ShapesRead(claims: Fields)
    ensures ShapesFit(claims) <==> !IllShaped(claims)
  {
    if "aud" in claims && claims["aud"].Arr? {
      var items := claims["aud"].items;
      assert AllStrings(items) <==> forall item :: item in items ==> item.Str?;
    }
    if ShapesFit(claims) {
      assert !IllShaped(claims);
    } else {
      assert NumericDate(claims, "exp").Err? || NumericDate(claims, "nbf").Err? || NumericDate(claims, "iat").Err?
             || StringClaim(claims, "iss").Err? || StringClaim(claims, "sub").Err? || AudienceClaim(claims).Err?;
    }
  }

  lemma TimesRead(claims: Fields, name: string, now: Time, margin: int)
    requires NumericDate(claims, name).Ok?
    ensures Ended(TimeClaim(claims, name), now, margin) <==> Come(claims, name, now, margin)
    ensures Ahead(TimeClaim(claims, name), now, margin) <==> ToCome(claims, name, now, margin)
  {
  }

  lemma AudienceRead(q: Input)
    requires q.token.Compact? && AudienceClaim(q.token.claims).Ok?
    ensures AudienceFits(q) <==>
            "aud" in q.token.claims && exists a :: a in q.audience && Addresses(q.token.claims["aud"], a)
  {
    if "aud" in q.token.claims {
      forall a ensures a in AudienceClaim(q.token.claims).value <==> Addresses(q.token.claims["aud"], a) {
        AddressRead(q.token.claims, a);
      }
    }
  }

  lemma AddressRead(claims: Fields, a: string)
    requires "aud" in claims && AudienceClaim(claims).Ok?
    ensures a in AudienceClaim(claims).value <==> Addresses(claims["aud"], a)
  {
    var aud, read := claims["aud"], AudienceClaim(claims).value;
    if aud.Arr? {
      if a in read {
        var i :| 0 <= i < |read| && read[i] == a;
        assert aud.items[i] == Str(a);
      }
      if Str(a) in aud.items {
        var i :| 0 <= i < |aud.items| && aud.items[i] == Str(a);
        assert read[i] == a;
      }
    }
  }

  lemma HeadersRead(q: Input)
    ensures AlgOf(q) == HeaderText(q.token, "alg") && KidOf(q) == HeaderText(q.token, "kid")
  {
  }

  lemma EarlyRead(q: Input)
    ensures Decoded(q) <==> PassedBelow(q, 3)
    ensures AlgTaken(q) <==> PassedBelow(q, 5)
    ensures KeyFound(q) <==> PassedBelow(q, 9)
    ensures Authentic(q) <==> PassedBelow(q, 11)
  {
    HeadersRead(q);
    ShapesRead(ClaimsOf(q.token));
    assert PassedBelow(q, 3) <==> Passes(q, Structure) && Passes(q, Registered) && Passes(q, Shapes);
    assert PassedBelow(q, 5) <==> PassedBelow(q, 3) && Passes(q, AlgSource) && Passes(q, Accepted);
    assert PassedBelow(q, 9) <==>
           PassedBelow(q, 5) && Passes(q, KidNamed) && Passes(q, KidSource) && Passes(q, LookupWorks)
           && Passes(q, KidKnown);
    assert PassedBelow(q, 11) <==> PassedBelow(q, 9) && Passes(q, SignatureReadable) && Passes(q, SignatureGood);
  }

  lemma TimelyRead(q: Input)
    requires q.token.Compact? && ShapesFit(q.token.claims)
    ensures Passes(q, Unexpired) <==> !Come(q.token.claims, "exp", q.now, q.leeway)
    ensures Passes(q, Started) <==> !ToCome(q.token.claims, "nbf", q.now, q.leeway)
    ensures Passes(q, Issued) <==> !ToCome(q.token.claims, "iat", q.now, q.leeway)
  {
    TimesRead(q.token.claims, "exp", q.now, q.leeway);
    TimesRead(q.token.claims, "nbf", q.now, q.leeway);
    TimesRead(q.token.claims, "iat", q.now, q.leeway);
  }

  lemma IssuerRead(q: Input)
    requires q.token.Compact? && ShapesFit(q.token.claims)
    ensures Passes(q, IssuerMatches) <==>
            (q.expectedIssuer != "" ==> "iss" in q.token.claims && q.token.claims["iss"] == Str(q.expectedIssuer))
  {
  }

  lemma LateRead(q: Input)
    requires q.token.Compact? && PassedBelow(q, 11)
    ensures !Come(q.token.claims, "exp", q.now, q.leeway) <==> PassedBelow(q, 12)
    ensures InTime(q) <==> PassedBelow(q, 14)
    ensures FromIssuer(q) <==> PassedBelow(q, 15)
  {
    EarlyRead(q);
    assert Passes(q, Shapes);
    TimelyRead(q);
    IssuerRead(q);
    assert PassedBelow(q, 12) <==> Passes(q, Unexpired);
    assert PassedBelow(q, 14) <==> PassedBelow(q, 12) && Passes(q, Started) && Passes(q, Issued);
    assert PassedBelow(q, 15) <==> PassedBelow(q, 14) && Passes(q, IssuerMatches);
  }

  lemma LastRead(q: Input)
    ensures ForAudience(q) <==> AllPass(q)
  {
    EarlyRead(q);
    if PassedBelow(q, 11) {
      assert Passes(q, Structure) && Passes(q, Shapes);
      LateRead(q);
      AudienceRead(q);
      assert AllPass(q) <==> PassedBelow(q, 15) && Passes(q, AudienceMatches);
    }
  }

  lemma ReportsGenuine(q: Input, c: Check)
    requires FirstFailing(q, c) && (CheckRank(c) > CheckRank(KidKnown) ==> KeyKnown(q))
    ensures ClassifiesGenuine(Report(q, c), q)
  {
    EarlyRead(q);
    LastRead(q);
    assert forall n: nat :: n > CheckRank(c) ==> !PassedBelow(q, n);
    assert forall n: nat :: n <= CheckRank(c) ==> PassedBelow(q, n);
    if CheckRank(c) >= 11 {
      assert Passes(q, Structure);
      LateRead(q);
    }
  }

  lemma ReportsKeyed(q: Input, c: Check)
    requires FirstFailing(q, c) && (CheckRank(c) > CheckRank(KidKnown) ==> KeyKnown(q))
    ensures ClassifiesKeyed(Report(q, c), q)
  {
    EarlyRead(q);
    HeadersRead(q);
    assert forall n: nat :: n > CheckRank(c) ==> !PassedBelow(q, n);
    assert forall n: nat :: n <= CheckRank(c) ==> PassedBelow(q, n);
    assert CheckRank(c) > 0 ==> Passes(q, Structure);
    assert CheckRank(c) > 5 ==> Passes(q, KidNamed);
    assert CheckRank(c) > 7 ==> Passes(q, KidSource) && Passes(q, LookupWorks);
    assert CheckRank(c) > 9 ==> Passes(q, SignatureReadable);
  }

  lemma ReportsOther(q: Input, c: Check)
    requires FirstFailing(q, c) && (CheckRank(c) > CheckRank(KidKnown) ==> KeyKnown(q))
    ensures ClassifiesOther(Report(q, c), q)
  {
    EarlyRead(q);
    HeadersRead(q);
    ShapesRead(ClaimsOf(q.token));
    assert forall n: nat :: n > CheckRank(c) ==> !PassedBelow(q, n);
    assert forall n: nat :: n <= CheckRank(c) ==> PassedBelow(q, n);
    assert CheckRank(c) > 0 ==> Passes(q, Structure);
    assert CheckRank(c) > 1 ==> Passes(q, Registered);
    assert CheckRank(c) > 2 ==> Passes(q, Shapes);
    assert CheckRank(c) > 3 ==> Passes(q, AlgSource);
    assert CheckRank(c) > 5 ==> Passes(q, KidNamed);
    assert CheckRank(c) > 6 ==> Passes(q, KidSource);
  }

  /** The reference definition classifies by what is in the input. */
  lemma ReferenceClassifies(q: Input)
    ensures Classifies(Reference(q), q)
  {
    if AllPass(q) {
      LastRead(q);
      EarlyRead(q);
      assert Passes(q, Structure);
      LateRead(q);
      assert Passes(q, Registered) && Passes(q, Shapes);
      ShapesRead(ClaimsOf(q.token));
      HeadersRead(q);
      assert Passes(q, KidNamed) && Passes(q, SignatureReadable);
    } else {
      var failing :| !Passes(q, failing);
      LeastFailing(q, failing);
      var c :| FirstFailing(q, c);
      ReferenceIs(q, c);
      ReportsGenuine(q, c);
      ReportsKeyed(q, c);
      ReportsOther(q, c);
    }
  }

  // ----- What a verdict shows -----

  /** Each reason comes with its message, and a valid verdict with none. */
  ghost predicate Explains(out: Outcome, q: Input) {
    out.Judged? ==>
      var message, claims := out.verdict.message, ClaimsOf(q.token);
      var alg, kid := HeaderText(q.token, "alg"), HeaderText(q.token, "kid");
      && (out.verdict.valid <==> out.verdict.reason.None?)
      && match out.verdict.reason
         case None => message == NoMessage
         case Some(MalformedToken) => message == ParserSays
         case Some(BadAlg) => message == if alg == "" then NoUsableAlg else AlgNotAccepted(alg)
         case Some(BadKid) => message == if kid == "" then NoKid else NoKeyFor(kid)
         case Some(BadSignature) => message == SignatureDoesNotVerify
         case Some(Expired) => message == IsExpired
         case Some(NotYetValid) =>
           message == if ToCome(claims, "nbf", q.now, q.leeway) then IsNotValidYet else UsedBeforeIssued
         case Some(BadIssuer) =>
           if "iss" in claims && claims["iss"] != Str("") then
             claims["iss"].Str? && message == IssuerMismatch(claims["iss"].s, q.expectedIssuer)
           else message == NoIssuer
         case Some(BadAudience) => message == AudienceMismatch
  }

  /**
   A malformed token shows nothing. Any other verdict shows the token's header, its claims, as
   authenticated or as unverified, its `alg` and its `kid`, except that there is no `kid` when
   a registered algorithm is not accepted. The status is the source's answer.
   */
  ghost predicate Shows(out: Outcome, q: Input) {
    out.Judged? ==>
      var v, kid := out.verdict, HeaderText(q.token, "kid");
      if v.reason == Some(MalformedToken) then
        v.header.None? && v.claims.None? && v.unverified.None? && v.alg == v.kid == "" && v.status.None?
      else
        && q.token.Compact? && v.header == Some(q.token.header) && v.alg == HeaderText(q.token, "alg")
        && v.kid == (if v.reason == Some(BadAlg) && v.alg in REGISTERED then "" else kid)
        && v.claims == (if Authentic(q) then Some(q.token.claims) else None)
        && v.unverified == (if Authentic(q) then None else Some(q.token.claims))
        && v.status == if v.reason == Some(BadAlg) || kid == "" || !q.keys.Source? then None
                       else if kid in q.keys.keys then Some(q.keys.keys[kid].1) else Some(Unknown)
  }

  lemma ReportShows(q: Input, c: Check)
    requires FirstFailing(q, c) && (CheckRank(c) > CheckRank(KidKnown) ==> KeyKnown(q))
    ensures Shows(Report(q, c), q)
  {
    EarlyRead(q);
    HeadersRead(q);
    assert Authentic(q) <==> CheckRank(c) >= 11 by {
      assert !PassedBelow(q, CheckRank(c) + 1);
    }
    assert CheckRank(c) > 0 ==> Passes(q, Structure);
    assert CheckRank(c) > 1 ==> Passes(q, Registered);
    assert CheckRank(c) > 5 ==> Passes(q, KidNamed);
    assert CheckRank(c) > 7 ==> Passes(q, KidSource) && Passes(q, LookupWorks);
  }

  lemma EarlyExplained(q: Input, c: Check)
    requires FirstFailing(q, c) && CheckRank(c) < 11 && (CheckRank(c) > CheckRank(KidKnown) ==> KeyKnown(q))
    ensures Explains(Report(q, c), q)
  {
    HeadersRead(q);
    assert CheckRank(c) > 1 ==> Passes(q, Registered);
    assert CheckRank(c) > 0 ==> Passes(q, Structure);
    assert CheckRank(c) > 5 ==> Passes(q, KidNamed);
  }

  lemma LateExplained(q: Input, c: Check)
    requires FirstFailing(q, c) && CheckRank(c) >= 11 && KeyKnown(q)
    ensures Explains(Report(q, c), q)
  {
    assert Passes(q, Structure) && Passes(q, Shapes);
    TimelyRead(q);
    assert c == Issued ==> Passes(q, Started);
  }

  /** The reference definition shows and explains what is in the input. */
  lemma ReferenceShows(q: Input)
    ensures Shows(Reference(q), q) && Explains(Reference(q), q)
  {
    if AllPass(q) {
      EarlyRead(q);
      HeadersRead(q);
      assert Passes(q, Structure) && Passes(q, KidNamed) && Passes(q, KidKnown);
    } else {
      var failing :| !Passes(q, failing);
      LeastFailing(q, failing);
      var c :| FirstFailing(q, c);
      ReferenceIs(q, c);
      ReportShows(q, c);
      if CheckRank(c) < 11 {
        EarlyExplained(q, c);
      } else {
        LateExplained(q, c);
      }
    }
  }
}
