/**
 What a minted token is worth: exactly when the lifetime cap refuses a request, what the
 classifier reads in the token's claims, and exactly when it accepts the token.
 */
module MintLaws {
  import opened Base
  import opened RingModel
  import opened Jwt
  import opened Checks
  import opened VerdictLaws
  import opened TimeValues
  import opened Minting

  /** Issuer and times are left to the issuer; `exp` and everything else are free. */
  predicate Standard(req: Request) {
    "iss" !in req.claims && "iat" !in req.claims && "nbf" !in req.claims
  }

  /** The expiry as the token carries it. */
  function ClaimedExp(d: Draft): Time {
    SecFloor(d.exp)
  }

  ghost predicate DraftedFrom(d: Draft, cfg: Config, req: Request, dates: DateParser) {
    && d.now % SECOND == 0 && AlgRequested(req).Some? && RequestFits(req, d.now, dates)
    && Drafted(cfg, req, d.now, dates) == Ok(d)
  }

  // ----- The cap -----

  /**
   A request is refused for its lifetime exactly when a cap is configured, the cap is below
   the largest duration, and the expiry asked for lies beyond it.
   */
  lemma CapExactly(cfg: Config, req: Request, now: Time, dates: DateParser)
    requires AlgRequested(req).Some? && RequestFits(req, now, dates) && IsDuration(cfg.maxTTL)
    ensures Drafted(cfg, req, now, dates) == Err(TTLTooLong) <==>
            0 < cfg.maxTTL < MAX_DURATION && ExpOf(cfg, req, now, dates) - now > cfg.maxTTL
  {
  }

  /** Under a cap, the token's own expiry is at most the whole seconds of the cap after its start. */
  lemma ClaimedLifetime(d: Draft, cfg: Config, req: Request, dates: DateParser)
    requires DraftedFrom(d, cfg, req, dates) && 0 < cfg.maxTTL < MAX_DURATION
    ensures ClaimedExp(d) <= d.now + SecFloor(cfg.maxTTL)
  {
    CapExactly(cfg, req, d.now, dates);
    SecFloorMonotone(d.exp, d.now + cfg.maxTTL);
    SecFloorShift(d.now, cfg.maxTTL);
  }

  // ----- Reading the claims back -----

  lemma SecondsRead(claims: Fields, name: string, t: Time)
    requires name in claims && claims[name] == Seconds(t)
    ensures NumericDate(claims, name) == Ok(if SecFloor(t) == 0 then None else Some(SecFloor(t)))
  {
    assert t == SECOND * (t / SECOND) + t % SECOND;
  }

  /** Every draft's claims have the shapes the classifier wants. */
  lemma DraftShapes(d: Draft, cfg: Config, req: Request, dates: DateParser)
    requires DraftedFrom(d, cfg, req, dates)
    ensures ShapesFit(d.claims)
    ensures TimeClaim(d.claims, "exp") == if ClaimedExp(d) == 0 then None else Some(ClaimedExp(d))
  {
    SecondsRead(d.claims, "exp", d.exp);
    forall name | name in {"iat", "nbf"} ensures NumericDate(d.claims, name).Ok? {
      if name in req.claims {
        SecondsRead(d.claims, name, ParseTimeValue(req.claims[name], d.now, dates).value);
      } else {
        SecondsRead(d.claims, name, d.now);
      }
    }
    forall name | name in {"iss", "sub", "aud"} && name in d.claims && name in req.claims
      ensures ClaimFits(name, req.claims[name], d.now, dates)
    {
    }
  }

  lemma StandardClaims(d: Draft, cfg: Config, req: Request, dates: DateParser)
    requires DraftedFrom(d, cfg, req, dates) && Standard(req)
    ensures StringClaim(d.claims, "iss") == Ok(cfg.issuer)
    ensures forall name :: name in {"iat", "nbf"} ==>
              TimeClaim(d.claims, name) == if d.now == 0 then None else Some(d.now)
  {
    SecondsRead(d.claims, "iat", d.now);
    SecondsRead(d.claims, "nbf", d.now);
  }

  // ----- Verifying what was minted -----

  /** `q` asks about the token that `key` made from `d`, with the key published and accepted. */
  ghost predicate AsksAbout(q: Input, d: Draft, key: KeyInfo, cfg: Config) {
    && q.token == SignedToken(d, key)
    && key.kid != "" && key.pub.alg == d.alg
    && q.keys.Source? && key.kid in q.keys.keys && q.keys.keys[key.kid].0 == key.pub
    && AlgName(d.alg) in AcceptedAlgs(q)
    && q.expectedIssuer == cfg.issuer && q.audience == [] && q.leeway == 0
  }

  lemma MintedTimeless(q: Input, d: Draft, key: KeyInfo, cfg: Config, req: Request, dates: DateParser)
    requires DraftedFrom(d, cfg, req, dates) && Standard(req) && AsksAbout(q, d, key, cfg)
    ensures TimelessPass(q)
  {
    DraftShapes(d, cfg, req, dates);
    StandardClaims(d, cfg, req, dates);
    assert AlgOf(q) == AlgName(d.alg) && KidOf(q) == key.kid;
    forall c | !Timely(c) ensures Passes(q, c) {
    }
  }

  /**
   A minted token is accepted exactly from its start until its expiry; a start or an expiry
   at the epoch itself reads as absent.
   */
  lemma MintedAccepted(q: Input, d: Draft, key: KeyInfo, cfg: Config, req: Request, dates: DateParser)
    requires DraftedFrom(d, cfg, req, dates) && Standard(req) && AsksAbout(q, d, key, cfg)
    ensures FoundValid(q) <==>
            (d.now == 0 || d.now <= q.now) && (ClaimedExp(d) == 0 || q.now < ClaimedExp(d))
  {
    MintedTimeless(q, d, key, cfg, req, dates);
    DraftShapes(d, cfg, req, dates);
    StandardClaims(d, cfg, req, dates);
    assert q.(now := q.now, leeway := 0) == q;
    AcceptingInterval(q, q.now, 0);
    Consistent(q);
    assert ClaimsOf(q.token) == d.claims;
  }
}
