/**
 The client-credentials endpoint as a whole (internal/server/server.go): from the form fields
 to the signed token, and what the client can count on.
 */
module TokenEndpoint {
  import opened Base
  import opened RingModel
  import opened Jwt
  import opened Checks
  import opened VerdictLaws
  import opened KeySources
  import opened Durations
  import opened TimeValues
  import opened Minting
  import opened MintLaws
  import opened OAuth

  datatype Refusal = AlgRefused | TTLRefused | MintRefused(error: MintError)

  /** Who the client is, with scope and audience where there are any. */
  ghost predicate Describes(claims: Fields, cfg: Config, client: Client, audience: string) {
    && claims.Keys == {"sub", "client_id", "jti", "exp", "iat", "nbf"} + (if client.scope != "" then {"scope"} else {})
                      + (if audience != "" then {"aud"} else {}) + (if cfg.issuer != "" then {"iss"} else {})
    && claims["sub"] == claims["client_id"] == Str(client.id) && claims["jti"] == Str(client.jti)
    && (client.scope != "" ==> claims["scope"] == Str(client.scope))
    && (audience != "" ==> claims["aud"] == Arr([Str(audience)]))
    && (cfg.issuer != "" ==> claims["iss"] == Str(cfg.issuer))
  }

  /** The token starts now and ends when `life` has passed. */
  ghost predicate Lasts(resp: Response, life: int, now: Time) {
    && resp.token.Compact? && {"exp", "iat", "nbf"} <= resp.token.claims.Keys
    && InSecond(resp.token.claims["exp"], now + life) && Rounds(resp.expiresIn, life)
    && InSecond(resp.token.claims["iat"], now) && InSecond(resp.token.claims["nbf"], now)
  }

  /** The issuer accepts the token, for no particular audience, until `life` has passed. */
  ghost predicate Works(token: Token, cfg: Config, ring: Ring, life: int, now: Time) {
    forall at :: now <= at < SecFloor(now + life) ==>
      FoundValid(Input(token, RingSource(ring), cfg.issuer, [], [], 0, at))
  }

  /** What comes of a request for the lifetime `asked`, or for none. */
  ghost predicate Outcome(r: Result<Response, Refusal>, cfg: Config, ring: Ring, client: Client, audience: string,
                          rawAlg: string, asked: Option<nat>, signs: bool, now: Time) {
    var life := if asked.Some? then asked.value else cfg.defaultTTL;
    if SelectAlgorithm(EnabledNames(ring, ALL_ALGORITHMS), rawAlg).None? then r == Err(AlgRefused)
    else if 0 < cfg.maxTTL < life then r == Err(if asked.Some? then TTLRefused else MintRefused(TTLTooLong))
    else if !signs then r == Err(MintRefused(SigningFailed))
    else r.Ok? && r.value.token.Compact? && Describes(r.value.token.claims, cfg, client, audience)
         && Lasts(r.value, life, now) && Works(r.value.token, cfg, ring, life, now)
  }

  /** The endpoint, when no rotation comes between its steps. */
  method ClientCredentials(cfg: Config, ring: Ring, client: Client, audience: string, rawAlg: string, rawTTL: string,
                           clock: Time, signs: bool, dates: DateParser)
    returns (r: Result<Response, Refusal>)
    requires Sound(ring) && IsDuration(cfg.defaultTTL)
    ensures forall asked :: AsksTTL(rawTTL, asked) ==>
              Outcome(r, cfg, ring, client, audience, rawAlg, asked, signs, SecFloor(clock))
  {
    var name := SelectAlgorithm(EnabledNames(ring, ALL_ALGORITHMS), rawAlg);
    if name.None? {
      return Err(AlgRefused);
    }
    var ttl := SelectTTL(cfg.maxTTL, rawTTL);
    SelectsAsAsked(cfg.maxTTL, rawTTL, ttl);
    if ttl.Err? {
      return Err(TTLRefused);
    }
    AcceptedTTL(cfg.maxTTL, rawTTL);
    var claims := BuildClaims(client, audience, ttl.value);
    var minted := Mint(cfg, Request(claims, name.value), clock, ring, signs, dates);
    r := if minted.Ok? then Ok(minted.value) else Err(MintRefused(minted.error));
    ghost var alg := SelectedAlgorithmWorks(ring, rawAlg);
    GrantMints(cfg, claims, alg, ttl.value, SecFloor(clock), ring, signs, dates);
    if minted.Ok? {
      Granted(minted.value, cfg, ring, client, audience, claims, alg, ttl.value, SecFloor(clock), dates);
    }
  }

  lemma SelectsAsAsked(maxTTL: int, rawTTL: string, ttl: Result<Option<nat>, ()>)
    requires ttl == SelectTTL(maxTTL, rawTTL)
    ensures forall asked :: AsksTTL(rawTTL, asked) ==>
              ttl == if asked.Some? && 0 < maxTTL < asked.value then Err(()) else Ok(asked)
  {
    forall asked | AsksTTL(rawTTL, asked)
      ensures ttl == if asked.Some? && 0 < maxTTL < asked.value then Err(()) else Ok(asked)
    {
      AskedTTL(maxTTL, rawTTL, asked);
    }
  }

  /** A token is minted for the claims of the endpoint exactly when the lifetime is within the cap and signing works. */
  lemma GrantMints(cfg: Config, claims: Fields, alg: Algorithm, ttl: Option<nat>, now: Time, ring: Ring, signs: bool,
                   dates: DateParser)
    requires AlgNamed(AlgName(alg)) == Some(alg) && alg in ring.enabled && alg in ring.active
    requires Mintable(claims, ttl, now, dates) && IsDuration(Lifetime(cfg, ttl))
    ensures var req := Request(claims, AlgName(alg));
            && (Mints(cfg, req, now, ring, signs, dates) <==> WithinCap(cfg, Lifetime(cfg, ttl)) && signs)
            && forall e :: Refuses(e, cfg, req, now, ring, dates) ==>
                 e == if WithinCap(cfg, Lifetime(cfg, ttl)) then SigningFailed else TTLTooLong
  {
    GrantAsks(cfg, claims, AlgName(alg), ttl, now, dates);
    assert Sub(now + Lifetime(cfg, ttl), now) == Lifetime(cfg, ttl);
  }

  lemma KeySets(scope: bool, aud: bool, exp: bool, iss: bool)
    ensures {"sub", "client_id", "jti"} + (if scope then {"scope"} else {}) + (if aud then {"aud"} else {})
            + (if exp then {"exp"} else {}) + {"exp", "iat", "nbf"} + (if iss then {"iss"} else {})
            == {"sub", "client_id", "jti", "exp", "iat", "nbf"} + (if scope then {"scope"} else {})
               + (if aud then {"aud"} else {}) + (if iss then {"iss"} else {})
  {
  }

  lemma Described(claims: Fields, cfg: Config, req: Request, client: Client, audience: string, lifetime: Option<string>,
                  now: Time)
    requires Carries(req.claims, client, audience, lifetime)
    requires KeepsClaims(claims, req) && AddsDefaults(claims, cfg, req, now)
    ensures Describes(claims, cfg, client, audience)
  {
    KeySets(client.scope != "", audience != "", lifetime.Some?, cfg.issuer != "");
    assert "sub" in req.claims && "client_id" in req.claims && "jti" in req.claims && "iss" !in req.claims;
  }

  /** A printed lifetime is one of the documented forms. */
  lemma PrintedTime(req: Request, ttl: nat, now: Time, dates: DateParser) returns (w: Written)
    requires ttl <= MAX_DURATION && "exp" in req.claims && req.claims["exp"] == Str(Format(ttl))
    ensures WritesTime(req, "exp", w, dates) && Meant(w, now, dates) == Some(now + ttl)
  {
    w := After(Format(ttl), ttl);
    assert LengthText(Exact(ttl)) == Format(ttl);
  }

  lemma EndsAsWritten(resp: Response, cfg: Config, req: Request, w: Written, life: int, now: Time, ring: Ring,
                      dates: DateParser)
    requires WritesTime(req, "exp", w, dates) && Meant(w, now, dates) == Some(now + life) && IsDuration(life)
    requires "iat" !in req.claims && "nbf" !in req.claims && Honours(resp, cfg, req, now, ring, dates)
    ensures Lasts(resp, life, now)
  {
  }

  lemma EndsByDefault(resp: Response, cfg: Config, req: Request, now: Time, ring: Ring, dates: DateParser)
    requires "exp" !in req.claims && IsDuration(cfg.defaultTTL)
    requires "iat" !in req.claims && "nbf" !in req.claims && Honours(resp, cfg, req, now, ring, dates)
    ensures Lasts(resp, cfg.defaultTTL, now)
  {
  }

  lemma Ends(resp: Response, cfg: Config, req: Request, ttl: Option<nat>, now: Time, ring: Ring, dates: DateParser)
    requires "exp" in req.claims <==> ttl.Some?
    requires ttl.Some? ==> ttl.value <= MAX_DURATION && req.claims["exp"] == Str(Format(ttl.value))
    requires "iat" !in req.claims && "nbf" !in req.claims && IsDuration(Lifetime(cfg, ttl))
    requires Honours(resp, cfg, req, now, ring, dates)
    ensures Lasts(resp, Lifetime(cfg, ttl), now)
  {
    if ttl.Some? {
      var w := PrintedTime(req, ttl.value, now, dates);
      EndsAsWritten(resp, cfg, req, w, ttl.value, now, ring, dates);
    } else {
      EndsByDefault(resp, cfg, req, now, ring, dates);
    }
  }

  /** An algorithm the ring signs with and accepts. */
  ghost predicate Chosen(ring: Ring, alg: Algorithm) {
    && Sound(ring) && alg in ring.active && AlgName(alg) in RingSource(ring).algs
    && AlgNamed(AlgName(alg)) == Some(alg) && Signer(ring, alg) == Ok(ring.active[alg])
  }

  lemma AcceptedThroughout(resp: Response, cfg: Config, ring: Ring, claims: Fields, alg: Algorithm, ttl: Option<nat>,
                           now: Time, dates: DateParser)
    requires Chosen(ring, alg) && now % SECOND == 0
    requires Mintable(claims, ttl, now, dates)
    requires IsDuration(Lifetime(cfg, ttl)) && WithinCap(cfg, Lifetime(cfg, ttl))
    requires IsFinished(resp, cfg, Request(claims, AlgName(alg)), now, ring, dates)
    ensures Works(resp.token, cfg, ring, Lifetime(cfg, ttl), now)
  {
    forall at | now <= at < SecFloor(now + Lifetime(cfg, ttl))
      ensures FoundValid(Input(resp.token, RingSource(ring), cfg.issuer, [], [], 0, at))
    {
      MintableVerifies(ring, cfg, claims, alg, ttl, now, dates, at);
    }
  }

  lemma Granted(resp: Response, cfg: Config, ring: Ring, client: Client, audience: string, claims: Fields,
                alg: Algorithm, ttl: Option<nat>, now: Time, dates: DateParser)
    requires Chosen(ring, alg) && now % SECOND == 0
    requires Carries(claims, client, audience, Printed(ttl)) && Mintable(claims, ttl, now, dates)
    requires ttl.Some? ==> ttl.value <= MAX_DURATION
    requires IsDuration(Lifetime(cfg, ttl)) && WithinCap(cfg, Lifetime(cfg, ttl))
    requires Honours(resp, cfg, Request(claims, AlgName(alg)), now, ring, dates)
    requires IsFinished(resp, cfg, Request(claims, AlgName(alg)), now, ring, dates)
    ensures Describes(resp.token.claims, cfg, client, audience) && Lasts(resp, Lifetime(cfg, ttl), now)
    ensures Works(resp.token, cfg, ring, Lifetime(cfg, ttl), now)
  {
    var req := Request(claims, AlgName(alg));
    Described(resp.token.claims, cfg, req, client, audience, Printed(ttl), now);
    Ends(resp, cfg, req, ttl, now, ring, dates);
    AcceptedThroughout(resp, cfg, ring, claims, alg, ttl, now, dates);
  }
}
