/**
 The OAuth endpoints around minting and verification (internal/server/server.go): choosing
 algorithm and lifetime, building the claims, and introspection (section 2.2 of RFC 7662).
 */
module OAuth {
  import opened Base
  import opened RingModel
  import opened RingLaws
  import opened Jwt
  import opened Text
  import opened Durations
  import opened TimeValues
  import opened Checks
  import opened VerdictMeaning
  import opened Verifier
  import opened VerdictLaws
  import opened Minting
  import opened MintLaws
  import opened KeySources
  import Views

  // ----- Choosing algorithm and lifetime -----

  /** The algorithm asked for if enabled; by default RS256, or else the first enabled one. */
  function SelectAlgorithm(enabled: seq<string>, raw: string): Option<string> {
    var alg := TrimSpace(raw);
    if alg != "" then (if alg in enabled then Some(alg) else None)
    else if "RS256" in enabled then Some("RS256")
    else if |enabled| > 0 then Some(enabled[0])
    else Some("RS256")
  }

  /** Ok(None) when no lifetime is asked for; an error when it is ill-formed, negative or above the cap. */
  function SelectTTL(maxTTL: int, raw: string): Result<Option<nat>, ()> {
    var text := TrimSpace(raw);
    if text == "" then Ok(None)
    else match ParseDuration(text)
      case None => Err(())
      case Some(ttl) =>
        if ttl < 0 then Err(())
        else if maxTTL > 0 && ttl > maxTTL then Err(())
        else Ok(Some(ttl))
  }

  /** A blank algorithm means RS256 where it is enabled, and else the first enabled one in the fixed order. */
  lemma DefaultAlgorithm(r: Ring, raw: string)
    requires Blank(raw)
    ensures SelectAlgorithm(EnabledNames(r, ALL_ALGORITHMS), raw) ==
            Some(if RS256 in r.enabled then "RS256" else if ES256 in r.enabled then "ES256"
                 else if EdDSA in r.enabled then "EdDSA" else "RS256")
  {
    BlankTrimmed(raw);
    NamesListed(r);
  }

  /** A named algorithm is selected exactly when it is enabled; another name is refused. */
  lemma NamedAlgorithm(r: Ring, before: string, name: string, after: string)
    requires name != "" && !IsSpace(name[0]) && !IsSpace(name[|name| - 1]) && Blank(before) && Blank(after)
    ensures SelectAlgorithm(EnabledNames(r, ALL_ALGORITHMS), before + name + after) ==
            if || (name == "RS256" && RS256 in r.enabled) || (name == "ES256" && ES256 in r.enabled)
               || (name == "EdDSA" && EdDSA in r.enabled)
            then Some(name) else None
  {
    TrimPadded(before, name, after);
    NamesListed(r);
  }

  lemma NamesListed(r: Ring)
    ensures EnabledNames(r, ALL_ALGORITHMS) ==
            (if RS256 in r.enabled then ["RS256"] else []) + (if ES256 in r.enabled then ["ES256"] else [])
            + (if EdDSA in r.enabled then ["EdDSA"] else [])
  {
    assert ALL_ALGORITHMS[1..] == [ES256, EdDSA] && ALL_ALGORITHMS[1..][1..] == [EdDSA];
    assert ALL_ALGORITHMS[1..][1..][1..] == [];
    assert EnabledNames(r, []) == [];
    assert EnabledNames(r, [EdDSA]) == if EdDSA in r.enabled then ["EdDSA"] else [];
  }

  lemma BlankTrimmed(raw: string)
    ensures TrimSpace(raw) == "" <==> Blank(raw)
  {
    TrimLeftBlank(raw);
    TrimRightBlank(TrimLeft(raw));
  }

  // ----- The lifetime asked for -----

  /** The client asks for this lifetime, with any space around, or leaves the field blank. */
  ghost predicate AsksTTL(raw: string, ttl: Option<nat>) {
    match ttl
    case None => Blank(raw)
    case Some(d) =>
      exists before, text, after :: Blank(before) && Blank(after) && Spells(text, d) && raw == before + text + after
  }

  lemma TTLRead(maxTTL: int, raw: string, text: string, d: int)
    requires TrimSpace(raw) == text && text != "" && ParseDuration(text) == Some(d)
    ensures SelectTTL(maxTTL, raw) == if d < 0 || 0 < maxTTL < d then Err(()) else Ok(Some(d))
  {
  }

  /** The lifetime selected is the one asked for, and none when the field is blank; above the cap it is refused. */
  lemma AskedTTL(maxTTL: int, raw: string, ttl: Option<nat>)
    requires AsksTTL(raw, ttl)
    ensures SelectTTL(maxTTL, raw) == if ttl.Some? && 0 < maxTTL < ttl.value then Err(()) else Ok(ttl)
  {
    match ttl
    case None =>
      BlankTrimmed(raw);
    case Some(d) =>
      var before, text, after :| Blank(before) && Blank(after) && Spells(text, d) && raw == before + text + after;
      SpellingMeasures(text, d);
      SpelledTTL(maxTTL, before, text, after, d);
  }

  lemma SpelledTTL(maxTTL: int, before: string, text: string, after: string, d: nat)
    requires Blank(before) && Blank(after) && Measures(text, d) && d <= MAX_DURATION
    ensures SelectTTL(maxTTL, before + text + after) == if 0 < maxTTL < d then Err(()) else Ok(Some(d))
  {
    TrimPadded(before, text, after);
    MeasureReads(text, d);
    TTLRead(maxTTL, before + text + after, text, d);
  }

  /** A negative lifetime is refused. */
  lemma NegativeTTL(maxTTL: int, before: string, text: string, after: string, d: nat)
    requires Blank(before) && Blank(after) && Spells(text, d) && d > 0
    ensures SelectTTL(maxTTL, before + ("-" + text) + after) == Err(())
  {
    SpellingMeasures(text, d);
    MinusTTL(maxTTL, before, text, after, d);
  }

  lemma MinusTTL(maxTTL: int, before: string, text: string, after: string, d: nat)
    requires Blank(before) && Blank(after) && Measures(text, d) && 0 < d <= MAX_DURATION
    ensures SelectTTL(maxTTL, before + ("-" + text) + after) == Err(())
  {
    TrimPadded(before, "-" + text, after);
    MeasureReads(text, d);
    TTLRead(maxTTL, before + ("-" + text) + after, "-" + text, 0 - d);
  }

  datatype Client = Client(id: string, jti: string, scope: string)

  /** The claims say who the client is and, where given, its scope, the audience and the lifetime as text. */
  ghost predicate Carries(claims: Fields, client: Client, audience: string, lifetime: Option<string>) {
    && claims.Keys == {"sub", "client_id", "jti"} + (if client.scope != "" then {"scope"} else {})
                      + (if audience != "" then {"aud"} else {}) + (if lifetime.Some? then {"exp"} else {})
    && claims["sub"] == claims["client_id"] == Str(client.id) && claims["jti"] == Str(client.jti)
    && (client.scope != "" ==> claims["scope"] == Str(client.scope))
    && (audience != "" ==> claims["aud"] == Str(audience))
    && (lifetime.Some? ==> claims["exp"] == Str(lifetime.value))
  }

  /** A lifetime as the endpoint hands it to the factory. */
  function Printed(ttl: Option<nat>): Option<string> {
    if ttl.Some? then Some(Format(ttl.value)) else None
  }

  /** The factory accepts the claims as they are, leaves issuer and start to itself, and reads the lifetime back. */
  ghost predicate Mintable(claims: Fields, ttl: Option<nat>, now: Time, dates: DateParser) {
    && (forall name :: name in claims ==> ClaimFits(name, claims[name], now, dates))
    && "iss" !in claims && "iat" !in claims && "nbf" !in claims && ("exp" in claims <==> ttl.Some?)
    && (ttl.Some? ==> ParseTimeValue(claims["exp"], now, dates) == Some(now + ttl.value))
  }

  /** The claims of a client-credentials token, whenever and however they are minted afterwards. */
  method BuildClaims(client: Client, audience: string, ttl: Option<nat>) returns (claims: Fields)
    requires ttl.Some? ==> ttl.value <= MAX_DURATION
    ensures Carries(claims, client, audience, Printed(ttl))
    ensures forall now, dates :: Mintable(claims, ttl, now, dates)
  {
    claims := map["sub" := Str(client.id), "client_id" := Str(client.id), "jti" := Str(client.jti)];
    if client.scope != "" {
      claims := claims["scope" := Str(client.scope)];
    }
    if audience != "" {
      claims := claims["aud" := Str(audience)];
    }
    if ttl.Some? {
      claims := claims["exp" := Str(Format(ttl.value))];
    }
    forall now, dates ensures Mintable(claims, ttl, now, dates) {
      CarriedIsMintable(claims, client, audience, ttl, now, dates);
    }
  }

  // ----- The lifetime round trip -----

  /** Whenever it is read, the text means this long from then. */
  ghost predicate ReadsAs(text: string, ttl: nat) {
    forall now, dates :: ParseTimeValue(Str(text), now, dates) == Some(now + ttl)
  }

  /** Printing a lifetime and reading it back while minting gives the lifetime. */
  lemma TTLRoundTrip(ttl: nat)
    requires ttl <= MAX_DURATION
    ensures ReadsAs(Format(ttl), ttl)
  {
    PrintedMeasures(ttl);
    forall now, dates ensures ParseTimeValue(Str(Format(ttl)), now, dates) == Some(now + ttl) {
      AfterTime(Format(ttl), ttl, now, dates);
    }
  }

  lemma CarriedIsMintable(claims: Fields, client: Client, audience: string, ttl: Option<nat>, now: Time,
                          dates: DateParser)
    requires Carries(claims, client, audience, Printed(ttl)) && (ttl.Some? ==> ttl.value <= MAX_DURATION)
    ensures Mintable(claims, ttl, now, dates)
  {
    if ttl.Some? {
      TTLRoundTrip(ttl.value);
    }
    TextIsMintable(claims, client, audience, Printed(ttl), ttl, now, dates);
  }

  lemma TextIsMintable(claims: Fields, client: Client, audience: string, text: Option<string>, ttl: Option<nat>,
                       now: Time, dates: DateParser)
    requires Carries(claims, client, audience, text) && (text.Some? <==> ttl.Some?)
    requires ttl.Some? ==> ReadsAs(text.value, ttl.value)
    ensures Mintable(claims, ttl, now, dates)
  {
    forall name | name in claims ensures ClaimFits(name, claims[name], now, dates) {
      if name != "exp" {
        assert name in {"sub", "client_id", "jti", "scope", "aud"} && claims[name].Str?;
      }
    }
  }

  lemma AcceptedTTL(maxTTL: int, raw: string)
    ensures SelectTTL(maxTTL, raw).Ok? && SelectTTL(maxTTL, raw).value.Some? ==>
              var ttl := SelectTTL(maxTTL, raw).value.value;
              ttl <= MAX_DURATION && (maxTTL > 0 ==> ttl <= maxTTL)
  {
    ParsedIsDuration(TrimSpace(raw));
  }

  /** The lifetime of the token: the one asked for, or the default. */
  function Lifetime(cfg: Config, ttl: Option<nat>): int {
    if ttl.Some? then ttl.value else cfg.defaultTTL
  }

  /** A standard request for a token of this lifetime. */
  ghost predicate Asks(cfg: Config, req: Request, life: int, now: Time, dates: DateParser) {
    && IsDuration(life) && AlgRequested(req).Some? && RequestFits(req, now, dates) && Standard(req)
    && ExpOf(cfg, req, now, dates) == now + life
  }

  lemma GrantAsks(cfg: Config, claims: Fields, alg: string, ttl: Option<nat>, now: Time, dates: DateParser)
    requires AlgNamed(alg).Some? && Mintable(claims, ttl, now, dates) && IsDuration(Lifetime(cfg, ttl))
    ensures Asks(cfg, Request(claims, alg), Lifetime(cfg, ttl), now, dates)
    ensures AlgRequested(Request(claims, alg)) == AlgNamed(alg)
  {
  }

  predicate WithinCap(cfg: Config, life: int) {
    cfg.maxTTL > 0 ==> life <= cfg.maxTTL
  }

  /** What a request leads to: the exact expiry, and `expires_in` within half a second. */
  ghost predicate GrantedExactly(cfg: Config, req: Request, life: int, now: Time, dates: DateParser, key: KeyInfo) {
    && AlgRequested(req).Some? && RequestFits(req, now, dates) && Drafted(cfg, req, now, dates).Ok?
    && var d := Drafted(cfg, req, now, dates).value;
    && d.now == now && d.exp == now + life && Some(d.alg) == AlgRequested(req)
    && 2 * life - SECOND <= 2 * SECOND * Finish(d, key).expiresIn <= 2 * life + SECOND
    && (life % SECOND == 0 ==> SECOND * Finish(d, key).expiresIn == life)
  }

  ghost predicate RefusedForLifetime(cfg: Config, req: Request, now: Time, dates: DateParser) {
    AlgRequested(req).Some? && RequestFits(req, now, dates) && Drafted(cfg, req, now, dates) == Err(TTLTooLong)
  }

  lemma AskedIsGranted(cfg: Config, req: Request, life: int, now: Time, dates: DateParser, key: KeyInfo)
    requires Asks(cfg, req, life, now, dates)
    ensures WithinCap(cfg, life) ==> GrantedExactly(cfg, req, life, now, dates, key)
    ensures RefusedForLifetime(cfg, req, now, dates) <==> !WithinCap(cfg, life)
  {
    RoundedWithinHalf(life);
    assert Sub(now + life, now) == life;
  }

  /**
   For a selected lifetime: refused exactly when it is the default and the default exceeds the
   cap. Otherwise the draft expires exactly the lifetime after its start, and `expires_in` is
   within half a second of it, exact for whole seconds.
   */
  lemma SelectedDrafted(cfg: Config, claims: Fields, client: Client, audience: string, alg: string, rawTTL: string,
                        ttl: Option<nat>, now: Time, dates: DateParser, key: KeyInfo)
    requires AlgNamed(alg).Some? && IsDuration(cfg.defaultTTL)
    requires SelectTTL(cfg.maxTTL, rawTTL) == Ok(ttl) && Carries(claims, client, audience, Printed(ttl))
    ensures RefusedForLifetime(cfg, Request(claims, alg), now, dates) <==> ttl.None? && 0 < cfg.maxTTL < cfg.defaultTTL
    ensures ttl.Some? || !(0 < cfg.maxTTL < cfg.defaultTTL) ==>
              GrantedExactly(cfg, Request(claims, alg), Lifetime(cfg, ttl), now, dates, key)
  {
    AcceptedTTL(cfg.maxTTL, rawTTL);
    CarriedIsMintable(claims, client, audience, ttl, now, dates);
    GrantAsks(cfg, claims, alg, ttl, now, dates);
    AskedIsGranted(cfg, Request(claims, alg), Lifetime(cfg, ttl), now, dates, key);
  }

  /**
   A client that asks for a lifetime gets exactly that one, and the default if it asks for
   none, unless it is above the cap: then the request is refused, the lifetime asked for when
   it is read and the default when it is minted.
   */
  lemma GrantDrafted(cfg: Config, claims: Fields, client: Client, audience: string, alg: string, rawTTL: string,
                     asked: Option<nat>, now: Time, dates: DateParser, key: KeyInfo)
    requires AlgNamed(alg).Some? && IsDuration(cfg.defaultTTL)
    requires AsksTTL(rawTTL, asked) && Carries(claims, client, audience, Printed(asked))
    ensures SelectTTL(cfg.maxTTL, rawTTL) == Err(()) <==> asked.Some? && 0 < cfg.maxTTL < asked.value
    ensures SelectTTL(cfg.maxTTL, rawTTL).Ok? ==> SelectTTL(cfg.maxTTL, rawTTL).value == asked
    ensures RefusedForLifetime(cfg, Request(claims, alg), now, dates) <== asked.None? && 0 < cfg.maxTTL < cfg.defaultTTL
    ensures !(0 < cfg.maxTTL < Lifetime(cfg, asked)) ==>
              GrantedExactly(cfg, Request(claims, alg), Lifetime(cfg, asked), now, dates, key)
  {
    AskedTTL(cfg.maxTTL, rawTTL, asked);
    if SelectTTL(cfg.maxTTL, rawTTL).Ok? {
      SelectedDrafted(cfg, claims, client, audience, alg, rawTTL, asked, now, dates, key);
    }
  }

  // ----- The algorithm -----

  lemma EnabledAlgNamed(r: Ring, name: string) returns (alg: Algorithm)
    requires name in EnabledNames(r, ALL_ALGORITHMS)
    ensures alg in r.enabled && AlgName(alg) == name && AlgNamed(name) == Some(alg)
  {
    EnabledNamed(r, ALL_ALGORITHMS, name);
    alg :| alg in ALL_ALGORITHMS && alg in r.enabled && AlgName(alg) == name;
  }

  lemma SomeEnabled(r: Ring)
    requires Sound(r)
    ensures EnabledNames(r, ALL_ALGORITHMS) != []
  {
    var alg :| alg in r.enabled;
    Listed(alg);
    EnabledNamed(r, ALL_ALGORITHMS, AlgName(alg));
  }

  /** Whatever algorithm is selected, a sound ring signs with it and the classifier accepts it. */
  lemma SelectedAlgorithmWorks(r: Ring, raw: string) returns (alg: Algorithm)
    requires Sound(r) && SelectAlgorithm(EnabledNames(r, ALL_ALGORITHMS), raw).Some?
    ensures SelectAlgorithm(EnabledNames(r, ALL_ALGORITHMS), raw) == Some(AlgName(alg))
    ensures AlgNamed(AlgName(alg)) == Some(alg)
    ensures Signer(r, alg).Ok? && Signer(r, alg).value == KeyAt(r, Signing(alg))
    ensures AlgName(alg) in RingSource(r).algs
  {
    SomeEnabled(r);
    alg := EnabledAlgNamed(r, SelectAlgorithm(EnabledNames(r, ALL_ALGORITHMS), raw).value);
  }

  /** The token minted for `req` is accepted by the ring `r` at the time `at`. */
  ghost predicate GrantAccepted(r: Ring, cfg: Config, req: Request, now: Time, dates: DateParser, at: Time) {
    && AlgRequested(req).Some? && RequestFits(req, now, dates) && Drafted(cfg, req, now, dates).Ok?
    && var d := Drafted(cfg, req, now, dates).value;
    && Signer(r, d.alg).Ok?
    && FoundValid(Input(SignedToken(d, Signer(r, d.alg).value), RingSource(r), cfg.issuer, [], [], 0, at))
  }

  lemma ActiveKeyVerifies(r: Ring, cfg: Config, req: Request, d: Draft, dates: DateParser, at: Time)
    requires Sound(r) && DraftedFrom(d, cfg, req, dates) && Standard(req)
    requires d.alg in r.active && AlgName(d.alg) in RingSource(r).algs && d.now <= at < ClaimedExp(d)
    ensures FoundValid(Input(SignedToken(d, r.active[d.alg]), RingSource(r), cfg.issuer, [], [], 0, at))
  {
    var key := r.active[d.alg];
    var q := Input(SignedToken(d, key), RingSource(r), cfg.issuer, [], [], 0, at);
    assert KeyFits(r, Signing(d.alg));
    WhereIsAt(r, Signing(d.alg));
    RingSourceLooksUp(r, key.kid);
    assert AsksAbout(q, d, key, cfg);
    MintedAccepted(q, d, key, cfg, req, dates);
  }

  lemma AskedVerifies(r: Ring, cfg: Config, req: Request, alg: Algorithm, life: int, now: Time, dates: DateParser,
                      at: Time)
    requires Sound(r) && now % SECOND == 0 && alg in r.active && AlgName(alg) in RingSource(r).algs
    requires Asks(cfg, req, life, now, dates) && WithinCap(cfg, life) && AlgRequested(req) == Some(alg)
    requires now <= at < SecFloor(now + life)
    ensures GrantAccepted(r, cfg, req, now, dates, at)
  {
    AskedIsGranted(cfg, req, life, now, dates, r.active[alg]);
    var d := Drafted(cfg, req, now, dates).value;
    ActiveKeyVerifies(r, cfg, req, d, dates, at);
  }

  /**
   Unless it is refused for the default lifetime, the live ring accepts the token of a selected
   lifetime at every time from its start until its own expiry.
   */
  lemma SelectedVerifies(r: Ring, cfg: Config, claims: Fields, client: Client, audience: string, rawAlg: string,
                         alg: Algorithm, rawTTL: string, ttl: Option<nat>, now: Time, dates: DateParser, at: Time)
    requires Sound(r) && now % SECOND == 0 && IsDuration(cfg.defaultTTL)
    requires SelectAlgorithm(EnabledNames(r, ALL_ALGORITHMS), rawAlg) == Some(AlgName(alg))
    requires SelectTTL(cfg.maxTTL, rawTTL) == Ok(ttl) && Carries(claims, client, audience, Printed(ttl))
    requires now <= at < SecFloor(now + Lifetime(cfg, ttl))
    ensures GrantAccepted(r, cfg, Request(claims, AlgName(alg)), now, dates, at)
            || (ttl.None? && RefusedForLifetime(cfg, Request(claims, AlgName(alg)), now, dates))
  {
    AcceptedTTL(cfg.maxTTL, rawTTL);
    CarriedIsMintable(claims, client, audience, ttl, now, dates);
    var selected := SelectedAlgorithmWorks(r, rawAlg);
    MintableVerifies(r, cfg, claims, alg, ttl, now, dates, at);
  }

  /**
   End to end, from what the client asks for: within the cap, the live ring accepts the token
   at every time from its start until the lifetime asked for, or the default, has passed.
   */
  lemma GrantVerifies(r: Ring, cfg: Config, claims: Fields, client: Client, audience: string, rawAlg: string,
                      alg: Algorithm, rawTTL: string, asked: Option<nat>, now: Time, dates: DateParser, at: Time)
    requires Sound(r) && now % SECOND == 0 && IsDuration(cfg.defaultTTL)
    requires SelectAlgorithm(EnabledNames(r, ALL_ALGORITHMS), rawAlg) == Some(AlgName(alg))
    requires AsksTTL(rawTTL, asked) && Carries(claims, client, audience, Printed(asked))
    requires WithinCap(cfg, Lifetime(cfg, asked)) && now <= at < SecFloor(now + Lifetime(cfg, asked))
    ensures GrantAccepted(r, cfg, Request(claims, AlgName(alg)), now, dates, at)
  {
    AskedTTL(cfg.maxTTL, rawTTL, asked);
    AcceptedTTL(cfg.maxTTL, rawTTL);
    CarriedIsMintable(claims, client, audience, asked, now, dates);
    var selected := SelectedAlgorithmWorks(r, rawAlg);
    MintableVerifies(r, cfg, claims, alg, asked, now, dates, at);
  }

  lemma MintableVerifies(r: Ring, cfg: Config, claims: Fields, alg: Algorithm, ttl: Option<nat>,
                         now: Time, dates: DateParser, at: Time)
    requires Sound(r) && now % SECOND == 0 && Mintable(claims, ttl, now, dates) && IsDuration(Lifetime(cfg, ttl))
    requires ttl.Some? ==> WithinCap(cfg, ttl.value)
    requires alg in r.active && AlgName(alg) in RingSource(r).algs && AlgNamed(AlgName(alg)) == Some(alg)
    requires now <= at < SecFloor(now + Lifetime(cfg, ttl))
    ensures WithinCap(cfg, Lifetime(cfg, ttl)) ==>
              GrantAccepted(r, cfg, Request(claims, AlgName(alg)), now, dates, at)
    ensures GrantAccepted(r, cfg, Request(claims, AlgName(alg)), now, dates, at)
            || (ttl.None? && RefusedForLifetime(cfg, Request(claims, AlgName(alg)), now, dates))
  {
    var req, life := Request(claims, AlgName(alg)), Lifetime(cfg, ttl);
    GrantAsks(cfg, claims, AlgName(alg), ttl, now, dates);
    AskedOutcome(r, cfg, req, alg, life, now, dates, at);
  }

  lemma AskedOutcome(r: Ring, cfg: Config, req: Request, alg: Algorithm, life: int, now: Time, dates: DateParser,
                     at: Time)
    requires Sound(r) && now % SECOND == 0 && alg in r.active && AlgName(alg) in RingSource(r).algs
    requires Asks(cfg, req, life, now, dates) && AlgRequested(req) == Some(alg) && now <= at < SecFloor(now + life)
    ensures WithinCap(cfg, life) ==> GrantAccepted(r, cfg, req, now, dates, at)
    ensures !WithinCap(cfg, life) ==> RefusedForLifetime(cfg, req, now, dates)
  {
    AskedIsGranted(cfg, req, life, now, dates, r.active[alg]);
    if WithinCap(cfg, life) {
      AskedVerifies(r, cfg, req, alg, life, now, dates, at);
    }
  }

  // ----- Introspection -----

  /** The introspection response to a verdict; None when verification itself failed. */
  method Introspect(out: Outcome) returns (response: Option<Fields>)
    requires out.Judged? && out.verdict.valid ==> out.verdict.claims.Some?
    ensures response == Introspection(out)
  {
    if out.Failed? {
      return None;
    }
    if !out.verdict.valid {
      return Some(map["active" := Bool(false)]);
    }
    var fields := CopyFields(out.verdict.claims.value);
    fields := fields["active" := Bool(true)];
    fields := fields["token_type" := Str("Bearer")];
    return Some(fields);
  }

  function Introspection(out: Outcome): Option<Fields>
    requires out.Judged? && out.verdict.valid ==> out.verdict.claims.Some?
  {
    if out.Failed? then None
    else if !out.verdict.valid then Some(map["active" := Bool(false)])
    else Some(out.verdict.claims.value["active" := Bool(true)]["token_type" := Str("Bearer")])
  }

  /**
   Introspection asks for the server's issuer, with no audience and no leeway, and says active
   exactly when the token is authentic, in time and from that issuer. An active response
   carries the signed claims, with `active` and `token_type` overridden; an inactive one
   carries nothing of the token, whatever it claims about itself.
   */
  lemma IntrospectionExactly(token: Token, keys: KeySource, issuer: string, now: Time)
    ensures var q := Input(token, keys, issuer, [], [], 0, now);
            var out := Reference(q);
            && (out.Judged? && out.verdict.valid ==> out.verdict.claims.Some?)
            && var response := Introspection(out);
            && (response.None? <==> out.Failed?)
            && (response.Some? ==>
                  "active" in response.value && (response.value["active"] == Bool(true) <==> FromIssuer(q)))
            && (response.Some? && !FromIssuer(q) ==> response.value == map["active" := Bool(false)])
            && (FromIssuer(q) ==>
                  && response.Some? && response.value.Keys == ClaimsOf(token).Keys + {"active", "token_type"}
                  && response.value["token_type"] == Str("Bearer")
                  && forall name :: name in ClaimsOf(token) && name !in {"active", "token_type"} ==>
                       response.value[name] == ClaimsOf(token)[name])
  {
    var q := Input(token, keys, issuer, [], [], 0, now);
    LastRead(q);
    Consistent(q);
    if Reference(q).Judged? {
      LabelsExactly(q);
    }
  }
}
