/**
 Minting (internal/tokenfactory/factory.go). `Begin` is the part of `Mint` up to the
 choice of a signer: it reads the clock, fills in the claims and applies the lifetime cap.
 `Finish` signs. Between the two the ring may rotate.
 */
module Minting {
  import opened Base
  import opened RingModel
  import opened Jwt
  import opened TimeValues

  datatype Config = Config(issuer: string, defaultTTL: int, maxTTL: int)

  datatype Request = Request(claims: Fields, alg: string)

  datatype MintError = UnsupportedAlgorithm | InvalidRequest(claim: string) | TTLTooLong | NoSigner | SigningFailed

  /** A token about to be signed: its algorithm, claims and expiry, and the time it counts from. */
  datatype Draft = Draft(alg: Algorithm, claims: Fields, exp: Time, now: Time)

  datatype Response = Response(token: Token, expiresIn: int)

  function AlgNamed(name: string): Option<Algorithm> {
    if name == "RS256" then Some(RS256)
    else if name == "ES256" then Some(ES256)
    else if name == "EdDSA" then Some(EdDSA)
    else None
  }

  // ----- Claims -----

  /** What the token builder accepts for a claim. */
  predicate SetAccepts(name: string, v: Json) {
    if name in {"iss", "sub", "jti"} then v.Str?
    else if name == "aud" then v.Str? || (v.Arr? && AllStrings(v.items))
    else true
  }

  const TIME_CLAIMS: set<string> := {"exp", "iat", "nbf"}

  /** A time as it appears in a token: whole seconds, rounded down. */
  function Seconds(t: Time): Json {
    Num((t / SECOND) as real)
  }

  predicate ClaimFits(name: string, v: Json, now: Time, dates: DateParser) {
    if name in TIME_CLAIMS then ParseTimeValue(v, now, dates).Some? else SetAccepts(name, v)
  }

  /** The form in which a requested claim enters the token; a single audience becomes a list. */
  function Stored(name: string, v: Json, now: Time, dates: DateParser): Json
    requires ClaimFits(name, v, now, dates)
  {
    if name in TIME_CLAIMS then Seconds(ParseTimeValue(v, now, dates).value)
    else if name == "aud" && v.Str? then Arr([v])
    else v
  }

  ghost predicate RequestFits(req: Request, now: Time, dates: DateParser) {
    forall name :: name in req.claims ==> ClaimFits(name, req.claims[name], now, dates)
  }

  function ExpOf(cfg: Config, req: Request, now: Time, dates: DateParser): Time {
    if "exp" in req.claims && ParseTimeValue(req.claims["exp"], now, dates).Some?
    then ParseTimeValue(req.claims["exp"], now, dates).value
    else now + cfg.defaultTTL
  }

  /** The value of one claim of the finished token. */
  ghost function ClaimAt(cfg: Config, req: Request, now: Time, dates: DateParser, name: string): Option<Json>
    requires RequestFits(req, now, dates)
  {
    if name == "exp" then Some(Seconds(ExpOf(cfg, req, now, dates)))
    else if name in req.claims then Some(Stored(name, req.claims[name], now, dates))
    else if name == "iss" && cfg.issuer != "" then Some(Str(cfg.issuer))
    else if name in {"iat", "nbf"} then Some(Seconds(now))
    else None
  }

  ghost function DraftClaims(cfg: Config, req: Request, now: Time, dates: DateParser): Fields
    requires RequestFits(req, now, dates)
  {
    map name | name in req.claims.Keys + {"exp", "iss", "iat", "nbf"} && ClaimAt(cfg, req, now, dates, name).Some?
      :: ClaimAt(cfg, req, now, dates, name).value
  }

  predicate CapExceeded(cfg: Config, exp: Time, now: Time) {
    cfg.maxTTL > 0 && Sub(exp, now) > cfg.maxTTL
  }

  function AlgRequested(req: Request): Option<Algorithm> {
    if req.alg == "" then Some(RS256) else AlgNamed(req.alg)
  }

  /** What `Begin` yields for a request whose algorithm is known and whose claims fit. */
  ghost function Drafted(cfg: Config, req: Request, now: Time, dates: DateParser): Result<Draft, MintError>
    requires AlgRequested(req).Some? && RequestFits(req, now, dates)
  {
    var exp := ExpOf(cfg, req, now, dates);
    if CapExceeded(cfg, exp, now) then Err(TTLTooLong)
    else Ok(Draft(AlgRequested(req).value, DraftClaims(cfg, req, now, dates), exp, now))
  }

  /** What is promised of `Begin`'s result; which of several ill-formed claims is blamed is open. */
  ghost predicate BeginsAs(r: Result<Draft, MintError>, cfg: Config, req: Request, now: Time, dates: DateParser) {
    if AlgRequested(req).None? then r == Err(UnsupportedAlgorithm)
    else if !RequestFits(req, now, dates) then
      && r.Err? && r.error.InvalidRequest? && r.error.claim in req.claims
      && !ClaimFits(r.error.claim, req.claims[r.error.claim], now, dates)
    else r == Drafted(cfg, req, now, dates)
  }

  // ----- The token in terms of the request -----

  /** The claim is the whole second, a number, in which `t` falls. */
  predicate InSecond(claim: Json, t: Time) {
    claim.Num? && claim.r == claim.r.Floor as real
    && claim.r.Floor * 1_000_000_000 <= t < (claim.r.Floor + 1) * 1_000_000_000
  }

  /** Requested claims appear as requested; one audience becomes a list of one. */
  ghost predicate KeepsClaims(claims: Fields, req: Request) {
    && (forall name :: name in req.claims ==> name in claims)
    && (forall name :: name in req.claims && name !in {"exp", "iat", "nbf", "aud"} ==> claims[name] == req.claims[name])
    && ("aud" in req.claims ==>
          claims["aud"] == if req.claims["aud"].Str? then Arr([req.claims["aud"]]) else req.claims["aud"])
  }

  /** The request gives a time claim in a documented form. */
  ghost predicate WritesTime(req: Request, name: string, w: Written, dates: DateParser) {
    name in {"exp", "iat", "nbf"} && name in req.claims && req.claims[name] == Show(w) && Proper(w, dates)
  }

  /** A time written in a documented form appears as the second it means. */
  ghost predicate KeepsTimes(claims: Fields, req: Request, now: Time, dates: DateParser) {
    forall name, w :: WritesTime(req, name, w, dates) ==>
      name in claims && InSecond(claims[name], Meant(w, now, dates).value)
  }

  /** The claims the request leaves out, and no others, come from the configuration and the clock. */
  ghost predicate AddsDefaults(claims: Fields, cfg: Config, req: Request, now: Time) {
    && claims.Keys == req.claims.Keys + {"exp", "iat", "nbf"} + (if cfg.issuer != "" then {"iss"} else {})
    && ("iss" !in req.claims && cfg.issuer != "" ==> claims["iss"] == Str(cfg.issuer))
    && ("iat" !in req.claims ==> InSecond(claims["iat"], now))
    && ("nbf" !in req.claims ==> InSecond(claims["nbf"], now))
    && ("exp" !in req.claims ==> InSecond(claims["exp"], now + cfg.defaultTTL))
  }

  /** A reserved claim of the wrong kind; any other claim may hold anything. */
  predicate Unusable(name: string, v: Json, now: Time, dates: DateParser) {
    || (name in {"iss", "sub", "jti"} && !v.Str?)
    || (name == "aud" && !v.Str? && !(v.Arr? && forall item :: item in v.items ==> item.Str?))
    || (name in {"exp", "iat", "nbf"} && ParseTimeValue(v, now, dates).None?)
  }

  /** The algorithm the request names, or RS256 when it names none. */
  predicate AsksFor(req: Request, alg: Algorithm) {
    match alg
    case RS256 => req.alg in {"", "RS256"}
    case ES256 => req.alg == "ES256"
    case EdDSA => req.alg == "EdDSA"
  }

  /** What is about to be signed, in terms of the request. */
  ghost predicate KeepsRequest(d: Draft, cfg: Config, req: Request, now: Time, dates: DateParser) {
    && d.now == now && AsksFor(req, d.alg)
    && KeepsClaims(d.claims, req) && KeepsTimes(d.claims, req, now, dates) && AddsDefaults(d.claims, cfg, req, now)
  }

  lemma SecondsFall(t: Time)
    ensures InSecond(Seconds(t), t)
  {
    assert t == SECOND * (t / SECOND) + t % SECOND;
    assert ((t / SECOND) as real).Floor == t / SECOND;
  }

  lemma FitsUsable(name: string, v: Json, now: Time, dates: DateParser)
    ensures ClaimFits(name, v, now, dates) <==> !Unusable(name, v, now, dates)
  {
    if v.Arr? {
      assert AllStrings(v.items) <==> forall item :: item in v.items ==> item.Str?;
    }
  }

  lemma RequestedKept(claims: Fields, cfg: Config, req: Request, now: Time, dates: DateParser)
    requires RequestFits(req, now, dates) && claims == DraftClaims(cfg, req, now, dates)
    ensures KeepsClaims(claims, req)
  {
    forall name | name in req.claims
      ensures name in claims && Some(claims[name]) == ClaimAt(cfg, req, now, dates, name)
    {
      assert ClaimFits(name, req.claims[name], now, dates);
    }
  }

  lemma DefaultsAdded(claims: Fields, cfg: Config, req: Request, now: Time, dates: DateParser)
    requires RequestFits(req, now, dates) && claims == DraftClaims(cfg, req, now, dates)
    ensures AddsDefaults(claims, cfg, req, now)
  {
    SecondsFall(now);
    SecondsFall(now + cfg.defaultTTL);
    forall name ensures name in claims <==> ClaimAt(cfg, req, now, dates, name).Some? {
    }
  }

  lemma TimesKept(claims: Fields, cfg: Config, req: Request, now: Time, dates: DateParser)
    requires RequestFits(req, now, dates) && claims == DraftClaims(cfg, req, now, dates)
    ensures KeepsTimes(claims, req, now, dates)
  {
    forall name, w | WritesTime(req, name, w, dates)
      ensures name in claims && InSecond(claims[name], Meant(w, now, dates).value)
    {
      WrittenReads(w, now, dates);
      SecondsFall(Meant(w, now, dates).value);
    }
  }

  lemma DraftKeeps(d: Draft, cfg: Config, req: Request, now: Time, dates: DateParser)
    requires AlgRequested(req).Some? && RequestFits(req, now, dates) && Drafted(cfg, req, now, dates) == Ok(d)
    ensures KeepsRequest(d, cfg, req, now, dates)
  {
    RequestedKept(d.claims, cfg, req, now, dates);
    DefaultsAdded(d.claims, cfg, req, now, dates);
    TimesKept(d.claims, cfg, req, now, dates);
  }

  method Begin(cfg: Config, req: Request, clock: Time, dates: DateParser) returns (r: Result<Draft, MintError>)
    ensures BeginsAs(r, cfg, req, SecFloor(clock), dates)
    ensures r.Ok? ==> KeepsRequest(r.value, cfg, req, SecFloor(clock), dates)
  {
    var alg := AlgRequested(req);
    if alg.None? {
      return Err(UnsupportedAlgorithm);
    }
    var now := SecFloor(clock);
    var tok: Fields := map[];
    var exp: Option<Time> := None;
    var todo := req.claims.Keys;
    while todo != {}
      invariant todo <= req.claims.Keys
      invariant Gathered(tok, exp, req, req.claims.Keys - todo, now, dates)
      decreases todo
    {
      var name :| name in todo;
      var v := req.claims[name];
      if !ClaimFits(name, v, now, dates) {
        return Err(InvalidRequest(name));
      }
      if name == "exp" {
        exp := ParseTimeValue(v, now, dates);
      } else {
        tok := tok[name := Stored(name, v, now, dates)];
      }
      todo := todo - {name};
    }
    assert RequestFits(req, now, dates);
    r := Complete(cfg, req, alg.value, tok, exp, now, dates);
    if r.Ok? {
      DraftKeeps(r.value, cfg, req, now, dates);
    }
  }

  /** What the claim loop has gathered from the claims named in `done`. */
  ghost predicate Gathered(tok: Fields, exp: Option<Time>, req: Request, done: set<string>, now: Time,
                           dates: DateParser) {
    && done <= req.claims.Keys && tok.Keys == done - {"exp"}
    && (forall name :: name in done ==> ClaimFits(name, req.claims[name], now, dates))
    && (forall name :: name in tok ==> tok[name] == Stored(name, req.claims[name], now, dates))
    && exp == if "exp" in done then ParseTimeValue(req.claims["exp"], now, dates) else None
  }

  /** The claims a request leaves out: issuer, issued-at and not-before. */
  method FillDefaults(cfg: Config, gathered: Fields, now: Time) returns (tok: Fields)
    requires "exp" !in gathered
    ensures tok.Keys == gathered.Keys + {"iat", "nbf"} + (if cfg.issuer != "" then {"iss"} else {})
    ensures forall name :: name in gathered ==> tok[name] == gathered[name]
    ensures "iss" !in gathered && cfg.issuer != "" ==> tok["iss"] == Str(cfg.issuer)
    ensures forall name :: name in {"iat", "nbf"} && name !in gathered ==> tok[name] == Seconds(now)
  {
    tok := gathered;
    if "iss" !in tok && cfg.issuer != "" {
      tok := tok["iss" := Str(cfg.issuer)];
    }
    if "iat" !in tok {
      tok := tok["iat" := Seconds(now)];
    }
    if "nbf" !in tok {
      tok := tok["nbf" := Seconds(now)];
    }
  }

  lemma IsDraft(cfg: Config, req: Request, gathered: Fields, requested: Option<Time>, tok: Fields, now: Time,
                dates: DateParser)
    requires RequestFits(req, now, dates)
    requires Gathered(gathered, requested, req, req.claims.Keys, now, dates)
    requires tok.Keys == gathered.Keys + {"iat", "nbf", "exp"} + (if cfg.issuer != "" then {"iss"} else {})
    requires forall name :: name in gathered ==> tok[name] == gathered[name]
    requires "iss" !in gathered && cfg.issuer != "" ==> tok["iss"] == Str(cfg.issuer)
    requires forall name :: name in {"iat", "nbf"} && name !in gathered ==> tok[name] == Seconds(now)
    requires tok["exp"] == Seconds(ExpOf(cfg, req, now, dates))
    ensures tok == DraftClaims(cfg, req, now, dates)
  {
    var want := DraftClaims(cfg, req, now, dates);
    forall name
      ensures name in tok <==> name in want
      ensures name in tok ==> tok[name] == want[name]
    {
      assert name in want <==> ClaimAt(cfg, req, now, dates, name).Some? by {
        assert name in req.claims.Keys + {"exp", "iss", "iat", "nbf"} <== ClaimAt(cfg, req, now, dates, name).Some?;
      }
    }
  }

  /** Fills in the default claims and applies the cap. */
  method Complete(cfg: Config, req: Request, alg: Algorithm, gathered: Fields, requested: Option<Time>, now: Time,
                  dates: DateParser)
    returns (r: Result<Draft, MintError>)
    requires AlgRequested(req) == Some(alg) && RequestFits(req, now, dates)
    requires Gathered(gathered, requested, req, req.claims.Keys, now, dates)
    ensures r == Drafted(cfg, req, now, dates)
  {
    var tok := FillDefaults(cfg, gathered, now);
    var exp := if requested.Some? then requested.value else now + cfg.defaultTTL;
    tok := tok["exp" := Seconds(exp)];
    IsDraft(cfg, req, gathered, requested, tok, now, dates);
    var lifetime := Sub(exp, now);
    if cfg.maxTTL > 0 && lifetime > cfg.maxTTL {
      return Err(TTLTooLong);
    }
    return Ok(Draft(alg, tok, exp, now));
  }

  // ----- Signing -----

  /** Rounds a duration to whole seconds, halves away from zero. */
  function RoundSeconds(d: int): int {
    if d >= 0 then (d + SECOND / 2) / SECOND else -((-d + SECOND / 2) / SECOND)
  }

  function SignedToken(d: Draft, key: KeyInfo): Token {
    var header: Fields := map["alg" := Str(AlgName(d.alg)), "kid" := Str(key.kid), "typ" := Str("JWT")];
    Compact(header, d.claims, Over(Signed(key.pub, header, d.claims)))
  }

  function Finish(d: Draft, key: KeyInfo): Response {
    Response(SignedToken(d, key), RoundSeconds(Sub(d.exp, d.now)))
  }

  lemma RoundedWithinHalf(d: int)
    ensures 2 * d - SECOND <= 2 * SECOND * RoundSeconds(d) <= 2 * d + SECOND
    ensures d >= 0 ==> 2 * SECOND * RoundSeconds(d) > 2 * d - SECOND
    ensures d < 0 ==> 2 * SECOND * RoundSeconds(d) < 2 * d + SECOND
    ensures d % SECOND == 0 ==> SECOND * RoundSeconds(d) == d
  {
  }

  /** A token is minted: the request is in order and within the cap, and there is a key to sign with. */
  ghost predicate Mints(cfg: Config, req: Request, now: Time, ring: Ring, signs: bool, dates: DateParser) {
    && AlgRequested(req).Some? && RequestFits(req, now, dates) && !CapExceeded(cfg, ExpOf(cfg, req, now, dates), now)
    && AlgRequested(req).value in ring.enabled && AlgRequested(req).value in ring.active && signs
  }

  /** What the response promises: whose token it is, what it claims, and when it ends. */
  ghost predicate Answers(resp: Response, cfg: Config, req: Request, now: Time, ring: Ring, dates: DateParser)
    requires AlgRequested(req).Some? && RequestFits(req, now, dates) && AlgRequested(req).value in ring.active
  {
    var key, life := ring.active[AlgRequested(req).value], Sub(ExpOf(cfg, req, now, dates), now);
    && resp.token.Compact?
    && resp.token.signature == Over(Signed(key.pub, resp.token.header, resp.token.claims))
    && resp.token.header.Keys == {"alg", "kid", "typ"} && resp.token.header["typ"] == Str("JWT")
    && resp.token.header["alg"] == Str(AlgName(AlgRequested(req).value)) && resp.token.header["kid"] == Str(key.kid)
    && (forall name :: name in resp.token.claims <==> ClaimAt(cfg, req, now, dates, name).Some?)
    && (forall name :: name in resp.token.claims ==>
          resp.token.claims[name] == ClaimAt(cfg, req, now, dates, name).value)
    && 2 * life - SECOND <= 2 * SECOND * resp.expiresIn <= 2 * life + SECOND
    && (life % SECOND == 0 ==> SECOND * resp.expiresIn == life)
  }

  /** Why no token is minted, in the order the reasons are looked at; which ill-formed claim is blamed is open. */
  ghost predicate Refuses(e: MintError, cfg: Config, req: Request, now: Time, ring: Ring, dates: DateParser) {
    if AlgRequested(req).None? then e == UnsupportedAlgorithm
    else if !RequestFits(req, now, dates) then
      e.InvalidRequest? && e.claim in req.claims && !ClaimFits(e.claim, req.claims[e.claim], now, dates)
    else if CapExceeded(cfg, ExpOf(cfg, req, now, dates), now) then e == TTLTooLong
    else if AlgRequested(req).value !in ring.enabled then e == UnsupportedAlgorithm
    else if AlgRequested(req).value !in ring.active then e == NoSigner
    else e == SigningFailed
  }

  /** The key signed header and claims, and the header names the algorithm and the key. */
  predicate SignedAs(t: Token, key: KeyInfo, alg: string) {
    && t.Compact? && t.header == map["alg" := Str(alg), "kid" := Str(key.kid), "typ" := Str("JWT")]
    && t.signature == Over(Signed(key.pub, t.header, t.claims))
  }

  /** The active key of the algorithm asked for signs. */
  ghost predicate SignsAs(t: Token, req: Request, ring: Ring) {
    || (AsksFor(req, RS256) && RS256 in ring.active && SignedAs(t, ring.active[RS256], "RS256"))
    || (AsksFor(req, ES256) && ES256 in ring.active && SignedAs(t, ring.active[ES256], "ES256"))
    || (AsksFor(req, EdDSA) && EdDSA in ring.active && SignedAs(t, ring.active[EdDSA], "EdDSA"))
  }

  /** `expires_in` is the lifetime in whole seconds, halves rounded away from zero. */
  predicate Rounds(seconds: int, life: int) {
    if life >= 0 then 2 * life - SECOND < 2 * SECOND * seconds <= 2 * life + SECOND
    else 2 * life - SECOND <= 2 * SECOND * seconds < 2 * life + SECOND
  }

  /** What the caller gets for a request, in terms of the request alone. */
  ghost predicate Honours(resp: Response, cfg: Config, req: Request, now: Time, ring: Ring, dates: DateParser) {
    && resp.token.Compact? && SignsAs(resp.token, req, ring)
    && KeepsClaims(resp.token.claims, req) && KeepsTimes(resp.token.claims, req, now, dates)
    && AddsDefaults(resp.token.claims, cfg, req, now)
    && ("exp" !in req.claims && IsDuration(cfg.defaultTTL) ==> Rounds(resp.expiresIn, cfg.defaultTTL))
    && (forall w :: WritesTime(req, "exp", w, dates) ==>
          Rounds(resp.expiresIn, Sub(Meant(w, now, dates).value, now)))
  }

  lemma FinishHonours(cfg: Config, req: Request, now: Time, ring: Ring, dates: DateParser, d: Draft)
    requires AlgRequested(req).Some? && RequestFits(req, now, dates) && Drafted(cfg, req, now, dates) == Ok(d)
    requires d.alg in ring.active
    ensures Honours(Finish(d, ring.active[d.alg]), cfg, req, now, ring, dates)
  {
    DraftKeeps(d, cfg, req, now, dates);
    RoundedWithinHalf(Sub(d.exp, now));
    forall w | WritesTime(req, "exp", w, dates)
      ensures Meant(w, now, dates) == Some(d.exp)
    {
      WrittenReads(w, now, dates);
    }
  }

  /** The response is the signed draft. */
  ghost predicate IsFinished(resp: Response, cfg: Config, req: Request, now: Time, ring: Ring, dates: DateParser) {
    && AlgRequested(req).Some? && RequestFits(req, now, dates) && Drafted(cfg, req, now, dates).Ok?
    && AlgRequested(req).value in ring.active
    && resp == Finish(Drafted(cfg, req, now, dates).value, ring.active[AlgRequested(req).value])
  }

  /** `Mint` when no rotation comes between its steps; the signing call itself may fail. */
  method Mint(cfg: Config, req: Request, clock: Time, ring: Ring, signs: bool, dates: DateParser)
    returns (r: Result<Response, MintError>)
    ensures r.Ok? <==> Mints(cfg, req, SecFloor(clock), ring, signs, dates)
    ensures r.Ok? ==> Answers(r.value, cfg, req, SecFloor(clock), ring, dates)
    ensures r.Err? ==> Refuses(r.error, cfg, req, SecFloor(clock), ring, dates)
    ensures r.Ok? ==> Honours(r.value, cfg, req, SecFloor(clock), ring, dates)
    ensures r.Ok? ==> IsFinished(r.value, cfg, req, SecFloor(clock), ring, dates)
    ensures r.Ok? ==> forall name :: name in req.claims ==> !Unusable(name, req.claims[name], SecFloor(clock), dates)
    ensures r.Err? && r.error.InvalidRequest? ==>
              r.error.claim in req.claims
              && Unusable(r.error.claim, req.claims[r.error.claim], SecFloor(clock), dates)
  {
    var begun := Begin(cfg, req, clock, dates);
    forall name | name in req.claims {
      FitsUsable(name, req.claims[name], SecFloor(clock), dates);
    }
    if begun.Err? {
      return Err(begun.error);
    }
    var d := begun.value;
    var signer := Signer(ring, d.alg);
    if signer.Err? {
      return Err(if signer.error.UnsupportedAlg? then UnsupportedAlgorithm else NoSigner);
    }
    if !signs {
      return Err(SigningFailed);
    }
    FinishAnswers(cfg, req, SecFloor(clock), ring, dates, d);
    FinishHonours(cfg, req, SecFloor(clock), ring, dates, d);
    return Ok(Finish(d, signer.value));
  }

  lemma FinishAnswers(cfg: Config, req: Request, now: Time, ring: Ring, dates: DateParser, d: Draft)
    requires AlgRequested(req).Some? && RequestFits(req, now, dates) && Drafted(cfg, req, now, dates) == Ok(d)
    requires d.alg in ring.active
    ensures Answers(Finish(d, ring.active[d.alg]), cfg, req, now, ring, dates)
  {
    RoundedWithinHalf(Sub(d.exp, d.now));
  }
}
