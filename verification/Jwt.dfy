/**
 Tokens as the JWT library presents them: the decoded header and claims of a compact JWS
 (section 7.1 of RFC 7515), its signature, and the library's readings of the registered
 claims (sections 4.1.1 to 4.1.6 of RFC 7519).
 */
module Jwt {
  import opened Base
  import opened RingModel

  datatype Json =
    | Null
    | Bool(b: bool)
    | Num(r: real)
    | Str(s: string)
    | Arr(items: seq<Json>)
    | Obj(fields: map<string, Json>)

  type Fields = map<string, Json>

  /** What a key signed: exactly this header and these claims. */
  datatype Signed = Signed(signer: PublicKey, header: Fields, claims: Fields)

  /** A signature segment: not base64, bytes no key made, or a key's signature of something. */
  datatype Signature = Undecodable | Meaningless | Over(what: Signed)

  /** A submitted token: not three decodable segments, or header, claims and signature. */
  datatype Token = Unreadable | Compact(header: Fields, claims: Fields, signature: Signature)

  /** The `alg` values the library has a signing method for. */
  const REGISTERED: set<string> := {
    "HS256", "HS384", "HS512", "RS256", "RS384", "RS512", "PS256", "PS384", "PS512",
    "ES256", "ES384", "ES512", "EdDSA", "none"}

  function HeaderOf(t: Token): Fields {
    if t.Unreadable? then map[] else t.header
  }

  function ClaimsOf(t: Token): Fields {
    if t.Unreadable? then map[] else t.claims
  }

  /** The string value of a header field, if it has one. */
  function StringHeader(header: Fields, name: string): Option<string> {
    if name in header && header[name].Str? then Some(header[name].s) else None
  }

  /** The key types each signing method accepts. */
  predicate MethodTakes(alg: string, key: Algorithm) {
    match key
    case RS256 => alg in {"RS256", "RS384", "RS512", "PS256", "PS384", "PS512"}
    case ES256 => alg == "ES256"
    case EdDSA => alg == "EdDSA"
  }

  /** A signature verifies under exactly the key that made it, over exactly what it signed. */
  predicate SignatureVerifies(t: Token, alg: string, key: PublicKey) {
    && t.Compact? && t.signature == Over(Signed(key, t.header, t.claims))
    && MethodTakes(alg, key.alg)
  }

  /** A time claim, or None when it is absent or zero; an error when it is not a number. */
  function NumericDate(claims: Fields, name: string): Result<Option<Time>, ()> {
    if name !in claims then Ok(None)
    else if !claims[name].Num? then Err(())
    else if claims[name].r == 0.0 then Ok(None)
    else Ok(Some(claims[name].r.Floor * SECOND))
  }

  predicate AllStrings(items: seq<Json>) {
    forall i :: 0 <= i < |items| ==> items[i].Str?
  }

  /** `aud` as a list; a value that is neither a string nor an array reads as no audience. */
  function AudienceClaim(claims: Fields): Result<seq<string>, ()> {
    if "aud" !in claims then Ok([])
    else match claims["aud"]
      case Str(s) => Ok([s])
      case Arr(items) =>
        if AllStrings(items) then Ok(seq(|items|, i requires 0 <= i < |items| && items[i].Str? => items[i].s))
        else Err(())
      case _ => Ok([])
  }

  /** A string claim, empty when absent. */
  function StringClaim(claims: Fields, name: string): Result<string, ()> {
    if name !in claims then Ok("")
    else if claims[name].Str? then Ok(claims[name].s)
    else Err(())
  }

  function TimeClaim(claims: Fields, name: string): Option<Time> {
    match NumericDate(claims, name)
    case Ok(t) => t
    case Err(_) => None
  }
}
