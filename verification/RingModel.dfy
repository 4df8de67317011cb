/**
 The key ring as a value: one active key per enabled algorithm and the retired keys
 of each algorithm in the order they were retired (internal/keyring/keyring.go). A Go
 map entry that is still missing reads as a nil slice, so every enabled algorithm has a
 (possibly empty) sequence here.

 The class in KeyRing.dfy is proved to compute these functions in place. This module
 proves what the functions guarantee.
 */
module RingModel {
  import opened Base

  /** Verification material. A signature verifies under exactly the key that made it. */
  datatype PublicKey = PublicKey(alg: Algorithm, material: nat)

  /** `wiped` records that the private half was overwritten with zeros. */
  datatype KeyInfo = KeyInfo(
    kid: string,
    pub: PublicKey,
    alg: Algorithm,
    createdAt: Time,
    retiredAt: Time,
    wiped: bool)

  /** What key generation yields; an algorithm without an entry failed to generate. */
  datatype Generated = Generated(kid: string, material: nat, createdAt: Time)

  type Generation = map<Algorithm, Generated>

  datatype KeyStatus = Active | Retired | Unknown

  datatype Ring = Ring(
    grace: int,
    enabled: set<Algorithm>,
    active: map<Algorithm, KeyInfo>,
    retired: map<Algorithm, seq<KeyInfo>>)

  datatype SignerError = UnsupportedAlg | NoActiveKey

  function NewKey(alg: Algorithm, g: Generated): KeyInfo {
    KeyInfo(g.kid, PublicKey(alg, g.material), alg, g.createdAt, ZERO_TIME, false)
  }

  /** Zeroizing touches RSA and Ed25519 private keys; ECDSA keys are left alone. */
  function Wipe(k: KeyInfo): KeyInfo {
    if k.alg == ES256 then k else k.(wiped := true)
  }

  // ----- Construction, signing, rotation, pruning -----

  /** Generates a key for each enabled algorithm in order; the first failure aborts. */
  function Fill(r: Ring, gen: Generation, algs: seq<Algorithm>): Option<Ring>
    decreases |algs|
  {
    if algs == [] then Some(r)
    else if algs[0] !in r.enabled then Fill(r, gen, algs[1..])
    else if algs[0] !in gen then None
    else Fill(r.(active := r.active[algs[0] := NewKey(algs[0], gen[algs[0]])]), gen, algs[1..])
  }

  function NewRing(grace: int, enabled: set<Algorithm>, gen: Generation): Option<Ring> {
    if enabled == {} then None
    else Fill(Ring(grace, enabled, map[], map alg | alg in enabled :: []), gen, ALL_ALGORITHMS)
  }

  function Signer(r: Ring, alg: Algorithm): Result<KeyInfo, SignerError> {
    if alg !in r.enabled then Err(UnsupportedAlg)
    else if alg !in r.active then Err(NoActiveKey)
    else Ok(r.active[alg])
  }

  function RetiredOf(r: Ring, alg: Algorithm): seq<KeyInfo> {
    if alg in r.retired then r.retired[alg] else []
  }

  /** One algorithm's rotation: the active key, if any, retires and `k` takes over. */
  function Replace(r: Ring, alg: Algorithm, k: KeyInfo, now: Time): Ring {
    if alg in r.active then
      r.(active := r.active[alg := k],
         retired := r.retired[alg := RetiredOf(r, alg) + [r.active[alg].(retiredAt := now)]])
    else
      r.(active := r.active[alg := k])
  }

  /** `RotateAt`: the algorithms in order, stopping at the first that fails to generate. */
  function RotateFrom(r: Ring, now: Time, gen: Generation, algs: seq<Algorithm>): (Ring, bool)
    decreases |algs|
  {
    if algs == [] then (r, true)
    else if algs[0] !in r.enabled then RotateFrom(r, now, gen, algs[1..])
    else if algs[0] !in gen then (r, false)
    else RotateFrom(Replace(r, algs[0], NewKey(algs[0], gen[algs[0]]), now), now, gen, algs[1..])
  }

  function RotateAt(r: Ring, now: Time, gen: Generation): (Ring, bool) {
    RotateFrom(r, now, gen, ALL_ALGORITHMS)
  }

  predicate InGrace(k: KeyInfo, now: Time, grace: int) {
    Sub(now, k.retiredAt) < grace
  }

  /** The keys still inside their grace window, in their old order. */
  function Live(keys: seq<KeyInfo>, now: Time, grace: int): seq<KeyInfo> {
    if keys == [] then []
    else
      var n := |keys| - 1;
      Live(keys[..n], now, grace) + (if InGrace(keys[n], now, grace) then [keys[n]] else [])
  }

  function PruneAt(r: Ring, now: Time): Ring {
    r.(retired := map alg | alg in r.retired :: Live(r.retired[alg], now, r.grace))
  }

  // ----- Places in the ring -----

  /** A place a key can occupy. */
  datatype Place = Signing(alg: Algorithm) | Kept(alg: Algorithm, index: nat)

  predicate Occupied(r: Ring, p: Place) {
    match p
    case Signing(alg) => alg in r.active
    case Kept(alg, i) => alg in r.retired && i < |r.retired[alg]|
  }

  function KeyAt(r: Ring, p: Place): KeyInfo
    requires Occupied(r, p)
  {
    match p
    case Signing(alg) => r.active[alg]
    case Kept(alg, i) => r.retired[alg][i]
  }

  function StatusAt(p: Place): KeyStatus {
    if p.Signing? then Active else Retired
  }

  ghost predicate HasKid(r: Ring, kid: string) {
    exists p :: Occupied(r, p) && KeyAt(r, p).kid == kid
  }

  ghost predicate KeyFits(r: Ring, p: Place)
    requires Occupied(r, p)
  {
    var k := KeyAt(r, p);
    && k.alg == p.alg && k.pub.alg == p.alg && k.kid != "" && !k.wiped
    && (p.Signing? ==> k.retiredAt == ZERO_TIME)
  }

  /**
   The ring invariant: every enabled algorithm has an active key and nothing else does,
   each key sits in one place, under its own algorithm, and no published key is wiped.
   */
  ghost predicate Sound(r: Ring) {
    && r.enabled != {}
    && r.active.Keys == r.enabled
    && r.retired.Keys == r.enabled
    && (forall p :: Occupied(r, p) ==> KeyFits(r, p))
    && (forall p, q :: Occupied(r, p) && Occupied(r, q) && KeyAt(r, p).kid == KeyAt(r, q).kid ==> p == q)
  }

  /** The assumption on key generation: new, non-empty, pairwise different kids. */
  ghost predicate FreshKids(gen: Generation, used: set<string>) {
    && (forall alg :: alg in gen ==> gen[alg].kid !in used && gen[alg].kid != "")
    && (forall a, b :: a in gen && b in gen && gen[a].kid == gen[b].kid ==> a == b)
  }
}
