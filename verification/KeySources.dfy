/**
 The two key sources of the classifier: the live ring (internal/verify/verify.go) and the
 table the command line parses out of a served JWKS (cmd/jwtoken-tester/cli.go).
 */
module KeySources {
  import opened Base
  import opened RingModel
  import opened RingLaws
  import opened Jwt
  import opened Checks
  import opened VerdictMeaning
  import opened VerdictLaws
  import Views

  // ----- The live ring -----

  /** The names of the enabled algorithms, in listed order. */
  function EnabledNames(r: Ring, algs: seq<Algorithm>): seq<string> {
    if algs == [] then []
    else (if algs[0] in r.enabled then [AlgName(algs[0])] else []) + EnabledNames(r, algs[1..])
  }

  ghost function Kids(r: Ring): set<string> {
    set k | k in Views.Canonical(r) :: k.kid
  }

  /** What the ring answers through `Lookup` and `EnabledAlgorithms`. */
  ghost function RingSource(r: Ring): KeySource {
    Source(map kid | kid in Kids(r) && Views.Lookup(r, kid).Some? :: Views.Lookup(r, kid).value,
           EnabledNames(r, ALL_ALGORITHMS))
  }

  lemma RingSourceLooksUp(r: Ring, kid: string)
    requires Sound(r)
    ensures kid in RingSource(r).keys <==> Views.Lookup(r, kid).Some?
    ensures kid in RingSource(r).keys ==> RingSource(r).keys[kid] == Views.Lookup(r, kid).value
  {
    Views.ViewsAgree(r, kid);
  }

  lemma {:induction false} EnabledNamed(r: Ring, algs: seq<Algorithm>, name: string)
    ensures name in EnabledNames(r, algs) <==> exists alg :: alg in algs && alg in r.enabled && AlgName(alg) == name
  {
    if algs != [] {
      EnabledNamed(r, algs[1..], name);
      assert algs == [algs[0]] + algs[1..];
    }
  }

  // ----- The parsed JWKS -----

  /** A JWK as it stands in a set; its key id may be missing. */
  datatype Entry = Entry(kid: Option<string>, pub: PublicKey, alg: string)

  /** The RFC 7638 thumbprint of a key, which is library code. */
  type Thumbprint = PublicKey -> string

  /** A JWK without a key id gets its thumbprint. */
  function Assigned(e: Entry, thumbprint: Thumbprint): Views.Jwk {
    Views.Jwk(if e.kid.Some? then e.kid.value else thumbprint(e.pub), e.pub, e.alg)
  }

  function AllAssigned(entries: seq<Entry>, thumbprint: Thumbprint): (jwks: seq<Views.Jwk>)
    ensures |jwks| == |entries|
  {
    seq(|entries|, i requires 0 <= i < |entries| => Assigned(entries[i], thumbprint))
  }

  /** The algorithms a JWK may be used with: its own, or those of its key type. */
  function KeyAlgorithms(jwk: Views.Jwk): seq<string> {
    if jwk.alg != "" then [jwk.alg]
    else match jwk.pub.alg
      case RS256 => ["RS256", "RS384", "RS512", "PS256", "PS384", "PS512"]
      case ES256 => ["ES256"]
      case EdDSA => ["EdDSA"]
  }

  /** A JWK that declares an algorithm is for that one; any other is for exactly the methods its key can verify. */
  lemma AlgorithmsExactly(jwk: Views.Jwk, name: string)
    ensures name in KeyAlgorithms(jwk) <==> if jwk.alg != "" then name == jwk.alg else name in Methods(jwk.pub.alg)
  {
  }

  /** The table of the first `n` JWKs; a later entry replaces an earlier one of the same kid. */
  function TableOf(jwks: seq<Views.Jwk>): map<string, (PublicKey, KeyStatus)> {
    if jwks == [] then map[]
    else
      var last := jwks[|jwks| - 1];
      var rest := TableOf(jwks[..|jwks| - 1]);
      if last.kid == "" then rest else rest[last.kid := (last.pub, Active)]
  }

  /** Every kid of the table is that of a JWK, and stands for the key of the last one that has it. */
  lemma {:induction false} LastWins(jwks: seq<Views.Jwk>, kid: string) returns (i: nat)
    requires kid in TableOf(jwks)
    ensures i < |jwks| && jwks[i].kid == kid != "" && Final(jwks, i) && TableOf(jwks)[kid] == (jwks[i].pub, Active)
  {
    i := |jwks| - 1;
    if jwks[i].kid != kid || kid == "" {
      i := LastWins(jwks[..i], kid);
    }
  }

  /** Every JWK with a kid is in the table. */
  lemma {:induction false} NoneLost(jwks: seq<Views.Jwk>, i: nat)
    requires i < |jwks| && jwks[i].kid != ""
    ensures jwks[i].kid in TableOf(jwks)
  {
    if i < |jwks| - 1 {
      NoneLost(jwks[..|jwks| - 1], i);
    }
  }

  /** No later JWK has the same kid. */
  ghost predicate Final(jwks: seq<Views.Jwk>, i: nat)
    requires i < |jwks|
  {
    forall j :: i < j < |jwks| ==> jwks[j].kid != jwks[i].kid
  }

  ghost predicate Names(jwks: seq<Views.Jwk>, name: string) {
    exists i :: 0 <= i < |jwks| && jwks[i].kid != "" && name in KeyAlgorithms(jwks[i])
  }

  predicate SortedNames(names: seq<string>) {
    forall i, j :: 0 <= i < j < |names| ==> Views.Less(names[i], names[j])
  }

  /** Adds a name to a sorted list unless it is there already. */
  method AddName(names: seq<string>, name: string) returns (more: seq<string>)
    requires SortedNames(names)
    ensures SortedNames(more) && forall s :: s in more <==> s in names || s == name
  {
    var i := 0;
    while i < |names| && Views.Less(names[i], name)
      invariant i <= |names| && forall j :: 0 <= j < i ==> Views.Less(names[j], name)
    {
      i := i + 1;
    }
    if i < |names| && names[i] == name {
      return names;
    }
    more := names[..i] + [name] + names[i..];
    forall j | i <= j < |names| ensures Views.Less(name, names[j]) {
      Views.LessTotal(names[i], name);
      if j > i { Views.LessTransitive(name, names[i], names[j]); }
    }
  }

  /** `parseJWKS`: None when the set holds no usable key. */
  method ParseJwks(entries: seq<Entry>, thumbprint: Thumbprint) returns (source: Option<KeySource>)
    ensures var jwks := AllAssigned(entries, thumbprint);
            && (source.None? <==> TableOf(jwks) == map[])
            && (source.Some? ==>
                  && source.value.Source? && source.value.keys == TableOf(jwks) && SortedNames(source.value.algs)
                  && forall name :: name in source.value.algs <==> Names(jwks, name))
    ensures source.Some? ==> forall e :: e in entries ==>
              && (e.kid.Some? && e.kid.value != "" ==> e.kid.value in source.value.keys)
              && (e.kid.None? && thumbprint(e.pub) != "" ==> thumbprint(e.pub) in source.value.keys)
  {
    ghost var jwks := AllAssigned(entries, thumbprint);
    var keys: map<string, (PublicKey, KeyStatus)> := map[];
    var algs: seq<string> := [];
    for i := 0 to |entries|
      invariant keys == TableOf(jwks[..i]) && SortedNames(algs)
      invariant forall name :: name in algs <==> Names(jwks[..i], name)
    {
      assert jwks[..i + 1][..i] == jwks[..i];
      var jwk := Assigned(entries[i], thumbprint);
      if jwk.kid != "" {
        keys := keys[jwk.kid := (jwk.pub, Active)];
        algs := AddNames(algs, KeyAlgorithms(jwk));
      }
      forall name ensures name in algs <==> Names(jwks[..i + 1], name) {
        NamesStep(jwks, i, name);
      }
    }
    assert jwks[..|jwks|] == jwks;
    forall e | e in entries && Assigned(e, thumbprint).kid != ""
      ensures Assigned(e, thumbprint).kid in TableOf(jwks)
    {
      var i :| 0 <= i < |entries| && entries[i] == e;
      NoneLost(jwks, i);
    }
    source := if keys == map[] then None else Some(Source(keys, algs));
  }

  method AddNames(names: seq<string>, more: seq<string>) returns (all: seq<string>)
    requires SortedNames(names)
    ensures SortedNames(all) && forall s :: s in all <==> s in names || s in more
  {
    all := names;
    for i := 0 to |more|
      invariant SortedNames(all) && forall s :: s in all <==> s in names || s in more[..i]
    {
      all := AddName(all, more[i]);
    }
  }

  lemma NamesStep(jwks: seq<Views.Jwk>, n: nat, name: string)
    requires n < |jwks|
    ensures Names(jwks[..n + 1], name) <==>
            Names(jwks[..n], name) || (jwks[n].kid != "" && name in KeyAlgorithms(jwks[n]))
  {
    if Names(jwks[..n], name) {
      var i :| 0 <= i < n && jwks[..n][i].kid != "" && name in KeyAlgorithms(jwks[..n][i]);
      assert jwks[..n + 1][i] == jwks[i];
    }
    if jwks[n].kid != "" && name in KeyAlgorithms(jwks[n]) {
      assert jwks[..n + 1][n] == jwks[n];
    }
    if Names(jwks[..n + 1], name) {
      var i :| 0 <= i < n + 1 && jwks[..n + 1][i].kid != "" && name in KeyAlgorithms(jwks[..n + 1][i]);
      if i < n { assert jwks[..n][i] == jwks[i]; }
    }
  }

  // ----- Parity -----

  lemma {:induction false} TableLooksUp(jwks: seq<Views.Jwk>, kid: string)
    requires forall i, j :: 0 <= i < j < |jwks| ==> jwks[i].kid != jwks[j].kid
    ensures kid in TableOf(jwks) <==> kid != "" && Views.LookupKeyID(jwks, kid).Some?
    ensures kid in TableOf(jwks) ==> TableOf(jwks)[kid] == (Views.LookupKeyID(jwks, kid).value.pub, Active)
  {
    if jwks != [] {
      var n := |jwks| - 1;
      assert jwks == jwks[..n] + [jwks[n]];
      TableLooksUp(jwks[..n], kid);
      LookupSplit(jwks[..n], jwks[n], kid);
    }
  }

  lemma {:induction false} LookupSplit(jwks: seq<Views.Jwk>, last: Views.Jwk, kid: string)
    ensures Views.LookupKeyID(jwks + [last], kid) ==
            if Views.LookupKeyID(jwks, kid).Some? then Views.LookupKeyID(jwks, kid)
            else if last.kid == kid then Some(last) else None
    ensures Views.LookupKeyID(jwks, kid).Some? ==>
              Views.LookupKeyID(jwks, kid).value in jwks && Views.LookupKeyID(jwks, kid).value.kid == kid
  {
    if jwks == [] {
      assert jwks + [last] == [last];
    } else {
      assert (jwks + [last])[1..] == jwks[1..] + [last];
      LookupSplit(jwks[1..], last, kid);
    }
  }

  /** The source the command line builds from the ring's own JWKS. */
  ghost predicate ParsedFrom(r: Ring, source: KeySource) {
    && source.Source? && source.keys == TableOf(Views.Jwks(r))
    && forall name :: name in source.algs <==> Names(Views.Jwks(r), name)
  }

  /** The entries of the JWKS a ring serves, each with its kid. */
  function ServedEntries(r: Ring): seq<Entry> {
    var jwks := Views.Jwks(r);
    seq(|jwks|, i requires 0 <= i < |jwks| => Entry(Some(jwks[i].kid), jwks[i].pub, jwks[i].alg))
  }

  /** A ring's JWKS is parsed under its own kids, and there is always a usable key. */
  method ParseServed(r: Ring, thumbprint: Thumbprint) returns (source: KeySource)
    requires Sound(r)
    ensures ParsedFrom(r, source)
  {
    assert AllAssigned(ServedEntries(r), thumbprint) == Views.Jwks(r);
    var parsed := ParseJwks(ServedEntries(r), thumbprint);
    ghost var alg :| alg in r.enabled;
    WhereIsAt(r, Signing(alg));
    ServedKids(r, r.active[alg].kid);
    RingSourceLooksUp(r, r.active[alg].kid);
    source := parsed.value;
  }

  lemma ServedAlgorithm(k: KeyInfo)
    ensures KeyAlgorithms(Views.ToJwk(k)) == [AlgName(k.alg)]
  {
  }

  lemma ServedIsEnabled(r: Ring, name: string)
    requires Sound(r) && Names(Views.Jwks(r), name)
    ensures name in EnabledNames(r, ALL_ALGORITHMS)
  {
    Views.CanonicalHolds(r);
    var keys, jwks := Views.Canonical(r), Views.Jwks(r);
    var i :| 0 <= i < |jwks| && jwks[i].kid != "" && name in KeyAlgorithms(jwks[i]);
    assert keys[i] in keys;
    var p :| Occupied(r, p) && KeyAt(r, p) == keys[i];
    assert KeyFits(r, p) && jwks[i] == Views.ToJwk(keys[i]);
    ServedAlgorithm(keys[i]);
    Listed(p.alg);
    EnabledNamed(r, ALL_ALGORITHMS, name);
  }

  lemma EnabledIsServed(r: Ring, name: string)
    requires Sound(r) && name in EnabledNames(r, ALL_ALGORITHMS)
    ensures Names(Views.Jwks(r), name)
  {
    Views.CanonicalHolds(r);
    EnabledNamed(r, ALL_ALGORITHMS, name);
    var keys, jwks := Views.Canonical(r), Views.Jwks(r);
    var alg :| alg in ALL_ALGORITHMS && alg in r.enabled && AlgName(alg) == name;
    var p := Signing(alg);
    assert Occupied(r, p) && KeyFits(r, p) && KeyAt(r, p) in keys;
    var i :| 0 <= i < |keys| && keys[i] == KeyAt(r, p);
    ServedAlgorithm(keys[i]);
    assert jwks[i] == Views.ToJwk(keys[i]) && name in KeyAlgorithms(jwks[i]);
  }

  lemma ServedKids(r: Ring, kid: string)
    requires Sound(r)
    ensures kid in TableOf(Views.Jwks(r)) <==> kid in RingSource(r).keys
    ensures kid in RingSource(r).keys ==>
              TableOf(Views.Jwks(r))[kid] == (RingSource(r).keys[kid].0, Active) && RingSource(r).keys[kid].1 != Unknown
  {
    Views.CanonicalHolds(r);
    Views.ViewsAgree(r, kid);
    RingSourceLooksUp(r, kid);
    Views.LessTotal(kid, kid);
    var keys, jwks := Views.Canonical(r), Views.Jwks(r);
    forall i, j | 0 <= i < j < |jwks| ensures jwks[i].kid != jwks[j].kid {
      Views.LessTotal(keys[i].kid, keys[j].kid);
    }
    TableLooksUp(jwks, kid);
    if Views.Lookup(r, kid).Some? {
      var k :| k in keys && k.kid == kid;
      var p :| Occupied(r, p) && KeyAt(r, p) == k;
      assert KeyFits(r, p);
    }
  }

  /** A token gets the same outcome from the live ring and from its JWKS, but for the kid status. */
  lemma RingAndJwksAgree(q: Input, r: Ring, source: KeySource)
    requires Sound(r) && ParsedFrom(r, source)
    ensures WithoutStatus(Reference(q.(keys := RingSource(r)))) == WithoutStatus(Reference(q.(keys := source)))
  {
    forall kid
      ensures kid in RingSource(r).keys <==> kid in source.keys
      ensures kid in source.keys ==>
                source.keys[kid] == (RingSource(r).keys[kid].0, Active) && RingSource(r).keys[kid].1 != Unknown
    {
      ServedKids(r, kid);
    }
    forall name ensures name in RingSource(r).algs <==> name in source.algs {
      if name in RingSource(r).algs { EnabledIsServed(r, name); }
      if name in source.algs { ServedIsEnabled(r, name); }
    }
    SourceParity(q, RingSource(r), source);
  }
}
