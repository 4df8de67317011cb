/**
 The consumer's key cache (docker/demo-service/main.go). `Peek` and `Refresh` are its two
 critical sections; between them the lock is free and the fetch is under way.
 */
module Caching {
  import opened Base
  import opened RingModel
  import opened RingLaws
  import opened KeySources
  import Views

  /** The table built from a key set; a later entry replaces an earlier one of the same kid. */
  function Exported(jwks: seq<Views.Jwk>): map<string, PublicKey> {
    if jwks == [] then map[]
    else Exported(jwks[..|jwks| - 1])[jwks[|jwks| - 1].kid := jwks[|jwks| - 1].pub]
  }

  /** The cached key, if there is one and the cache is younger than the refresh interval. */
  function Fresh(keys: map<string, PublicKey>, fetched: Time, refresh: int, kid: string, now: Time): Option<PublicKey> {
    if kid in keys && Sub(now, fetched) < refresh then Some(keys[kid]) else None
  }

  function KeyIn(keys: map<string, PublicKey>, kid: string): Option<PublicKey> {
    if kid in keys then Some(keys[kid]) else None
  }

  class KeyCache {
    var keys: map<string, PublicKey>
    var fetched: Time
    const refresh: int

    constructor (refresh: int)
      ensures keys == map[] && fetched == ZERO_TIME && this.refresh == refresh
    {
      this.keys := map[];
      this.fetched := ZERO_TIME;
      this.refresh := refresh;
    }

    /** The first section of `getKey`: None means a refresh is needed. */
    method Peek(kid: string, now: Time) returns (hit: Option<PublicKey>)
      ensures hit == Fresh(keys, fetched, refresh, kid, now)
      ensures hit.Some? <==> kid in keys && Sub(now, fetched) < refresh
      ensures hit.Some? ==> hit.value == keys[kid]
    {
      if kid in keys {
        if Sub(now, fetched) < refresh {
          return Some(keys[kid]);
        }
      }
      return None;
    }

    /** The end of `refreshAndGet`: a failed fetch leaves the cache alone, a good one replaces it. */
    method Refresh(kid: string, answer: Option<seq<Views.Jwk>>, now: Time) returns (key: Option<PublicKey>)
      modifies this
      ensures answer.None? ==> key == None && keys == old(keys) && fetched == old(fetched)
      ensures answer.Some? ==>
                keys == Exported(answer.value) && fetched == now && key == KeyIn(Exported(answer.value), kid)
    {
      if answer.None? {
        return None;
      }
      var built := Build(answer.value);
      keys := built;
      fetched := now;
      key := KeyIn(built, kid);
    }
  }

  method Build(jwks: seq<Views.Jwk>) returns (keys: map<string, PublicKey>)
    ensures keys == Exported(jwks)
  {
    keys := map[];
    for i := 0 to |jwks|
      invariant keys == Exported(jwks[..i])
    {
      assert jwks[..i + 1][..i] == jwks[..i];
      keys := keys[jwks[i].kid := jwks[i].pub];
    }
    assert jwks[..|jwks|] == jwks;
  }

  /** The table holds the kids of the key set, each with the last key under it. */
  lemma {:induction false} LastExported(jwks: seq<Views.Jwk>, kid: string) returns (i: nat)
    requires kid in Exported(jwks)
    ensures i < |jwks| && jwks[i].kid == kid && Final(jwks, i) && Exported(jwks)[kid] == jwks[i].pub
  {
    i := |jwks| - 1;
    if jwks[i].kid != kid {
      i := LastExported(jwks[..i], kid);
    }
  }

  lemma {:induction false} ExportedLooksUp(jwks: seq<Views.Jwk>, kid: string)
    requires forall i, j :: 0 <= i < j < |jwks| ==> jwks[i].kid != jwks[j].kid
    ensures kid in Exported(jwks) <==> Views.LookupKeyID(jwks, kid).Some?
    ensures kid in Exported(jwks) ==> Exported(jwks)[kid] == Views.LookupKeyID(jwks, kid).value.pub
  {
    if jwks != [] {
      var n := |jwks| - 1;
      assert jwks == jwks[..n] + [jwks[n]];
      ExportedLooksUp(jwks[..n], kid);
      LookupSplit(jwks[..n], jwks[n], kid);
    }
  }

  /** The keys a consumer takes from a ring's answer. */
  function ServedKeys(r: Ring): map<string, PublicKey> {
    Exported(Views.Jwks(r))
  }

  /** A consumer takes exactly the published keys, each under its own kid. */
  lemma ServedExactly(r: Ring, kid: string)
    requires Sound(r)
    ensures kid in ServedKeys(r) <==> WhereIs(r, kid).Published?
    ensures kid in ServedKeys(r) ==> ServedKeys(r)[kid] == WhereIs(r, kid).key.pub
  {
    Views.CanonicalHolds(r);
    Views.ViewsAgree(r, kid);
    var keys, jwks := Views.Canonical(r), Views.Jwks(r);
    forall i, j | 0 <= i < j < |jwks| ensures jwks[i].kid != jwks[j].kid {
      Views.LessTotal(keys[i].kid, keys[j].kid);
    }
    ExportedLooksUp(jwks, kid);
  }
}
