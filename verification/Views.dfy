/**
 The read-only views of a ring: the kid-ordered key list and what is served from it
 (JWKS, JWKByKID, Snapshot, PublicKeyByKID, Lookup in internal/keyring/keyring.go, and
 Keys in pkg/tester/tester.go). All of them expose one relation from kids to keys.
 */
module Views {
  import opened Base
  import opened RingModel
  import opened RingLaws

  // ----- Kid order -----

  /** Go's string `<`, on strings whose characters are single bytes. */
  predicate Less(a: string, b: string) {
    b != [] && (a == [] || a[0] < b[0] || (a[0] == b[0] && Less(a[1..], b[1..])))
  }

  lemma {:induction false} LessTotal(a: string, b: string)
    ensures Less(a, b) || Less(b, a) || a == b
    ensures !(Less(a, b) && Less(b, a)) && !Less(a, a)
  {
    if a != [] && b != [] && a[0] == b[0] {
      LessTotal(a[1..], b[1..]);
      assert a == [a[0]] + a[1..] && b == [b[0]] + b[1..];
    }
    if a != [] {
      LessTotal(a[1..], a[1..]);
    }
  }

  lemma {:induction false} LessTransitive(a: string, b: string, c: string)
    requires Less(a, b) && Less(b, c)
    ensures Less(a, c)
  {
    if a != [] && a[0] == b[0] && b[0] == c[0] {
      LessTransitive(a[1..], b[1..], c[1..]);
    }
  }

  /** Either a proper prefix, or smaller at the first place where the two differ. */
  ghost predicate Precedes(a: string, b: string, n: nat) {
    n <= |a| && n < |b| && a[..n] == b[..n] && (n == |a| || a[n] < b[n])
  }

  lemma PrecedesHead(a: string, b: string, n: nat)
    requires Precedes(a, b, n) && n > 0
    ensures a[0] == b[0] && Precedes(a[1..], b[1..], n - 1)
  {
    assert a[..n][0] == b[..n][0];
    assert a[1..][..n - 1] == a[..n][1..] && b[1..][..n - 1] == b[..n][1..];
  }

  /** The order is the lexicographic one. */
  lemma {:induction false} LessExactly(a: string, b: string)
    ensures Less(a, b) <==> exists n: nat :: Precedes(a, b, n)
  {
    if n: nat :| Precedes(a, b, n) {
      if n > 0 {
        PrecedesHead(a, b, n);
        LessExactly(a[1..], b[1..]);
      }
    }
    if Less(a, b) {
      if a == [] || a[0] < b[0] {
        assert Precedes(a, b, 0);
      } else {
        LessExactly(a[1..], b[1..]);
        var n: nat :| Precedes(a[1..], b[1..], n);
        assert a[..n + 1] == [a[0]] + a[1..][..n] && b[..n + 1] == [b[0]] + b[1..][..n];
        assert Precedes(a, b, n + 1);
      }
    }
  }

  // ----- Sorting by kid -----

  ghost predicate SortedByKid(s: seq<KeyInfo>) {
    forall i, j :: 0 <= i < j < |s| ==> Less(s[i].kid, s[j].kid)
  }

  function Insert(k: KeyInfo, s: seq<KeyInfo>): seq<KeyInfo> {
    if s == [] || Less(k.kid, s[0].kid) then [k] + s
    else [s[0]] + Insert(k, s[1..])
  }

  function Sort(s: seq<KeyInfo>): seq<KeyInfo> {
    if s == [] then [] else Insert(s[0], Sort(s[1..]))
  }

  lemma {:induction false} InsertMultiset(k: KeyInfo, s: seq<KeyInfo>)
    ensures multiset(Insert(k, s)) == multiset(s) + multiset{k}
  {
    if s != [] && !Less(k.kid, s[0].kid) {
      InsertMultiset(k, s[1..]);
      assert s == [s[0]] + s[1..];
    }
  }

  lemma {:induction false} SortMultiset(s: seq<KeyInfo>)
    ensures multiset(Sort(s)) == multiset(s)
  {
    if s != [] {
      SortMultiset(s[1..]);
      InsertMultiset(s[0], Sort(s[1..]));
      assert s == [s[0]] + s[1..];
    }
  }

  lemma {:induction false} InsertSorted(k: KeyInfo, s: seq<KeyInfo>)
    requires SortedByKid(s) && forall i :: 0 <= i < |s| ==> s[i].kid != k.kid
    ensures SortedByKid(Insert(k, s))
  {
    var t := Insert(k, s);
    if s == [] {
    } else if Less(k.kid, s[0].kid) {
      forall j | 0 <= j < |s| ensures Less(k.kid, s[j].kid) {
        if j > 0 { LessTransitive(k.kid, s[0].kid, s[j].kid); }
      }
    } else {
      LessTotal(k.kid, s[0].kid);
      var rest := Insert(k, s[1..]);
      InsertSorted(k, s[1..]);
      InsertMultiset(k, s[1..]);
      forall j | 0 <= j < |rest| ensures Less(s[0].kid, rest[j].kid) {
        assert rest[j] in multiset(rest);
        assert rest[j] in s[1..] || rest[j] == k;
      }
    }
  }

  ghost predicate DistinctKids(s: seq<KeyInfo>) {
    forall i, j :: 0 <= i < j < |s| ==> s[i].kid != s[j].kid
  }

  lemma {:induction false} SortSorted(s: seq<KeyInfo>)
    requires DistinctKids(s)
    ensures SortedByKid(Sort(s))
  {
    if s != [] {
      var rest := Sort(s[1..]);
      SortSorted(s[1..]);
      SortMultiset(s[1..]);
      forall i | 0 <= i < |rest| ensures rest[i].kid != s[0].kid {
        assert rest[i] in multiset(rest);
        assert rest[i] in s[1..];
      }
      InsertSorted(s[0], rest);
    }
  }

  lemma SameHead(s: seq<KeyInfo>, t: seq<KeyInfo>)
    requires SortedByKid(s) && SortedByKid(t) && s != [] && t != []
    requires s[0] in t && t[0] in s
    ensures s[0] == t[0]
  {
    LessTotal(s[0].kid, t[0].kid);
  }

  lemma TailBag(s: seq<KeyInfo>)
    requires s != []
    ensures multiset(s[1..]) == multiset(s) - multiset{s[0]}
  {
    assert s == [s[0]] + s[1..];
  }

  /** A kid-ordered sequence is determined by its elements. */
  lemma {:induction false} SortedUnique(s: seq<KeyInfo>, t: seq<KeyInfo>)
    requires SortedByKid(s) && SortedByKid(t) && multiset(s) == multiset(t)
    ensures s == t
  {
    assert |multiset(s)| == |s| && |multiset(t)| == |t|;
    if s != [] {
      assert s[0] in multiset(t) && t[0] in multiset(s);
      SameHead(s, t);
      TailBag(s);
      TailBag(t);
      SortedUnique(s[1..], t[1..]);
      assert s == [s[0]] + s[1..] && t == [t[0]] + t[1..];
    }
  }

  // ----- The published keys -----

  /** One algorithm's published keys. */
  function Part(r: Ring, alg: Algorithm): seq<KeyInfo> {
    (if alg in r.active then [r.active[alg]] else []) + RetiredOf(r, alg)
  }

  function ListFrom(r: Ring, algs: seq<Algorithm>): seq<KeyInfo> {
    if algs == [] then [] else Part(r, algs[0]) + ListFrom(r, algs[1..])
  }

  /** The kid-ordered list of published keys. */
  function Canonical(r: Ring): seq<KeyInfo> {
    Sort(ListFrom(r, ALL_ALGORITHMS))
  }

  lemma PartPlace(r: Ring, alg: Algorithm, i: nat) returns (p: Place)
    requires i < |Part(r, alg)|
    ensures Occupied(r, p) && p.alg == alg && KeyAt(r, p) == Part(r, alg)[i]
    ensures p == if alg in r.active && i == 0 then Signing(alg) else Kept(alg, if alg in r.active then i - 1 else i)
  {
    p := if alg in r.active && i == 0 then Signing(alg) else Kept(alg, if alg in r.active then i - 1 else i);
  }

  lemma {:induction false} ListPlace(r: Ring, algs: seq<Algorithm>, i: nat) returns (p: Place)
    requires i < |ListFrom(r, algs)|
    ensures Occupied(r, p) && p.alg in algs && KeyAt(r, p) == ListFrom(r, algs)[i]
  {
    if i < |Part(r, algs[0])| {
      p := PartPlace(r, algs[0], i);
    } else {
      p := ListPlace(r, algs[1..], i - |Part(r, algs[0])|);
    }
  }

  lemma {:induction false} PlaceListed(r: Ring, algs: seq<Algorithm>, p: Place)
    requires Occupied(r, p) && p.alg in algs
    ensures KeyAt(r, p) in ListFrom(r, algs)
  {
    if p.alg == algs[0] {
      if p.Signing? {
        assert Part(r, p.alg)[0] == KeyAt(r, p);
      } else {
        assert Part(r, p.alg)[if p.alg in r.active then p.index + 1 else p.index] == KeyAt(r, p);
      }
    } else {
      PlaceListed(r, algs[1..], p);
    }
  }

  lemma PartDistinct(r: Ring, alg: Algorithm)
    requires Sound(r)
    ensures DistinctKids(Part(r, alg))
  {
    var part := Part(r, alg);
    forall i, j | 0 <= i < j < |part| ensures part[i].kid != part[j].kid {
      var p := PartPlace(r, alg, i);
      var q := PartPlace(r, alg, j);
    }
  }

  /** Keys of different algorithms have different kids. */
  lemma AcrossDistinct(r: Ring, algs: seq<Algorithm>, i: nat, j: nat)
    requires Sound(r) && Distinct(algs) && algs != []
    requires i < |Part(r, algs[0])| && j < |ListFrom(r, algs[1..])|
    ensures Part(r, algs[0])[i].kid != ListFrom(r, algs[1..])[j].kid
  {
    var p := PartPlace(r, algs[0], i);
    var q := ListPlace(r, algs[1..], j);
  }

  lemma {:induction false} ListDistinct(r: Ring, algs: seq<Algorithm>)
    requires Sound(r) && Distinct(algs)
    ensures DistinctKids(ListFrom(r, algs))
  {
    if algs != [] {
      var part, rest := Part(r, algs[0]), ListFrom(r, algs[1..]);
      PartDistinct(r, algs[0]);
      ListDistinct(r, algs[1..]);
      forall i, j | 0 <= i < |part| && 0 <= j < |rest| ensures part[i].kid != rest[j].kid {
        AcrossDistinct(r, algs, i, j);
      }
    }
  }

  /** The list is kid-ordered and holds exactly the published keys. */
  lemma CanonicalHolds(r: Ring)
    requires Sound(r)
    ensures SortedByKid(Canonical(r))
    ensures forall k :: k in Canonical(r) <==> exists p :: Occupied(r, p) && KeyAt(r, p) == k
  {
    var all := ListFrom(r, ALL_ALGORITHMS);
    ListDistinct(r, ALL_ALGORITHMS);
    SortSorted(all);
    SortMultiset(all);
    forall k ensures k in Canonical(r) <==> exists p :: Occupied(r, p) && KeyAt(r, p) == k {
      assert k in Canonical(r) <==> k in multiset(Canonical(r)) <==> k in multiset(all) <==> k in all;
      if k in all {
        var i :| 0 <= i < |all| && all[i] == k;
        var p := ListPlace(r, ALL_ALGORITHMS, i);
      }
      if p :| Occupied(r, p) && KeyAt(r, p) == k {
        Listed(p.alg);
        PlaceListed(r, ALL_ALGORITHMS, p);
      }
    }
  }

  /** Whatever order the maps are walked in, sorting yields the same list. */
  lemma OrderIrrelevant(r: Ring, gathered: seq<KeyInfo>)
    requires Sound(r) && multiset(gathered) == multiset(ListFrom(r, ALL_ALGORITHMS))
    requires DistinctKids(gathered)
    ensures Sort(gathered) == Canonical(r)
  {
    ListDistinct(r, ALL_ALGORITHMS);
    SortSorted(gathered);
    SortSorted(ListFrom(r, ALL_ALGORITHMS));
    SortMultiset(gathered);
    SortMultiset(ListFrom(r, ALL_ALGORITHMS));
    SortedUnique(Sort(gathered), Canonical(r));
  }

  // ----- Lookups -----

  /** A public JWK as served: key id, key, and the signing algorithm it declares. */
  datatype Jwk = Jwk(kid: string, pub: PublicKey, alg: string)

  function ToJwk(k: KeyInfo): Jwk {
    Jwk(k.kid, k.pub, AlgName(k.alg))
  }

  function Jwks(r: Ring): seq<Jwk> {
    var keys := Canonical(r);
    seq(|keys|, i requires 0 <= i < |keys| => ToJwk(keys[i]))
  }

  /** The first JWK with the kid. */
  function LookupKeyID(jwks: seq<Jwk>, kid: string): Option<Jwk> {
    if jwks == [] then None
    else if jwks[0].kid == kid then Some(jwks[0])
    else LookupKeyID(jwks[1..], kid)
  }

  function PublicKeyIn(keys: seq<KeyInfo>, kid: string): Option<PublicKey> {
    if keys == [] then None
    else if keys[0].kid == kid then Some(keys[0].pub)
    else PublicKeyIn(keys[1..], kid)
  }

  function PublicKeyByKID(r: Ring, kid: string): Option<PublicKey> {
    PublicKeyIn(Canonical(r), kid)
  }

  /** `Lookup`: the key's public half and status, wherever the kid is. */
  ghost function Lookup(r: Ring, kid: string): Option<(PublicKey, KeyStatus)> {
    match WhereIs(r, kid)
    case Absent => None
    case Published(status, key) => Some((key.pub, status))
  }

  lemma {:induction false} FirstMatch(keys: seq<KeyInfo>, jwks: seq<Jwk>, kid: string)
    requires |jwks| == |keys| && forall i :: 0 <= i < |keys| ==> jwks[i] == ToJwk(keys[i])
    ensures PublicKeyIn(keys, kid).None? ==> LookupKeyID(jwks, kid).None? && forall k :: k in keys ==> k.kid != kid
    ensures PublicKeyIn(keys, kid).Some? ==>
              exists k :: k in keys && k.kid == kid && PublicKeyIn(keys, kid) == Some(k.pub) &&
                          LookupKeyID(jwks, kid) == Some(ToJwk(k))
  {
    if keys != [] {
      if keys[0].kid == kid {
        assert keys[0] in keys;
      } else {
        FirstMatch(keys[1..], jwks[1..], kid);
        assert keys == [keys[0]] + keys[1..];
      }
    }
  }

  /** Every view exposes the same key for a kid, and none exposes a key the others hide. */
  lemma ViewsAgree(r: Ring, kid: string)
    requires Sound(r)
    ensures Lookup(r, kid).None? ==>
              && PublicKeyByKID(r, kid).None? && LookupKeyID(Jwks(r), kid).None?
              && (forall k :: k in Canonical(r) ==> k.kid != kid)
    ensures Lookup(r, kid).Some? ==>
              var pub := Lookup(r, kid).value.0;
              && PublicKeyByKID(r, kid) == Some(pub)
              && LookupKeyID(Jwks(r), kid) == Some(Jwk(kid, pub, AlgName(pub.alg)))
              && (exists k :: k in Canonical(r) && k.kid == kid && k.pub == pub)
              && Lookup(r, kid).value.1 != Unknown
  {
    CanonicalHolds(r);
    FirstMatch(Canonical(r), Jwks(r), kid);
    if HasKid(r, kid) {
      var p := PlaceOf(r, kid);
      assert KeyFits(r, p);
      assert KeyAt(r, p) in Canonical(r);
      var k :| k in Canonical(r) && k.kid == kid && Some(k.pub) == PublicKeyByKID(r, kid) &&
               LookupKeyID(Jwks(r), kid) == Some(ToJwk(k));
      var q :| Occupied(r, q) && KeyAt(r, q) == k;
      assert p == q;
    }
  }

  // ----- The embedding API's view -----

  datatype KeyEntry = KeyEntry(kid: string, alg: Algorithm, createdAt: Time, retiredAt: Time, retired: bool)

  function ToEntry(k: KeyInfo): KeyEntry {
    KeyEntry(k.kid, k.alg, k.createdAt, k.retiredAt, k.retiredAt != ZERO_TIME)
  }

  function Keys(r: Ring): seq<KeyEntry> {
    var keys := Canonical(r);
    seq(|keys|, i requires 0 <= i < |keys| => ToEntry(keys[i]))
  }

  /** The embedding API lists exactly the published keys, by kid, each with its own times and the flag. */
  lemma KeysExactly(r: Ring)
    requires Sound(r)
    ensures forall i, j :: 0 <= i < j < |Keys(r)| ==> Less(Keys(r)[i].kid, Keys(r)[j].kid)
    ensures forall e :: e in Keys(r) <==> exists p :: Occupied(r, p) && Presents(e, KeyAt(r, p))
  {
    CanonicalHolds(r);
    forall e ensures e in Keys(r) <==> exists p :: Occupied(r, p) && Presents(e, KeyAt(r, p)) {
      if e in Keys(r) {
        var i :| 0 <= i < |Keys(r)| && Keys(r)[i] == e;
        assert Canonical(r)[i] in Canonical(r);
        var p :| Occupied(r, p) && KeyAt(r, p) == Canonical(r)[i];
        assert Presents(e, KeyAt(r, p));
      }
      if p :| Occupied(r, p) && Presents(e, KeyAt(r, p)) {
        assert KeyAt(r, p) in Canonical(r);
        var i :| 0 <= i < |Canonical(r)| && Canonical(r)[i] == KeyAt(r, p);
        assert Keys(r)[i] == e;
      }
    }
  }

  predicate Presents(e: KeyEntry, k: KeyInfo) {
    && e.kid == k.kid && e.alg == k.alg && e.createdAt == k.createdAt && e.retiredAt == k.retiredAt
    && (e.retired <==> k.retiredAt != ZERO_TIME)
  }

  /** No rotation so far was given the zero time. */
  ghost predicate Stamped(r: Ring) {
    forall p :: Occupied(r, p) && p.Kept? ==> KeyAt(r, p).retiredAt != ZERO_TIME
  }

  lemma EntryPlace(r: Ring, e: KeyEntry) returns (p: Place)
    requires Sound(r) && e in Keys(r)
    ensures Occupied(r, p) && e == ToEntry(KeyAt(r, p)) && Lookup(r, e.kid) == Some((KeyAt(r, p).pub, StatusAt(p)))
  {
    CanonicalHolds(r);
    var i :| 0 <= i < |Keys(r)| && Keys(r)[i] == e;
    assert Canonical(r)[i] in Canonical(r);
    p :| Occupied(r, p) && KeyAt(r, p) == Canonical(r)[i];
    WhereIsAt(r, p);
  }

  lemma PlaceEntry(r: Ring, p: Place)
    requires Sound(r) && Occupied(r, p)
    ensures ToEntry(KeyAt(r, p)) in Keys(r)
    ensures Lookup(r, KeyAt(r, p).kid) == Some((KeyAt(r, p).pub, StatusAt(p)))
  {
    CanonicalHolds(r);
    assert KeyAt(r, p) in Canonical(r);
    var i :| 0 <= i < |Canonical(r)| && Canonical(r)[i] == KeyAt(r, p);
    assert Keys(r)[i] == ToEntry(KeyAt(r, p));
    WhereIsAt(r, p);
  }

  ghost predicate FlagAgrees(r: Ring, e: KeyEntry) {
    Lookup(r, e.kid).Some? && (e.retired <==> Lookup(r, e.kid).value.1 == Retired)
  }

  /** The `Retired` flag agrees with `Lookup` on every key exactly when every retired key is stamped. */
  lemma RetiredFlagAgrees(r: Ring)
    requires Sound(r)
    ensures (forall e :: e in Keys(r) ==> FlagAgrees(r, e)) <==> Stamped(r)
  {
    if Stamped(r) {
      forall e | e in Keys(r) ensures FlagAgrees(r, e) {
        var p := EntryPlace(r, e);
        assert KeyFits(r, p);
      }
    } else {
      var p :| Occupied(r, p) && p.Kept? && KeyAt(r, p).retiredAt == ZERO_TIME;
      PlaceEntry(r, p);
      assert !FlagAgrees(r, ToEntry(KeyAt(r, p)));
    }
  }

  /** Rotating at a non-zero time and pruning at any time keep every retired key stamped. */
  lemma RotateStamped(r: Ring, now: Time, gen: Generation)
    requires r.active.Keys == r.enabled && Stamped(r) && now != ZERO_TIME
    ensures Stamped(RotateAt(r, now, gen).0)
  {
    var s := RotateAt(r, now, gen).0;
    forall p | Occupied(s, p) && p.Kept? ensures KeyAt(s, p).retiredAt != ZERO_TIME {
      RotateFromExactly(r, now, gen, ALL_ALGORITHMS, p.alg);
      if p.index < |RetiredOf(r, p.alg)| {
        assert Occupied(r, p) && KeyAt(r, p) == KeyAt(s, p);
      }
    }
  }

  lemma PruneStamped(r: Ring, now: Time)
    requires Stamped(r)
    ensures Stamped(PruneAt(r, now))
  {
    var s := PruneAt(r, now);
    forall p | Occupied(s, p) && p.Kept? ensures KeyAt(s, p).retiredAt != ZERO_TIME {
      var q := PruneOrigin(r, now, p);
    }
  }
}
