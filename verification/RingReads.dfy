/**
 Reading the key ring in place: the signer, the lookup by kid, and the sorted key list behind
 the other views (internal/keyring/keyring.go). Go walks its maps in no fixed order, and so
 do these loops.
 */
module RingReads {
  import opened Base
  import opened RingModel
  import opened RingLaws
  import opened KeySlice
  import opened KeyRings
  import Views

  // ----- One algorithm -----

  method ActiveOf(lane: Lane) returns (k: KeyInfo)
    requires lane.Valid()
    ensures k == lane.signing
  {
    k := lane.active.Info();
  }

  method FindIn(lane: Lane, kid: string) returns (found: Option<KeyInfo>)
    requires lane.Valid()
    ensures found.Some? ==> found.value in lane.kept && found.value.kid == kid
    ensures found.None? ==> forall k :: k in lane.kept ==> k.kid != kid
  {
    var key := lane.retired.Find(kid);
    if key.Some? {
      ghost var i :| 0 <= i < |lane.retired.keys| && lane.retired.keys[i] == key.value;
      assert lane.kept[i] == key.value.Info();
      return Some(key.value.Info());
    }
    return None;
  }

  method CopyRetired(lane: Lane, gathered: seq<KeyInfo>) returns (all: seq<KeyInfo>)
    requires lane.Valid()
    ensures all == gathered + lane.kept
  {
    all := lane.retired.CopyTo(gathered);
  }

  // ----- Signer and lookup -----

  method SignerOf(ring: KeyRing, alg: Algorithm, ghost r: Ring) returns (signer: Result<KeyInfo, SignerError>)
    requires ring.Shape() && ring.Holds(r)
    ensures signer == Signer(r, alg)
  {
    if alg !in ring.lanes {
      return Err(UnsupportedAlg);
    }
    var k := ActiveOf(ring.lanes[alg]);
    return Ok(k);
  }

  /** The active key with the kid, the algorithms in any order. */
  method FindActive(ring: KeyRing, kid: string, ghost r: Ring) returns (found: Option<KeyInfo>)
    requires ring.Shape() && ring.Holds(r)
    ensures found.Some? ==> exists a :: a in r.active && r.active[a] == found.value && found.value.kid == kid
    ensures found.None? ==> forall a :: a in r.active ==> r.active[a].kid != kid
  {
    var done: set<Algorithm> := {};
    while done != ring.lanes.Keys
      invariant done <= ring.lanes.Keys && forall a :: a in done ==> r.active[a].kid != kid
      decreases ring.lanes.Keys - done
    {
      var alg :| alg in ring.lanes.Keys - done;
      var k := ActiveOf(ring.lanes[alg]);
      assert r.active[alg] == k;
      if k.kid == kid {
        return Some(k);
      }
      done := done + {alg};
    }
    return None;
  }

  method FindRetired(ring: KeyRing, kid: string, ghost r: Ring) returns (found: Option<KeyInfo>)
    requires ring.Shape() && ring.Holds(r)
    ensures found.Some? ==> exists a :: a in r.retired && found.value in r.retired[a] && found.value.kid == kid
    ensures found.None? ==> forall a, k :: a in r.retired && k in r.retired[a] ==> k.kid != kid
  {
    var done: set<Algorithm> := {};
    while done != ring.lanes.Keys
      invariant done <= ring.lanes.Keys && forall a, k :: a in done && k in r.retired[a] ==> k.kid != kid
      decreases ring.lanes.Keys - done
    {
      var alg :| alg in ring.lanes.Keys - done;
      found := FindIn(ring.lanes[alg], kid);
      assert r.retired[alg] == ring.lanes[alg].kept;
      if found.Some? {
        return found;
      }
      done := done + {alg};
    }
    return None;
  }

  /** `Lookup`: the active keys first, then the retired ones. */
  method Lookup(ring: KeyRing, kid: string, ghost r: Ring) returns (found: Option<(PublicKey, KeyStatus)>)
    requires ring.Shape() && ring.Holds(r) && Sound(r)
    ensures found == Views.Lookup(r, kid)
  {
    var active := FindActive(ring, kid, r);
    if active.Some? {
      ActiveFound(r, kid, active.value);
      return Some((active.value.pub, Active));
    }
    var retired := FindRetired(ring, kid, r);
    if retired.Some? {
      RetiredFound(r, kid, retired.value);
      return Some((retired.value.pub, Retired));
    }
    Nowhere(r, kid);
    return None;
  }

  lemma ActiveFound(r: Ring, kid: string, k: KeyInfo)
    requires Sound(r) && k.kid == kid && exists a :: a in r.active && r.active[a] == k
    ensures Views.Lookup(r, kid) == Some((k.pub, Active))
  {
    var a :| a in r.active && r.active[a] == k;
    WhereIsAt(r, Signing(a));
  }

  lemma RetiredFound(r: Ring, kid: string, k: KeyInfo)
    requires Sound(r) && k.kid == kid && exists a :: a in r.retired && k in r.retired[a]
    ensures Views.Lookup(r, kid) == Some((k.pub, Retired))
  {
    var a :| a in r.retired && k in r.retired[a];
    var i :| 0 <= i < |r.retired[a]| && r.retired[a][i] == k;
    WhereIsAt(r, Kept(a, i));
  }

  lemma Nowhere(r: Ring, kid: string)
    requires forall a :: a in r.active ==> r.active[a].kid != kid
    requires forall a, k :: a in r.retired && k in r.retired[a] ==> k.kid != kid
    ensures Views.Lookup(r, kid) == None
  {
    if HasKid(r, kid) {
      var p := PlaceOf(r, kid);
      assert false;
    }
  }

  // ----- The sorted list -----

  method GatherActive(ring: KeyRing, ghost r: Ring) returns (gathered: seq<KeyInfo>)
    requires ring.Shape() && ring.Holds(r)
    ensures multiset(gathered) == Bag(r, ALL_ALGORITHMS, r.enabled, {})
  {
    gathered := [];
    BagNothing(r, ALL_ALGORITHMS);
    var done: set<Algorithm> := {};
    while done != ring.lanes.Keys
      invariant done <= ring.lanes.Keys && multiset(gathered) == Bag(r, ALL_ALGORITHMS, done, {})
      decreases ring.lanes.Keys - done
    {
      var alg :| alg in ring.lanes.Keys - done;
      var k := ActiveOf(ring.lanes[alg]);
      GatheredActive(r, gathered, done, alg);
      gathered := gathered + [k];
      done := done + {alg};
    }
  }

  method GatherRetired(ring: KeyRing, active: seq<KeyInfo>, ghost r: Ring) returns (gathered: seq<KeyInfo>)
    requires ring.Shape() && ring.Holds(r) && multiset(active) == Bag(r, ALL_ALGORITHMS, r.enabled, {})
    ensures multiset(gathered) == Bag(r, ALL_ALGORITHMS, r.enabled, r.enabled)
  {
    gathered := active;
    var done: set<Algorithm> := {};
    while done != ring.lanes.Keys
      invariant done <= ring.lanes.Keys && multiset(gathered) == Bag(r, ALL_ALGORITHMS, r.enabled, done)
      decreases ring.lanes.Keys - done
    {
      var alg :| alg in ring.lanes.Keys - done;
      GatheredRetired(r, gathered, done, alg);
      gathered := CopyRetired(ring.lanes[alg], gathered);
      done := done + {alg};
    }
  }

  /** `sortedKeysUnlocked`: whatever order the tables are walked in, the list is the canonical one. */
  method SortedKeys(ring: KeyRing, ghost r: Ring) returns (keys: seq<KeyInfo>)
    requires ring.Shape() && ring.Holds(r) && Sound(r)
    ensures keys == Views.Canonical(r)
  {
    var active := GatherActive(ring, r);
    var gathered := GatherRetired(ring, active, r);
    GatheredSorts(r, gathered);
    keys := Views.Sort(gathered);
  }

  lemma GatheredActive(r: Ring, gathered: seq<KeyInfo>, done: set<Algorithm>, alg: Algorithm)
    requires multiset(gathered) == Bag(r, ALL_ALGORITHMS, done, {}) && alg in r.active && alg !in done
    ensures multiset(gathered + [r.active[alg]]) == Bag(r, ALL_ALGORITHMS, done + {alg}, {})
  {
    BagActive(r, ALL_ALGORITHMS, done, {}, alg);
    Listed(alg);
  }

  lemma GatheredRetired(r: Ring, gathered: seq<KeyInfo>, done: set<Algorithm>, alg: Algorithm)
    requires multiset(gathered) == Bag(r, ALL_ALGORITHMS, r.enabled, done) && alg in r.retired && alg !in done
    ensures multiset(gathered + r.retired[alg]) == Bag(r, ALL_ALGORITHMS, r.enabled, done + {alg})
  {
    BagRetired(r, ALL_ALGORITHMS, r.enabled, done, alg);
    Listed(alg);
  }

  lemma GatheredSorts(r: Ring, gathered: seq<KeyInfo>)
    requires Sound(r) && multiset(gathered) == Bag(r, ALL_ALGORITHMS, r.enabled, r.enabled)
    ensures Views.Sort(gathered) == Views.Canonical(r)
  {
    BagAll(r, ALL_ALGORITHMS);
    Views.ListDistinct(r, ALL_ALGORITHMS);
    SameBagDistinct(gathered, Views.ListFrom(r, ALL_ALGORITHMS));
    Views.OrderIrrelevant(r, gathered);
  }

  /** The active keys of the algorithms in `act` and the retired keys of those in `ret`. */
  ghost function Bag(r: Ring, algs: seq<Algorithm>, act: set<Algorithm>, ret: set<Algorithm>): multiset<KeyInfo> {
    if algs == [] then multiset{}
    else
      (if algs[0] in act && algs[0] in r.active then multiset{r.active[algs[0]]} else multiset{})
      + (if algs[0] in ret then multiset(RetiredOf(r, algs[0])) else multiset{})
      + Bag(r, algs[1..], act, ret)
  }

  lemma {:induction false} BagActive(r: Ring, algs: seq<Algorithm>, act: set<Algorithm>, ret: set<Algorithm>,
                                     alg: Algorithm)
    requires Distinct(algs) && alg in r.active && alg !in act
    ensures Bag(r, algs, act + {alg}, ret) ==
            Bag(r, algs, act, ret) + (if alg in algs then multiset{r.active[alg]} else multiset{})
  {
    if algs != [] {
      BagActive(r, algs[1..], act, ret, alg);
    }
  }

  lemma {:induction false} BagRetired(r: Ring, algs: seq<Algorithm>, act: set<Algorithm>, ret: set<Algorithm>,
                                      alg: Algorithm)
    requires Distinct(algs) && alg !in ret
    ensures Bag(r, algs, act, ret + {alg}) ==
            Bag(r, algs, act, ret) + (if alg in algs then multiset(RetiredOf(r, alg)) else multiset{})
  {
    if algs != [] {
      BagRetired(r, algs[1..], act, ret, alg);
    }
  }

  lemma {:induction false} BagNothing(r: Ring, algs: seq<Algorithm>)
    ensures Bag(r, algs, {}, {}) == multiset{}
  {
    if algs != [] {
      BagNothing(r, algs[1..]);
    }
  }

  lemma {:induction false} BagAll(r: Ring, algs: seq<Algorithm>)
    requires r.active.Keys == r.enabled && r.retired.Keys == r.enabled
    ensures Bag(r, algs, r.enabled, r.enabled) == multiset(Views.ListFrom(r, algs))
  {
    if algs != [] {
      BagAll(r, algs[1..]);
      var alg := algs[0];
      assert multiset(Views.Part(r, alg)) ==
             (if alg in r.active then multiset{r.active[alg]} else multiset{}) + multiset(RetiredOf(r, alg));
    }
  }

  lemma SameBagDistinct(s: seq<KeyInfo>, t: seq<KeyInfo>)
    requires multiset(s) == multiset(t) && Views.DistinctKids(t)
    ensures Views.DistinctKids(s)
  {
    forall i, j | 0 <= i < j < |s| ensures s[i].kid != s[j].kid {
      if s[i].kid == s[j].kid {
        assert s[i] in multiset(t) && s[j] in multiset(t);
        assert s[i] == s[j];
        Twice(s, i, j);
        Once(t, s[i]);
      }
    }
  }

  lemma Twice(s: seq<KeyInfo>, i: nat, j: nat)
    requires i < j < |s| && s[i] == s[j]
    ensures multiset(s)[s[i]] >= 2
  {
    assert s == s[..i] + [s[i]] + s[i + 1..j] + [s[j]] + s[j + 1..];
  }

  lemma {:induction false} Once(t: seq<KeyInfo>, k: KeyInfo)
    requires Views.DistinctKids(t)
    ensures multiset(t)[k] <= 1
  {
    if t != [] {
      assert t == [t[0]] + t[1..];
      Once(t[1..], k);
      if t[0] == k {
        assert k !in t[1..];
      }
    }
  }
}
