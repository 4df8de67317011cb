/**
 What rotation and pruning do to a ring, key by key. `WhereIs` follows one kid; every
 whole-run argument is made about it.
 */
module RingLaws {
  import opened Base
  import opened RingModel

  datatype Whereabouts = Absent | Published(status: KeyStatus, key: KeyInfo)

  ghost function WhereIs(r: Ring, kid: string): Whereabouts {
    if HasKid(r, kid) then
      var p :| Occupied(r, p) && KeyAt(r, p).kid == kid;
      Published(StatusAt(p), KeyAt(r, p))
    else
      Absent
  }

  lemma WhereIsAt(r: Ring, p: Place)
    requires Sound(r) && Occupied(r, p)
    ensures WhereIs(r, KeyAt(r, p).kid) == Published(StatusAt(p), KeyAt(r, p))
  {
  }

  lemma PlaceOf(r: Ring, kid: string) returns (p: Place)
    requires HasKid(r, kid)
    ensures Occupied(r, p) && KeyAt(r, p).kid == kid
    ensures WhereIs(r, kid) == Published(StatusAt(p), KeyAt(r, p))
  {
    p :| Occupied(r, p) && KeyAt(r, p).kid == kid && WhereIs(r, kid) == Published(StatusAt(p), KeyAt(r, p));
  }

  // ----- Rotation -----

  /** Where a place's key ends up when `alg` is replaced. */
  function Moved(r: Ring, alg: Algorithm, p: Place): Place {
    if p == Signing(alg) then Kept(alg, |RetiredOf(r, alg)|) else p
  }

  lemma ReplaceKeeps(r: Ring, alg: Algorithm, k: KeyInfo, now: Time, p: Place)
    requires alg in r.active && Occupied(r, p)
    ensures Occupied(Replace(r, alg, k, now), Moved(r, alg, p))
    ensures KeyAt(Replace(r, alg, k, now), Moved(r, alg, p)) ==
            if p == Signing(alg) then KeyAt(r, p).(retiredAt := now) else KeyAt(r, p)
  {
  }

  /** Every place after a replacement is the new key's or comes from an old place. */
  lemma ReplaceOrigin(r: Ring, alg: Algorithm, k: KeyInfo, now: Time, q: Place) returns (p: Place)
    requires alg in r.active && Occupied(Replace(r, alg, k, now), q)
    ensures q == Signing(alg) ==> KeyAt(Replace(r, alg, k, now), q) == k
    ensures q != Signing(alg) ==> Occupied(r, p) && q == Moved(r, alg, p)
  {
    p := if q == Kept(alg, |RetiredOf(r, alg)|) then Signing(alg) else q;
  }

  lemma ReplaceSound(r: Ring, alg: Algorithm, g: Generated, now: Time)
    requires Sound(r) && alg in r.enabled && g.kid != "" && !HasKid(r, g.kid)
    ensures Sound(Replace(r, alg, NewKey(alg, g), now))
  {
    var k := NewKey(alg, g);
    var s := Replace(r, alg, k, now);
    forall q | Occupied(s, q) ensures KeyFits(s, q) {
      var p := ReplaceOrigin(r, alg, k, now, q);
      if q != Signing(alg) {
        ReplaceKeeps(r, alg, k, now, p);
        assert KeyFits(r, p);
      }
    }
    forall q, q' | Occupied(s, q) && Occupied(s, q') && KeyAt(s, q).kid == KeyAt(s, q').kid
      ensures q == q'
    {
      var p := ReplaceOrigin(r, alg, k, now, q);
      var p' := ReplaceOrigin(r, alg, k, now, q');
      if q != Signing(alg) { ReplaceKeeps(r, alg, k, now, p); }
      if q' != Signing(alg) { ReplaceKeeps(r, alg, k, now, p'); }
    }
  }

  /** How one kid's whereabouts may change when the algorithms `algs` rotate. */
  ghost predicate RotatedKid(before: Whereabouts, after: Whereabouts, kid: string, now: Time,
                             gen: Generation, algs: seq<Algorithm>) {
    match before
    case Published(status, key) =>
      || after == before
      || (status == Active && key.alg in algs && after == Published(Retired, key.(retiredAt := now)))
    case Absent =>
      || after == Absent
      || exists alg :: alg in gen && alg in algs && gen[alg].kid == kid &&
                       after == Published(Active, NewKey(alg, gen[alg]))
  }

  lemma ReplaceKid(r: Ring, alg: Algorithm, gen: Generation, now: Time, kid: string)
    requires Sound(r) && alg in r.enabled && alg in gen && gen[alg].kid != "" && !HasKid(r, gen[alg].kid)
    ensures RotatedKid(WhereIs(r, kid), WhereIs(Replace(r, alg, NewKey(alg, gen[alg]), now), kid), kid, now, gen, [alg])
    ensures HasKid(Replace(r, alg, NewKey(alg, gen[alg]), now), kid) <==> HasKid(r, kid) || kid == gen[alg].kid
  {
    var k := NewKey(alg, gen[alg]);
    var s := Replace(r, alg, k, now);
    ReplaceSound(r, alg, gen[alg], now);
    assert KeyAt(s, Signing(alg)) == k;
    if HasKid(r, kid) {
      var p := PlaceOf(r, kid);
      ReplaceKeeps(r, alg, k, now, p);
      WhereIsAt(s, Moved(r, alg, p));
    } else if HasKid(s, kid) {
      var q := PlaceOf(s, kid);
      var p := ReplaceOrigin(r, alg, k, now, q);
      if q != Signing(alg) {
        ReplaceKeeps(r, alg, k, now, p);
        assert false;
      }
    } else {
      assert kid != k.kid;
    }
  }

  ghost predicate Distinct(algs: seq<Algorithm>) {
    forall i, j :: 0 <= i < j < |algs| ==> algs[i] != algs[j]
  }

  /** The kids `gen` offers for `algs` are usable: absent from the ring and pairwise different. */
  ghost predicate Offers(r: Ring, gen: Generation, algs: seq<Algorithm>) {
    && (forall alg :: alg in gen && alg in algs ==> gen[alg].kid != "" && !HasKid(r, gen[alg].kid))
    && (forall a, b :: a in gen && b in gen && gen[a].kid == gen[b].kid ==> a == b)
  }

  /**
   A rotation, complete or cut short by a failed generation, keeps the ring sound and
   moves each kid at most from signing to retired at `now`: nothing is unpublished.
   */
  lemma {:induction false} RotateFromKid(r: Ring, now: Time, gen: Generation, algs: seq<Algorithm>, kid: string)
    requires Sound(r) && Distinct(algs) && Offers(r, gen, algs)
    ensures Sound(RotateFrom(r, now, gen, algs).0)
    ensures RotateFrom(r, now, gen, algs).0.grace == r.grace && RotateFrom(r, now, gen, algs).0.enabled == r.enabled
    ensures RotatedKid(WhereIs(r, kid), WhereIs(RotateFrom(r, now, gen, algs).0, kid), kid, now, gen, algs)
    decreases |algs|
  {
    if algs == [] {
    } else if algs[0] !in r.enabled {
      RotateFromKid(r, now, gen, algs[1..], kid);
    } else if algs[0] in gen {
      var alg := algs[0];
      var s := Replace(r, alg, NewKey(alg, gen[alg]), now);
      assert alg in algs;
      ReplaceSound(r, alg, gen[alg], now);
      ReplaceKid(r, alg, gen, now, kid);
      forall b | b in gen && b in algs[1..] ensures gen[b].kid != "" && !HasKid(s, gen[b].kid) {
        ReplaceKid(r, alg, gen, now, gen[b].kid);
        assert b in algs;
      }
      RotateFromKid(s, now, gen, algs[1..], kid);
    }
  }

  lemma OffersFresh(r: Ring, gen: Generation, used: set<string>)
    requires FreshKids(gen, used) && forall kid :: HasKid(r, kid) ==> kid in used
    ensures Offers(r, gen, ALL_ALGORITHMS)
  {
  }

  lemma RotateKid(r: Ring, now: Time, gen: Generation, used: set<string>, kid: string)
    requires Sound(r) && FreshKids(gen, used) && forall k :: HasKid(r, k) ==> k in used
    ensures Sound(RotateAt(r, now, gen).0)
    ensures RotateAt(r, now, gen).0.grace == r.grace && RotateAt(r, now, gen).0.enabled == r.enabled
    ensures RotatedKid(WhereIs(r, kid), WhereIs(RotateAt(r, now, gen).0, kid), kid, now, gen, ALL_ALGORITHMS)
  {
    OffersFresh(r, gen, used);
    RotateFromKid(r, now, gen, ALL_ALGORITHMS, kid);
  }

  function Order(alg: Algorithm): nat {
    match alg
    case RS256 => 0
    case ES256 => 1
    case EdDSA => 2
  }

  lemma Listed(alg: Algorithm)
    ensures Order(alg) < |ALL_ALGORITHMS| && ALL_ALGORITHMS[Order(alg)] == alg && alg in ALL_ALGORITHMS
  {
    assert ALL_ALGORITHMS[0] == RS256 && ALL_ALGORITHMS[1] == ES256 && ALL_ALGORITHMS[2] == EdDSA;
  }

  ghost predicate ReplacedIn(r: Ring, s: Ring, alg: Algorithm, now: Time, gen: Generation) {
    && alg in gen && alg in r.active && alg in s.active && s.active[alg] == NewKey(alg, gen[alg])
    && RetiredOf(s, alg) == RetiredOf(r, alg) + [r.active[alg].(retiredAt := now)]
  }

  ghost predicate Untouched(r: Ring, s: Ring, alg: Algorithm) {
    && (alg in s.active <==> alg in r.active)
    && (alg in r.active ==> s.active[alg] == r.active[alg])
    && RetiredOf(s, alg) == RetiredOf(r, alg)
  }

  /** Generation succeeds for `alg` and for every enabled algorithm listed before it. */
  ghost predicate ReachedIn(enabled: set<Algorithm>, gen: Generation, algs: seq<Algorithm>, alg: Algorithm) {
    if algs == [] then false
    else if algs[0] == alg then alg in enabled && alg in gen
    else (algs[0] in enabled ==> algs[0] in gen) && ReachedIn(enabled, gen, algs[1..], alg)
  }

  lemma {:induction false} RotateFromExactly(r: Ring, now: Time, gen: Generation, algs: seq<Algorithm>, alg: Algorithm)
    requires r.active.Keys == r.enabled && Distinct(algs)
    ensures if ReachedIn(r.enabled, gen, algs, alg) then ReplacedIn(r, RotateFrom(r, now, gen, algs).0, alg, now, gen)
            else Untouched(r, RotateFrom(r, now, gen, algs).0, alg)
    ensures RotateFrom(r, now, gen, algs).1 ==>
              (alg in algs && alg in r.enabled ==> ReachedIn(r.enabled, gen, algs, alg))
    ensures !RotateFrom(r, now, gen, algs).1 ==> exists b :: b in algs && b in r.enabled && b !in gen
    decreases |algs|
  {
    if algs != [] {
      var first, rest := algs[0], algs[1..];
      assert algs == [first] + rest && first !in rest;
      if first !in r.enabled {
        RotateFromExactly(r, now, gen, rest, alg);
        NotListedNotReached(r.enabled, gen, rest, first);
      } else if first in gen {
        var s := Replace(r, first, NewKey(first, gen[first]), now);
        assert s.active.Keys == s.enabled;
        RotateFromExactly(s, now, gen, rest, alg);
        NotListedNotReached(s.enabled, gen, rest, first);
      }
    }
  }

  lemma {:induction false} NotListedNotReached(enabled: set<Algorithm>, gen: Generation, algs: seq<Algorithm>,
                                               alg: Algorithm)
    requires alg !in algs
    ensures !ReachedIn(enabled, gen, algs, alg)
  {
    if algs != [] {
      NotListedNotReached(enabled, gen, algs[1..], alg);
    }
  }

  /** An algorithm is reached when generation succeeded for it and all enabled ones before it. */
  ghost predicate Reached(r: Ring, gen: Generation, alg: Algorithm) {
    alg in r.enabled && forall b :: b in r.enabled && Order(b) <= Order(alg) ==> b in gen
  }

  lemma ReachedInOrder(r: Ring, gen: Generation, alg: Algorithm)
    ensures ReachedIn(r.enabled, gen, ALL_ALGORITHMS, alg) <==> Reached(r, gen, alg)
  {
    assert ALL_ALGORITHMS[1..] == [ES256, EdDSA] && [ES256, EdDSA][1..] == [EdDSA] && [EdDSA][1..] == [];
    assert ReachedIn(r.enabled, gen, [EdDSA], alg) <==> alg == EdDSA && EdDSA in r.enabled && EdDSA in gen;
    assert ReachedIn(r.enabled, gen, [ES256, EdDSA], alg) <==>
           if alg == ES256 then ES256 in r.enabled && ES256 in gen
           else (ES256 in r.enabled ==> ES256 in gen) && alg == EdDSA && EdDSA in r.enabled && EdDSA in gen;
    if ReachedIn(r.enabled, gen, ALL_ALGORITHMS, alg) {
      forall b | b in r.enabled && Order(b) <= Order(alg) ensures b in gen {
        match b
        case RS256 =>
        case ES256 =>
        case EdDSA =>
      }
    }
  }

  /** Exactly which algorithms a rotation replaces, and that it succeeds iff it reaches all. */
  lemma RotateExactly(r: Ring, now: Time, gen: Generation)
    requires Sound(r)
    ensures RotateAt(r, now, gen).1 <==> r.enabled <= gen.Keys
    ensures forall alg :: Reached(r, gen, alg) ==> ReplacedIn(r, RotateAt(r, now, gen).0, alg, now, gen)
    ensures forall alg :: !Reached(r, gen, alg) ==> Untouched(r, RotateAt(r, now, gen).0, alg)
  {
    forall alg: Algorithm
      ensures Reached(r, gen, alg) ==> ReplacedIn(r, RotateAt(r, now, gen).0, alg, now, gen)
      ensures !Reached(r, gen, alg) ==> Untouched(r, RotateAt(r, now, gen).0, alg)
      ensures RotateAt(r, now, gen).1 && alg in r.enabled ==> alg in gen
    {
      Listed(alg);
      ReachedInOrder(r, gen, alg);
      RotateFromExactly(r, now, gen, ALL_ALGORITHMS, alg);
    }
    RotateFromExactly(r, now, gen, ALL_ALGORITHMS, RS256);
  }

  // ----- Construction -----

  /** A ring that is sound except that some enabled algorithms still lack a key. */
  ghost predicate Filling(r: Ring, algs: seq<Algorithm>) {
    && r.enabled != {} && r.retired.Keys == r.enabled && (forall a :: a in r.retired ==> r.retired[a] == [])
    && r.active.Keys == set a | a in r.enabled && a !in algs
    && (forall p :: Occupied(r, p) ==> KeyFits(r, p))
    && (forall p, q :: Occupied(r, p) && Occupied(r, q) && KeyAt(r, p).kid == KeyAt(r, q).kid ==> p == q)
  }

  lemma {:induction false} FillSound(r: Ring, gen: Generation, algs: seq<Algorithm>)
    requires Filling(r, algs) && Distinct(algs) && Offers(r, gen, algs)
    ensures Fill(r, gen, algs).Some? ==>
              && Sound(Fill(r, gen, algs).value)
              && Fill(r, gen, algs).value.enabled == r.enabled && Fill(r, gen, algs).value.grace == r.grace
              && Fill(r, gen, algs).value.retired == r.retired
    ensures Fill(r, gen, algs).Some? <==> forall alg :: alg in r.enabled && alg in algs ==> alg in gen
    decreases |algs|
  {
    if algs == [] {
    } else {
      var alg, rest := algs[0], algs[1..];
      assert algs == [alg] + rest;
      if alg !in r.enabled {
        assert r.active.Keys == set a | a in r.enabled && a !in rest;
        FillSound(r, gen, rest);
      } else if alg in gen {
        var s := r.(active := r.active[alg := NewKey(alg, gen[alg])]);
        assert s.active.Keys == set a | a in s.enabled && a !in rest;
        assert forall p :: Occupied(s, p) ==>
                             p.Signing? && (p != Signing(alg) ==> Occupied(r, p) && KeyAt(r, p) == KeyAt(s, p));
        forall p | Occupied(s, p) ensures KeyFits(s, p) {
          if p != Signing(alg) { assert KeyFits(r, p); }
        }
        FillSound(s, gen, rest);
      }
    }
  }

  lemma {:induction false} FillGives(r: Ring, gen: Generation, algs: seq<Algorithm>, alg: Algorithm)
    requires Distinct(algs) && Fill(r, gen, algs).Some?
    ensures var s := Fill(r, gen, algs).value;
            if alg in algs && alg in r.enabled
            then alg in gen && alg in s.active && s.active[alg] == NewKey(alg, gen[alg])
            else alg in s.active <==> alg in r.active
    ensures var s := Fill(r, gen, algs).value;
            alg in r.active && !(alg in algs && alg in r.enabled) ==> s.active[alg] == r.active[alg]
    decreases |algs|
  {
    if algs != [] {
      assert algs == [algs[0]] + algs[1..];
      if algs[0] !in r.enabled {
        FillGives(r, gen, algs[1..], alg);
      } else {
        FillGives(r.(active := r.active[algs[0] := NewKey(algs[0], gen[algs[0]])]), gen, algs[1..], alg);
      }
    }
  }

  /** `New` succeeds exactly when an algorithm is enabled and each enabled one generates. */
  lemma NewRingSound(grace: int, enabled: set<Algorithm>, gen: Generation)
    requires FreshKids(gen, {})
    ensures NewRing(grace, enabled, gen).Some? <==> enabled != {} && enabled <= gen.Keys
    ensures NewRing(grace, enabled, gen).Some? ==>
              && Sound(NewRing(grace, enabled, gen).value)
              && NewRing(grace, enabled, gen).value.enabled == enabled
              && NewRing(grace, enabled, gen).value.grace == grace
              && NewRing(grace, enabled, gen).value.retired == map alg | alg in enabled :: []
    ensures NewRing(grace, enabled, gen).Some? ==> forall alg :: alg in enabled ==>
              && alg in gen && alg in NewRing(grace, enabled, gen).value.active
              && NewRing(grace, enabled, gen).value.active[alg] ==
                 KeyInfo(gen[alg].kid, PublicKey(alg, gen[alg].material), alg, gen[alg].createdAt, ZERO_TIME, false)
  {
    if enabled != {} {
      var r := Ring(grace, enabled, map[], map alg | alg in enabled :: []);
      forall alg: Algorithm ensures alg in ALL_ALGORITHMS {
        Listed(alg);
      }
      assert Filling(r, ALL_ALGORITHMS);
      FillSound(r, gen, ALL_ALGORITHMS);
      forall alg | alg in enabled && Fill(r, gen, ALL_ALGORITHMS).Some? {
        FillGives(r, gen, ALL_ALGORITHMS, alg);
      }
    }
  }

  // ----- Pruning -----

  /** The positions, among the first `n`, of the keys that pruning keeps. */
  ghost function Origins(keys: seq<KeyInfo>, n: nat, now: Time, grace: int): (from: seq<nat>)
    requires n <= |keys|
    ensures forall i :: 0 <= i < |from| ==> from[i] < n
  {
    if n == 0 then []
    else Origins(keys, n - 1, now, grace) + (if InGrace(keys[n - 1], now, grace) then [n - 1] else [])
  }

  lemma {:induction false} OriginsAreLive(keys: seq<KeyInfo>, n: nat, now: Time, grace: int)
    requires n <= |keys|
    ensures |Origins(keys, n, now, grace)| == |Live(keys[..n], now, grace)|
    ensures forall i :: 0 <= i < |Origins(keys, n, now, grace)| ==>
              && Origins(keys, n, now, grace)[i] < n
              && keys[Origins(keys, n, now, grace)[i]] == Live(keys[..n], now, grace)[i]
              && InGrace(keys[Origins(keys, n, now, grace)[i]], now, grace)
    ensures forall i, j :: 0 <= i < j < |Origins(keys, n, now, grace)| ==>
              Origins(keys, n, now, grace)[i] < Origins(keys, n, now, grace)[j]
  {
    if n > 0 {
      assert keys[..n][..n - 1] == keys[..n - 1];
      OriginsAreLive(keys, n - 1, now, grace);
    }
  }

  lemma {:induction false} OriginsExactly(keys: seq<KeyInfo>, n: nat, now: Time, grace: int, i: nat)
    requires n <= |keys|
    ensures i in Origins(keys, n, now, grace) <==> i < n && InGrace(keys[i], now, grace)
  {
    if n > 0 {
      OriginsExactly(keys, n - 1, now, grace, i);
    }
  }

  /** `Live` keeps exactly the keys in grace. */
  lemma {:induction false} LiveExactly(keys: seq<KeyInfo>, now: Time, grace: int, k: KeyInfo)
    ensures k in Live(keys, now, grace) <==> k in keys && InGrace(k, now, grace)
  {
    if keys != [] {
      var n := |keys| - 1;
      LiveExactly(keys[..n], now, grace, k);
      assert keys == keys[..n] + [keys[n]];
    }
  }

  lemma PruneOrigin(r: Ring, now: Time, q: Place) returns (p: Place)
    requires Occupied(PruneAt(r, now), q)
    ensures Occupied(r, p) && KeyAt(r, p) == KeyAt(PruneAt(r, now), q) && StatusAt(p) == StatusAt(q)
    ensures p.alg == q.alg
    ensures q.Kept? ==> p.Kept? && InGrace(KeyAt(r, p), now, r.grace)
    ensures q.Kept? ==> var from := Origins(r.retired[q.alg], |r.retired[q.alg]|, now, r.grace);
                        q.index < |from| && p.index == from[q.index]
    ensures q.Signing? ==> p == q
  {
    if q.Kept? {
      var keys := r.retired[q.alg];
      OriginsAreLive(keys, |keys|, now, r.grace);
      assert keys[..|keys|] == keys;
      p := Kept(q.alg, Origins(keys, |keys|, now, r.grace)[q.index]);
    } else {
      p := q;
    }
  }

  lemma PruneSound(r: Ring, now: Time)
    requires Sound(r)
    ensures Sound(PruneAt(r, now))
  {
    var s := PruneAt(r, now);
    forall q | Occupied(s, q) ensures KeyFits(s, q) {
      var p := PruneOrigin(r, now, q);
      assert KeyFits(r, p);
    }
    forall q, q' | Occupied(s, q) && Occupied(s, q') && KeyAt(s, q).kid == KeyAt(s, q').kid
      ensures q == q'
    {
      var p := PruneOrigin(r, now, q);
      var p' := PruneOrigin(r, now, q');
      assert p == p';
      if q.Kept? { OriginsAreLive(r.retired[q.alg], |r.retired[q.alg]|, now, r.grace); }
    }
  }

  /** Pruning removes exactly the retired keys whose grace has run out and changes nothing else. */
  lemma PruneKid(r: Ring, now: Time, kid: string)
    requires Sound(r)
    ensures WhereIs(PruneAt(r, now), kid) ==
            match WhereIs(r, kid)
            case Absent => Absent
            case Published(status, key) =>
              if status == Retired && !InGrace(key, now, r.grace) then Absent else WhereIs(r, kid)
  {
    var s := PruneAt(r, now);
    PruneSound(r, now);
    if HasKid(r, kid) {
      var p := PlaceOf(r, kid);
      if p.Signing? {
        WhereIsAt(s, p);
      } else if InGrace(KeyAt(r, p), now, r.grace) {
        LiveExactly(r.retired[p.alg], now, r.grace, KeyAt(r, p));
        var i :| 0 <= i < |s.retired[p.alg]| && s.retired[p.alg][i] == KeyAt(r, p);
        WhereIsAt(s, Kept(p.alg, i));
      } else if HasKid(s, kid) {
        var q := PlaceOf(s, kid);
        var origin := PruneOrigin(r, now, q);
        assert false;
      }
    } else if HasKid(s, kid) {
      var q := PlaceOf(s, kid);
      var origin := PruneOrigin(r, now, q);
      assert false;
    }
  }

  lemma {:induction false} LiveCompose(keys: seq<KeyInfo>, t1: Time, t2: Time, grace: int)
    requires t1 <= t2
    ensures Live(Live(keys, t1, grace), t2, grace) == Live(keys, t2, grace)
  {
    if keys != [] {
      var n := |keys| - 1;
      var first := Live(keys[..n], t1, grace);
      LiveCompose(keys[..n], t1, t2, grace);
      if InGrace(keys[n], t1, grace) {
        assert (first + [keys[n]])[..|first|] == first;
      } else {
        assert first + [] == first;
      }
    }
  }

  /** Pruning at two times in order is pruning at the later one. */
  lemma PruneCompose(r: Ring, t1: Time, t2: Time)
    requires t1 <= t2
    ensures PruneAt(PruneAt(r, t1), t2) == PruneAt(r, t2)
  {
    forall alg | alg in r.retired
      ensures Live(Live(r.retired[alg], t1, r.grace), t2, r.grace) == Live(r.retired[alg], t2, r.grace)
    {
      LiveCompose(r.retired[alg], t1, t2, r.grace);
    }
    assert PruneAt(PruneAt(r, t1), t2).retired == PruneAt(r, t2).retired;
  }
}
