/**
 The key ring that rotation and pruning update in place (internal/keyring/keyring.go).
 The two Go maps, `active` and `retired`, have the same keys; a `Lane` is the pair of
 entries of one algorithm. `Holds` says that the objects hold a `RingModel.Ring`, and every
 method acts on that value as the function of the same name does. The mutex makes each
 method atomic.
 */
module KeyRings {
  import opened Base
  import opened RingModel
  import opened RingLaws
  import opened KeySlice

  /** The private half of an RSA or Ed25519 key is gone; that of an ECDSA key is left to the collector. */
  predicate Destroyed(k: Key)
    reads k
  {
    k.wiped || k.alg == ES256
  }

  /**
   One algorithm's active key and its retired keys. `signing` and `kept` are their values;
   `Valid` ties them to the objects. A lane goes on owning the keys it drops, and every one of
   them is destroyed.
   */
  class Lane {
    const alg: Algorithm
    var active: Key
    const retired: RetiredList
    ghost var signing: KeyInfo
    ghost var kept: seq<KeyInfo>
    ghost var Repr: set<object>

    ghost predicate Valid()
      reads this, Repr
      ensures Valid() ==> this in Repr
    {
      && this in Repr && active in Repr && retired in Repr && retired.Repr <= Repr
      && this !in retired.Repr && active !in retired.Repr
      && retired.Valid()
      && signing == active.Info() && kept == Infos(retired.keys)
      && (forall k: Key :: k in Repr ==> k == active || k in retired.keys || Destroyed(k))
    }

    constructor (alg: Algorithm, g: Generated)
      ensures Valid() && fresh(Repr) && this.alg == alg
      ensures signing == NewKey(alg, g) && kept == []
    {
      this.alg := alg;
      active := new Key(alg, g);
      retired := new RetiredList();
      new;
      Repr := {this, active} + retired.Repr;
      signing, kept := NewKey(alg, g), [];
    }

    /** Stamps the active key, appends it to the retired ones, and installs a new one. */
    method Rotate(g: Generated, now: Time)
      requires Valid()
      modifies Repr
      ensures Valid() && fresh(Repr - old(Repr))
      ensures signing == NewKey(alg, g)
      ensures kept == old(kept) + [old(signing).(retiredAt := now)]
    {
      signing, kept := NewKey(alg, g), kept + [signing.(retiredAt := now)];
      var k := new Key(alg, g);
      var previous := active;
      previous.retiredAt := now;
      retired.Append(previous);
      active := k;
      Repr := Repr + {k} + retired.Repr;
      forall o: Key | o in Repr && o != k ensures o in retired.keys || Destroyed(o) {
        assert o in old(Repr);
      }
    }

    /** Drops and zeroizes the retired keys out of grace, in place. */
    method Prune(now: Time, grace: int)
      requires Valid()
      modifies Repr
      ensures Valid() && Repr == old(Repr) && active == old(active) && retired.slots == old(retired.slots)
      ensures signing == old(signing) && kept == Live(old(kept), now, grace)
      ensures retired.Compacted(old(retired.keys), old(kept), now, grace)
      ensures forall k :: k in old(retired.keys) ==> Passed(k, now, grace)
    {
      kept := Live(kept, now, grace);
      retired.Compact(now, grace);
    }
  }

  /** What the lane owns was its own before or is newly allocated. */
  twostate predicate Grown(lane: Lane)
    reads lane
  {
    forall o :: o in lane.Repr ==> o in old(lane.Repr) || !old(allocated(o))
  }

  class KeyRing {
    const grace: int
    const lanes: map<Algorithm, Lane>

    constructor (grace: int, lanes: map<Algorithm, Lane>)
      ensures this.grace == grace && this.lanes == lanes
    {
      this.grace := grace;
      this.lanes := lanes;
    }

    ghost function Repr(): set<object>
      reads lanes.Values
    {
      set a, o | a in lanes && o in lanes[a].Repr :: o
    }

    /** The lanes share nothing. */
    ghost predicate Shape()
      reads lanes.Values, Repr()
    {
      && (forall a :: a in lanes ==> lanes[a].Valid() && lanes[a].alg == a && this !in lanes[a].Repr)
      && (forall a, b :: a in lanes && b in lanes && a != b ==> lanes[a].Repr !! lanes[b].Repr)
    }

    /** `r` is the value the lanes hold. */
    ghost predicate Holds(r: Ring)
      reads lanes.Values
    {
      && r.grace == grace && r.enabled == r.active.Keys == r.retired.Keys == lanes.Keys
      && (forall a :: a in lanes ==> r.active[a] == lanes[a].signing)
      && (forall a :: a in lanes ==> r.retired[a] == lanes[a].kept)
    }

    // ----- Rotation -----

    /** One algorithm's turn in the rotation loop. */
    method RotateOne(alg: Algorithm, g: Generated, now: Time)
      requires Shape() && alg in lanes
      modifies lanes[alg].Repr
      ensures Shape() && Grown(lanes[alg])
      ensures lanes[alg].signing == NewKey(alg, g)
      ensures lanes[alg].kept == old(lanes[alg].kept) + [old(lanes[alg].signing).(retiredAt := now)]
      ensures forall a :: a in lanes && a != alg ==> lanes[a].Repr == old(lanes[a].Repr)
      ensures forall a :: a in lanes && a != alg ==> lanes[a].signing == old(lanes[a].signing)
      ensures forall a :: a in lanes && a != alg ==> lanes[a].kept == old(lanes[a].kept)
    {
      lanes[alg].Rotate(g, now);
    }

    lemma HoldsReplaced(r: Ring, alg: Algorithm, g: Generated, now: Time)
      requires alg in lanes && r.grace == grace && r.enabled == r.active.Keys == r.retired.Keys == lanes.Keys
      requires lanes[alg].signing == NewKey(alg, g)
      requires lanes[alg].kept == r.retired[alg] + [r.active[alg].(retiredAt := now)]
      requires forall a :: a in lanes && a != alg ==> r.active[a] == lanes[a].signing
      requires forall a :: a in lanes && a != alg ==> r.retired[a] == lanes[a].kept
      ensures Holds(Replace(r, alg, NewKey(alg, g), now))
    {
    }

    /** One pass of the rotation loop; false when the algorithm's key fails to generate. */
    method RotateStep(alg: Algorithm, gen: Generation, now: Time, ghost r: Ring) returns (ok: bool)
      requires Shape() && Holds(r) && alg in lanes
      modifies lanes[alg].Repr
      ensures Shape() && Grown(lanes[alg])
      ensures forall a :: a in lanes && a != alg ==> lanes[a].Repr == old(lanes[a].Repr)
      ensures ok == RotatePass(r, alg, gen, now).1
      ensures Holds(RotatePass(r, alg, gen, now).0)
    {
      ok := alg in gen;
      if ok {
        RotateOne(alg, gen[alg], now);
        HoldsReplaced(r, alg, gen[alg], now);
      }
    }

    /** `RotateAt`: true when every enabled algorithm got a new key. */
    method RotateAt(now: Time, gen: Generation, ghost r: Ring) returns (ok: bool)
      requires Shape() && Holds(r)
      modifies set a, o | a in lanes && o in lanes[a].Repr :: o
      ensures Shape() && forall a :: a in lanes ==> Grown(lanes[a])
      ensures ok == RotateFrom(r, now, gen, ALL_ALGORITHMS).1
      ensures Holds(RotateFrom(r, now, gen, ALL_ALGORITHMS).0)
    {
      ghost var target := Remaining(r, true, now, gen, 0);
      ghost var s := r;
      ok := true;
      var i := 0;
      while ok && i < |ALL_ALGORITHMS|
        invariant 0 <= i <= |ALL_ALGORITHMS| && Shape()
        invariant forall a :: a in lanes ==> Grown(lanes[a])
        invariant Holds(s)
        invariant target == Remaining(s, ok, now, gen, i)
      {
        var alg := ALL_ALGORITHMS[i];
        if alg in lanes {
          label turn:
          ok := RotateStep(alg, gen, now, s);
          forall a | a in lanes ensures Grown(lanes[a]) {
            assert a != alg ==> lanes[a].Repr == old@turn(lanes[a].Repr);
          }
        }
        RotateFromHead(s, now, gen, i);
        s := RotatePass(s, alg, gen, now).0;
        i := i + 1;
      }
      assert ALL_ALGORITHMS[0..] == ALL_ALGORITHMS && (ok ==> ALL_ALGORITHMS[i..] == []);
    }

    /** One algorithm's turn in the pruning loop. */
    method PruneOne(alg: Algorithm, now: Time)
      requires Shape() && alg in lanes
      modifies lanes[alg].Repr
      ensures Shape() && lanes[alg].Repr == old(lanes[alg].Repr)
      ensures lanes[alg].signing == old(lanes[alg].signing)
      ensures lanes[alg].kept == Live(old(lanes[alg].kept), now, grace)
      ensures forall a :: a in lanes ==> lanes[a].active == old(lanes[a].active)
      ensures forall a :: a in lanes && a != alg ==> lanes[a].Repr == old(lanes[a].Repr)
      ensures forall a :: a in lanes && a != alg ==> lanes[a].signing == old(lanes[a].signing)
      ensures forall a :: a in lanes && a != alg ==> lanes[a].kept == old(lanes[a].kept)
    {
      lanes[alg].Prune(now, grace);
    }

    /** One pass of the pruning loop. */
    method PruneStep(alg: Algorithm, now: Time, ghost r: Ring)
      requires Shape() && Holds(r) && alg in lanes
      modifies lanes[alg].Repr
      ensures Shape() && forall a :: a in lanes ==> lanes[a].Repr == old(lanes[a].Repr)
      ensures forall a :: a in lanes ==> lanes[a].active == old(lanes[a].active)
      ensures Holds(PruneLane(r, alg, now))
    {
      PruneOne(alg, now);
      HoldsPruned(r, alg, now);
    }

    lemma HoldsPruned(r: Ring, alg: Algorithm, now: Time)
      requires alg in lanes && r.grace == grace && r.enabled == r.active.Keys == r.retired.Keys == lanes.Keys
      requires forall a :: a in lanes ==> r.active[a] == lanes[a].signing
      requires lanes[alg].kept == Live(r.retired[alg], now, grace)
      requires forall a :: a in lanes && a != alg ==> r.retired[a] == lanes[a].kept
      ensures Holds(PruneLane(r, alg, now))
    {
    }

    /** `PruneAt`, visiting the algorithms in any order. */
    method PruneAt(now: Time, ghost r: Ring)
      requires Shape() && Holds(r)
      modifies Repr()
      ensures Shape() && forall a :: a in lanes ==> lanes[a].Repr == old(lanes[a].Repr)
      ensures Holds(RingModel.PruneAt(r, now))
      ensures forall a, k :: a in lanes && k in old(lanes[a].retired.keys) ==>
                k in lanes[a].retired.keys || Destroyed(k)
    {
      var todo := lanes.Keys;
      PrunedNone(r, now);
      while todo != {}
        invariant todo <= lanes.Keys && Shape()
        invariant forall a :: a in lanes ==> lanes[a].Repr == old(lanes[a].Repr)
        invariant forall a :: a in lanes ==> lanes[a].active == old(lanes[a].active)
        invariant Holds(PrunedBut(r, todo, now))
        decreases todo
      {
        var alg :| alg in todo;
        PruneStep(alg, now, PrunedBut(r, todo, now));
        PrunedMore(r, todo, alg, now);
        todo := todo - {alg};
      }
      PrunedAll(r, now);
    }
  }

  /** The ring when every algorithm outside `todo` has been pruned. */
  ghost function PrunedBut(r: Ring, todo: set<Algorithm>, now: Time): Ring {
    r.(retired := map a | a in r.retired :: if a in todo then r.retired[a] else Live(r.retired[a], now, r.grace))
  }

  /** The ring with one algorithm's retired keys pruned. */
  ghost function PruneLane(r: Ring, alg: Algorithm, now: Time): Ring
    requires alg in r.retired
  {
    r.(retired := r.retired[alg := Live(r.retired[alg], now, r.grace)])
  }

  lemma PrunedMore(r: Ring, todo: set<Algorithm>, alg: Algorithm, now: Time)
    requires alg in todo && alg in r.retired
    ensures PruneLane(PrunedBut(r, todo, now), alg, now) == PrunedBut(r, todo - {alg}, now)
  {
    assert PruneLane(PrunedBut(r, todo, now), alg, now).retired == PrunedBut(r, todo - {alg}, now).retired;
  }

  /** What one pass of the rotation loop does to the ring, and whether the loop goes on. */
  function RotatePass(r: Ring, alg: Algorithm, gen: Generation, now: Time): (Ring, bool) {
    if alg !in r.enabled then (r, true)
    else if alg !in gen then (r, false)
    else (Replace(r, alg, NewKey(alg, gen[alg]), now), true)
  }

  ghost function Remaining(s: Ring, ok: bool, now: Time, gen: Generation, i: nat): (Ring, bool)
    requires i <= |ALL_ALGORITHMS|
  {
    if ok then RotateFrom(s, now, gen, ALL_ALGORITHMS[i..]) else (s, false)
  }

  lemma RotateFromHead(r: Ring, now: Time, gen: Generation, i: nat)
    requires i < |ALL_ALGORITHMS|
    ensures RotateFrom(r, now, gen, ALL_ALGORITHMS[i..]) ==
            var (s, more) := RotatePass(r, ALL_ALGORITHMS[i], gen, now);
            if more then RotateFrom(s, now, gen, ALL_ALGORITHMS[i + 1..]) else (s, false)
  {
    assert ALL_ALGORITHMS[i..] == [ALL_ALGORITHMS[i]] + ALL_ALGORITHMS[i + 1..];
  }

  lemma PrunedAll(r: Ring, now: Time)
    ensures PrunedBut(r, {}, now) == RingModel.PruneAt(r, now)
  {
    assert PrunedBut(r, {}, now).retired == RingModel.PruneAt(r, now).retired;
  }

  lemma PrunedNone(r: Ring, now: Time)
    ensures PrunedBut(r, r.retired.Keys, now) == r
  {
    assert PrunedBut(r, r.retired.Keys, now).retired == r.retired;
  }
}
