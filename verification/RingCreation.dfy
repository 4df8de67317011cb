/**
 Creating a key ring (internal/keyring/keyring.go, `New`): one key for each enabled
 algorithm, or none if any fails to generate.
 */
module RingCreation {
  import opened Base
  import opened RingModel
  import opened RingLaws
  import opened KeySlice
  import opened KeyRings

  /** Lanes that share nothing and have retired nothing. */
  ghost predicate FreshLanes(lanes: map<Algorithm, Lane>)
    reads lanes.Values, set a, o | a in lanes && o in lanes[a].Repr :: o
  {
    && (forall a :: a in lanes ==> lanes[a].Valid() && lanes[a].alg == a && lanes[a].kept == [])
    && (forall a, b, o :: a in lanes && b in lanes && o in lanes[a].Repr && o in lanes[b].Repr ==> a == b)
  }

  /** The lanes hold the active keys of `s`, a ring being filled. */
  ghost predicate Filled(lanes: map<Algorithm, Lane>, s: Ring)
    reads lanes.Values
  {
    s.active.Keys == lanes.Keys && forall a :: a in lanes ==> s.active[a] == lanes[a].signing
  }

  method AddLane(lanes: map<Algorithm, Lane>, alg: Algorithm, g: Generated) returns (more: map<Algorithm, Lane>)
    requires FreshLanes(lanes) && alg !in lanes
    ensures more.Keys == lanes.Keys + {alg} && (forall a :: a in lanes ==> more[a] == lanes[a])
    ensures FreshLanes(more) && more[alg].signing == NewKey(alg, g)
  {
    var lane := new Lane(alg, g);
    assert forall a, o :: a in lanes && o in lanes[a].Repr ==> o !in lane.Repr;
    more := lanes[alg := lane];
  }

  lemma FilledMore(lanes: map<Algorithm, Lane>, more: map<Algorithm, Lane>, s: Ring, alg: Algorithm)
    requires Filled(lanes, s) && alg !in lanes && more.Keys == lanes.Keys + {alg}
    requires forall a :: a in lanes ==> more[a] == lanes[a]
    ensures Filled(more, s.(active := s.active[alg := more[alg].signing]))
  {
  }

  lemma FillHead(s: Ring, gen: Generation, i: nat)
    requires i < |ALL_ALGORITHMS|
    ensures var alg := ALL_ALGORITHMS[i];
            Fill(s, gen, ALL_ALGORITHMS[i..]) ==
            if alg !in s.enabled then Fill(s, gen, ALL_ALGORITHMS[i + 1..])
            else if alg !in gen then None
            else Fill(s.(active := s.active[alg := NewKey(alg, gen[alg])]), gen, ALL_ALGORITHMS[i + 1..])
  {
    assert ALL_ALGORITHMS[i..] == [ALL_ALGORITHMS[i]] + ALL_ALGORITHMS[i + 1..];
  }

  method New(grace: int, enabled: set<Algorithm>, gen: Generation) returns (ring: Option<KeyRing>)
    ensures ring.None? <==> NewRing(grace, enabled, gen).None?
    ensures ring.Some? ==>
              fresh(ring.value) && ring.value.Shape() && ring.value.Holds(NewRing(grace, enabled, gen).value)
  {
    if enabled == {} {
      return None;
    }
    ghost var empty := Ring(grace, enabled, map[], map alg | alg in enabled :: []);
    var lanes := Generate(enabled, gen, empty);
    if lanes.None? {
      return None;
    }
    var created := Assemble(grace, lanes.value, Fill(empty, gen, ALL_ALGORITHMS).value);
    return Some(created);
  }

  /** The generation loop. */
  method Generate(enabled: set<Algorithm>, gen: Generation, ghost empty: Ring)
    returns (lanes: Option<map<Algorithm, Lane>>)
    requires empty.enabled == enabled && empty.active == map[]
    ensures lanes.None? <==> Fill(empty, gen, ALL_ALGORITHMS).None?
    ensures lanes.Some? ==>
              var s := Fill(empty, gen, ALL_ALGORITHMS).value;
              && FreshLanes(lanes.value) && Filled(lanes.value, s) && lanes.value.Keys == enabled
              && s.grace == empty.grace && s.enabled == enabled && s.retired == empty.retired
  {
    var made: map<Algorithm, Lane> := map[];
    ghost var s := empty;
    var i := 0;
    assert ALL_ALGORITHMS[0..] == ALL_ALGORITHMS;
    while i < |ALL_ALGORITHMS|
      invariant i <= |ALL_ALGORITHMS| && FreshLanes(made) && Filled(made, s)
      invariant s.grace == empty.grace && s.enabled == enabled && s.retired == empty.retired
      invariant forall a :: a in made <==> a in enabled && Order(a) < i
      invariant Fill(empty, gen, ALL_ALGORITHMS) == Fill(s, gen, ALL_ALGORITHMS[i..])
    {
      var alg := ALL_ALGORITHMS[i];
      OrderStep(i);
      FillHead(s, gen, i);
      if alg in enabled {
        if alg !in gen {
          return None;
        }
        var more := AddLane(made, alg, gen[alg]);
        FilledMore(made, more, s, alg);
        made := more;
        s := s.(active := s.active[alg := NewKey(alg, gen[alg])]);
      }
      i := i + 1;
    }
    assert ALL_ALGORITHMS[i..] == [];
    OrderEnds();
    return Some(made);
  }

  method Assemble(grace: int, lanes: map<Algorithm, Lane>, ghost s: Ring) returns (ring: KeyRing)
    requires FreshLanes(lanes) && Filled(lanes, s) && s.grace == grace && s.enabled == lanes.Keys
    requires s.retired == map alg | alg in s.enabled :: []
    ensures fresh(ring) && ring.Shape() && ring.Holds(s)
  {
    ring := new KeyRing(grace, lanes);
    assert FreshLanes(ring.lanes);
  }

  lemma OrderStep(i: nat)
    requires i < |ALL_ALGORITHMS|
    ensures forall a: Algorithm :: Order(a) < i + 1 <==> Order(a) < i || a == ALL_ALGORITHMS[i]
  {
    forall a: Algorithm ensures Order(a) < i + 1 <==> Order(a) < i || a == ALL_ALGORITHMS[i] {
      Listed(a);
      Listed(ALL_ALGORITHMS[i]);
    }
  }

  lemma OrderEnds()
    ensures forall a: Algorithm :: Order(a) < |ALL_ALGORITHMS|
  {
    forall a: Algorithm ensures Order(a) < |ALL_ALGORITHMS| {
      Listed(a);
    }
  }
}
