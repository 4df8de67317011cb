/**
 Key objects and the growable slice that holds one algorithm's retired keys
 (internal/keyring/keyring.go). The slice is a backing array and a length; appending
 writes into spare capacity when there is any, and compaction works in place.
 */
module KeySlice {
  import opened Base
  import opened RingModel

  class Key {
    const kid: string
    const pub: PublicKey
    const alg: Algorithm
    const createdAt: Time
    var retiredAt: Time
    var wiped: bool

    constructor (alg: Algorithm, g: Generated)
      ensures Info() == NewKey(alg, g)
      ensures this.alg == alg && kid == g.kid && pub == PublicKey(alg, g.material) && createdAt == g.createdAt
      ensures retiredAt == ZERO_TIME && !wiped
    {
      this.kid := g.kid;
      this.pub := PublicKey(alg, g.material);
      this.alg := alg;
      this.createdAt := g.createdAt;
      this.retiredAt := ZERO_TIME;
      this.wiped := false;
    }

    function Info(): KeyInfo
      reads this
    {
      KeyInfo(kid, pub, alg, createdAt, retiredAt, wiped)
    }

    /** RSA and Ed25519 private keys are overwritten, ECDSA ones are not. */
    method Zeroize()
      modifies this`wiped
      ensures alg == RS256 || alg == EdDSA ==> wiped
      ensures alg == ES256 ==> wiped == old(wiped)
      ensures Info() == Wipe(old(Info()))
    {
      if alg != ES256 {
        wiped := true;
      }
    }
  }

  ghost function Infos(keys: seq<Key>): (s: seq<KeyInfo>)
    reads keys
    ensures |s| == |keys|
    ensures forall i :: 0 <= i < |keys| ==> s[i] == keys[i].Info()
  {
    seq(|keys|, i requires 0 <= i < |keys| reads keys => keys[i].Info())
  }

  /**
   What pruning does to a retired key: nothing while its age is below the grace, and then, on
   the way out, nothing but overwriting the private half of an RSA or Ed25519 key.
   */
  twostate predicate Passed(k: Key, now: Time, grace: int)
    reads k
  {
    && k.retiredAt == old(k.retiredAt)
    && k.wiped == (old(k.wiped) || (Sub(now, k.retiredAt) >= grace && k.alg in {RS256, EdDSA}))
  }

  ghost predicate NoRepeats(keys: seq<Key?>) {
    forall i, j :: 0 <= i < j < |keys| ==> keys[i] != keys[j]
  }

  class RetiredList {
    var slots: array<Key?>
    var len: nat
    ghost var keys: seq<Key>
    ghost var Repr: set<object>

    /** The live prefix holds the distinct `keys` and every slot behind it is nil. */
    ghost predicate Valid()
      reads this, Repr
      ensures Valid() ==> this in Repr
    {
      && this in Repr && slots in Repr && (forall k :: k in keys ==> k in Repr)
      && Tidy()
    }

    ghost predicate Tidy()
      reads this, slots
    {
      && len <= slots.Length && slots[..len] == keys
      && (forall i :: len <= i < slots.Length ==> slots[i] == null)
      && NoRepeats(keys)
    }

    constructor ()
      ensures Valid() && keys == [] && Repr == {this, slots} && fresh(Repr)
    {
      slots := new Key?[0];
      len := 0;
      keys := [];
      new;
      Repr := {this, slots};
    }

    /** Appends in place when there is spare capacity, otherwise moves to a larger array. */
    method Append(k: Key)
      requires Valid() && k !in keys
      modifies this, slots
      ensures Valid() && keys == old(keys) + [k]
      ensures Repr == old(Repr) + {slots, k} && fresh(Repr - old(Repr) - {k})
      ensures slots == old(slots) || fresh(slots)
      ensures old(len) < old(slots.Length) ==> slots == old(slots)
    {
      if len == slots.Length {
        var grown := new Key?[2 * len + 1](_ => null);
        forall i | 0 <= i < len {
          grown[i] := slots[i];
        }
        slots := grown;
      }
      slots[len] := k;
      len := len + 1;
      keys := keys + [k];
      Repr := Repr + {slots, k};
    }

    /**
     What compaction leaves behind: in order, the keys still in grace, unchanged; the
     others gone from the slice and zeroized; nothing but nil behind the live prefix.
     */
    ghost predicate Compacted(was: seq<Key>, infos: seq<KeyInfo>, now: Time, grace: int)
      requires |was| == |infos|
      reads this, slots, keys, was
    {
      && Tidy()
      && Infos(keys) == Live(infos, now, grace)
      && (forall k :: k in keys ==> k in was)
      && (forall i :: 0 <= i < |was| ==> (was[i] in keys <==> InGrace(infos[i], now, grace)))
      && (forall i :: 0 <= i < |was| ==> was[i].Info() == Visited(infos[i], true, now, grace))
    }

    /** In-place compaction of the slice, within the same backing array. */
    method Compact(now: Time, grace: int)
      requires Valid()
      modifies this`len, this`keys, slots, keys
      ensures Valid() && Compacted(old(keys), old(Infos(keys)), now, grace)
      ensures slots == old(slots)
      ensures forall k :: k in old(keys) ==> Passed(k, now, grace)
      ensures forall k :: k in old(keys) ==> (k in keys <==> Sub(now, k.retiredAt) < grace)
    {
      ghost var was, infos := keys, Infos(keys);
      Filter(now, grace);
      forall k | k in was ensures Passed(k, now, grace) && (k in keys <==> Sub(now, k.retiredAt) < grace) {
        var i :| 0 <= i < |was| && was[i] == k;
        assert k.Info() == Visited(infos[i], true, now, grace);
      }
    }

    method Filter(now: Time, grace: int)
      requires Valid()
      modifies this`len, this`keys, slots, keys
      ensures Valid() && Compacted(old(keys), old(Infos(keys)), now, grace)
      ensures slots == old(slots)
    {
      ghost var was := keys;
      ghost var infos := Infos(was);
      var w := Sift(now, grace, was, infos);
      Clear(w);
      keys := Survivors(was, infos, |was|, now, grace);
      IsCompacted(was, infos, now, grace);
    }

    lemma IsCompacted(was: seq<Key>, infos: seq<KeyInfo>, now: Time, grace: int)
      requires |was| == |infos| && NoRepeats(was)
      requires keys == Survivors(was, infos, |was|, now, grace)
      requires len == |keys| <= slots.Length
      requires forall i :: 0 <= i < len ==> slots[i] == keys[i]
      requires forall i :: len <= i < slots.Length ==> slots[i] == null
      requires forall i :: 0 <= i < |was| ==> was[i].Info() == Visited(infos[i], true, now, grace)
      ensures Compacted(was, infos, now, grace)
    {
      SurvivorFacts(was, infos, |was|, now, grace);
      SurvivorInfos(was, infos, |was|, now, grace);
      assert infos[..|infos|] == infos && was[..|was|] == was;
    }

    /** The first key with the kid, if any. */
    method Find(kid: string) returns (found: Option<Key>)
      requires Valid()
      ensures found.Some? ==> found.value in keys && found.value.kid == kid
      ensures found.None? ==> forall k :: k in keys ==> k.kid != kid
    {
      for i := 0 to len
        invariant forall j :: 0 <= j < i ==> keys[j].kid != kid
      {
        assert slots[i] == keys[i];
        var k: Key := slots[i];
        if k.kid == kid {
          return Some(k);
        }
      }
      return None;
    }

    /** Copies the keys behind what has been gathered so far. */
    method CopyTo(gathered: seq<KeyInfo>) returns (all: seq<KeyInfo>)
      requires Valid()
      ensures all == gathered + Infos(keys)
    {
      all := gathered;
      for i := 0 to len
        invariant all == gathered + Infos(keys)[..i]
      {
        assert slots[i] == keys[i];
        var k: Key := slots[i];
        all := all + [k.Info()];
      }
    }

    /** The filtering loop over the slice. */
    method Sift(now: Time, grace: int, ghost was: seq<Key>, ghost infos: seq<KeyInfo>) returns (w: nat)
      requires Valid() && was == keys && infos == Infos(was)
      modifies slots, was
      ensures Sifting(len, w, was, infos, now, grace)
    {
      w := 0;
      for i := 0 to len
        invariant w <= i
        invariant Sifting(i, w, was, infos, now, grace)
      {
        assert was[i].Info() == infos[i];
        if Sub(now, slots[i].retiredAt) < grace {
          Move(i, w, now, grace, was, infos);
          w := w + 1;
        } else {
          Drop(i, w, now, grace, was, infos);
        }
      }
    }

    /**
     Where the filtering loop stands after visiting `i` keys: the survivors so far fill the
     first `w` slots, the rest of the slice is untouched, and only dropped keys are wiped.
     */
    ghost predicate Sifting(i: nat, w: nat, was: seq<Key>, infos: seq<KeyInfo>, now: Time, grace: int)
      requires |was| == |infos|
      reads this, slots, was
    {
      && w <= i <= len == |was| <= slots.Length
      && w == |Survivors(was, infos, i, now, grace)|
      && (forall j :: 0 <= j < w ==> slots[j] == Survivors(was, infos, i, now, grace)[j])
      && (forall j :: i <= j < len ==> slots[j] == was[j])
      && (forall j :: len <= j < slots.Length ==> slots[j] == null)
      && (forall j :: 0 <= j < len ==> was[j].Info() == Visited(infos[j], j < i, now, grace))
    }

    /** A live key moves to the front. */
    method Move(i: nat, w: nat, now: Time, ghost grace: int, ghost was: seq<Key>, ghost infos: seq<KeyInfo>)
      requires |was| == |infos| && Sifting(i, w, was, infos, now, grace)
      requires i < len && InGrace(infos[i], now, grace)
      modifies slots
      ensures Sifting(i + 1, w + 1, was, infos, now, grace)
    {
      ghost var before := Survivors(was, infos, i, now, grace);
      assert Survivors(was, infos, i + 1, now, grace) == before + [was[i]];
      slots[w] := slots[i];
    }

    /** A key out of grace is zeroized and left behind. */
    method Drop(i: nat, w: nat, now: Time, ghost grace: int, ghost was: seq<Key>, ghost infos: seq<KeyInfo>)
      requires |was| == |infos| && Sifting(i, w, was, infos, now, grace)
      requires NoRepeats(was)
      requires i < len && !InGrace(infos[i], now, grace)
      modifies was[i]
      ensures Sifting(i + 1, w, was, infos, now, grace)
    {
      ghost var before := Survivors(was, infos, i, now, grace);
      assert Survivors(was, infos, i + 1, now, grace) == before + [] == before;
      var k: Key := slots[i];
      k.Zeroize();
    }

    /** Clears the slots from `w` on and shortens the live prefix to `w`. */
    method Clear(w: nat)
      requires w <= len <= slots.Length
      modifies this`len, slots
      ensures len == w && slots == old(slots)
      ensures forall j :: 0 <= j < w || old(len) <= j < slots.Length ==> slots[j] == old(slots[j])
      ensures forall j :: w <= j < old(len) ==> slots[j] == null
    {
      for i := w to len
        invariant slots == old(slots) && len == old(len)
        invariant forall j :: 0 <= j < w || i <= j < slots.Length ==> slots[j] == old(slots[j])
        invariant forall j :: w <= j < i ==> slots[j] == null
      {
        slots[i] := null;
      }
      len := w;
    }
  }

  /** A retired key during compaction: a visited key out of grace has been zeroized. */
  ghost function Visited(k: KeyInfo, visited: bool, now: Time, grace: int): KeyInfo {
    if visited && !InGrace(k, now, grace) then Wipe(k) else k
  }

  /** The key objects, among the first `n`, that compaction keeps. */
  ghost function Survivors(keys: seq<Key>, infos: seq<KeyInfo>, n: nat, now: Time, grace: int): seq<Key>
    requires n <= |keys| == |infos|
  {
    if n == 0 then []
    else Survivors(keys, infos, n - 1, now, grace) + (if InGrace(infos[n - 1], now, grace) then [keys[n - 1]] else [])
  }

  lemma {:induction false} SurvivorFacts(keys: seq<Key>, infos: seq<KeyInfo>, n: nat, now: Time, grace: int)
    requires n <= |keys| == |infos|
    requires NoRepeats(keys)
    ensures forall k :: k in Survivors(keys, infos, n, now, grace) ==> k in keys[..n]
    ensures forall i :: 0 <= i < |keys| ==>
              (keys[i] in Survivors(keys, infos, n, now, grace) <==> i < n && InGrace(infos[i], now, grace))
    ensures NoRepeats(Survivors(keys, infos, n, now, grace))
  {
    if n > 0 {
      var rest := Survivors(keys, infos, n - 1, now, grace);
      var kept := Survivors(keys, infos, n, now, grace);
      SurvivorFacts(keys, infos, n - 1, now, grace);
      assert keys[..n] == keys[..n - 1] + [keys[n - 1]];
      assert keys[n - 1] !in rest;
      forall i, j | 0 <= i < j < |kept| ensures kept[i] != kept[j] {
        assert kept[i] == rest[i] && rest[i] in rest;
        if j < |rest| {
          assert kept[j] == rest[j];
        } else {
          assert kept[j] == keys[n - 1];
        }
      }
    }
  }

  lemma {:induction false} SurvivorInfos(keys: seq<Key>, infos: seq<KeyInfo>, n: nat, now: Time, grace: int)
    requires n <= |keys| == |infos|
    requires forall i :: 0 <= i < n ==> keys[i].Info() == Visited(infos[i], true, now, grace)
    ensures Infos(Survivors(keys, infos, n, now, grace)) == Live(infos[..n], now, grace)
  {
    if n == 0 {
      assert infos[..0] == [];
    } else {
      var rest := Survivors(keys, infos, n - 1, now, grace);
      SurvivorInfos(keys, infos, n - 1, now, grace);
      assert infos[..n][..n - 1] == infos[..n - 1];
      if InGrace(infos[n - 1], now, grace) {
        assert (rest + [keys[n - 1]])[..|rest|] == rest;
      } else {
        assert Survivors(keys, infos, n, now, grace) == rest;
      }
    }
  }
}
