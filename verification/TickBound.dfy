/**
 The rotation loop of `StartRotation` (internal/keyring/keyring.go): each tick rotates and,
 if that succeeded, prunes. How many retired keys can pile up.
 */
module TickBound {
  import opened Base
  import opened RingModel
  import opened RingLaws
  import opened KeyRings
  import opened Text

  datatype Tick = Tick(now: Time, gen: Generation)

  function TickOnce(r: Ring, tick: Tick): Ring {
    var (s, ok) := RotateAt(r, tick.now, tick.gen);
    if ok then PruneAt(s, tick.now) else s
  }

  /** One pass of the loop, on the ring in place. */
  method TickRing(ring: KeyRing, tick: Tick, ghost r: Ring) returns (ok: bool)
    requires ring.Shape() && ring.Holds(r)
    modifies set a, o | a in ring.lanes && o in ring.lanes[a].Repr :: o
    ensures ring.Shape() && ring.Holds(TickOnce(r, tick)) && ok == RotateAt(r, tick.now, tick.gen).1
  {
    ghost var rotated := RotateFrom(r, tick.now, tick.gen, ALL_ALGORITHMS);
    ok := ring.RotateAt(tick.now, tick.gen, r);
    if ok {
      PruneTurn(ring, tick.now, rotated.0);
    }
    assert TickOnce(r, tick) == if rotated.1 then PruneAt(rotated.0, tick.now) else rotated.0;
  }

  method PruneTurn(ring: KeyRing, now: Time, ghost s: Ring)
    requires ring.Shape() && ring.Holds(s)
    modifies set a, o | a in ring.lanes && o in ring.lanes[a].Repr :: o
    ensures ring.Shape() && ring.Holds(PruneAt(s, now))
  {
    ring.PruneAt(now, s);
  }

  function Ticks(r: Ring, ticks: seq<Tick>): Ring {
    if ticks == [] then r else TickOnce(Ticks(r, ticks[..|ticks| - 1]), ticks[|ticks| - 1])
  }

  /** Consecutive ticks are at least `interval` apart. */
  ghost predicate Paced(ticks: seq<Tick>, interval: int) {
    forall i, j :: 0 <= i < j == i + 1 < |ticks| ==> ticks[i].now + interval <= ticks[j].now
  }

  /** A ring as `New` leaves it: an active key for each enabled algorithm, nothing retired. */
  ghost predicate Initial(r: Ring) {
    r.active.Keys == r.enabled && r.retired.Keys == r.enabled && forall alg :: alg in r.retired ==> r.retired[alg] == []
  }

  /** Retirement times at least `interval` apart, the last no later than `last`. */
  ghost predicate Spaced(keys: seq<KeyInfo>, interval: int, last: Time) {
    && (forall i, j :: 0 <= i < j < |keys| ==> keys[i].retiredAt + interval <= keys[j].retiredAt)
    && (forall i :: 0 <= i < |keys| ==> keys[i].retiredAt <= last)
  }

  lemma {:induction false} LiveSpaced(keys: seq<KeyInfo>, interval: int, last: Time, now: Time, grace: int)
    requires Spaced(keys, interval, last)
    ensures Spaced(Live(keys, now, grace), interval, last)
  {
    if keys != [] {
      var n := |keys| - 1;
      var rest := Live(keys[..n], now, grace);
      LiveSpaced(keys[..n], interval, last, now, grace);
      forall i | 0 <= i < |rest| ensures rest[i].retiredAt + interval <= keys[n].retiredAt {
        LiveExactly(keys[..n], now, grace, rest[i]);
      }
    }
  }

  lemma {:induction false} RotateFrame(r: Ring, now: Time, gen: Generation, algs: seq<Algorithm>)
    requires r.active.Keys == r.enabled && r.retired.Keys == r.enabled
    ensures var s := RotateFrom(r, now, gen, algs).0;
            s.grace == r.grace && s.enabled == r.enabled && s.active.Keys == r.enabled && s.retired.Keys == r.enabled
    decreases |algs|
  {
    if algs == [] {
    } else if algs[0] !in r.enabled {
      RotateFrame(r, now, gen, algs[1..]);
    } else if algs[0] in gen {
      RotateFrame(Replace(r, algs[0], NewKey(algs[0], gen[algs[0]]), now), now, gen, algs[1..]);
    }
  }

  lemma SpacedMore(keys: seq<KeyInfo>, k: KeyInfo, interval: int, last: Time, now: Time)
    requires Spaced(keys, interval, last) && last <= now && (keys != [] ==> last + interval <= now)
    requires k.retiredAt == now
    ensures Spaced(keys + [k], interval, now) && Spaced(keys, interval, now)
  {
  }

  lemma RotateSpaced(r: Ring, now: Time, gen: Generation, algs: seq<Algorithm>, interval: int, last: Time,
                     alg: Algorithm)
    requires r.active.Keys == r.enabled && r.retired.Keys == r.enabled && Distinct(algs)
    requires Spaced(RetiredOf(r, alg), interval, last) && last <= now
    requires RetiredOf(r, alg) != [] ==> last + interval <= now
    ensures Spaced(RetiredOf(RotateFrom(r, now, gen, algs).0, alg), interval, now)
  {
    RotateFromExactly(r, now, gen, algs, alg);
    if alg in r.active {
      SpacedMore(RetiredOf(r, alg), r.active[alg].(retiredAt := now), interval, last, now);
    }
  }

  /** One tick adds at most one retired key per algorithm, stamped with the tick's time. */
  lemma TickSpaced(r: Ring, tick: Tick, interval: int, last: Time, alg: Algorithm)
    requires r.active.Keys == r.enabled && r.retired.Keys == r.enabled
    requires Spaced(RetiredOf(r, alg), interval, last) && last <= tick.now
    requires RetiredOf(r, alg) != [] ==> last + interval <= tick.now
    ensures Spaced(RetiredOf(TickOnce(r, tick), alg), interval, tick.now)
  {
    RotateSpaced(r, tick.now, tick.gen, ALL_ALGORITHMS, interval, last, alg);
    var s := RotateAt(r, tick.now, tick.gen).0;
    RotateFrame(r, tick.now, tick.gen, ALL_ALGORITHMS);
    LiveSpaced(RetiredOf(s, alg), interval, tick.now, tick.now, s.grace);
  }

  lemma {:induction false} TicksSpaced(r: Ring, ticks: seq<Tick>, interval: int, alg: Algorithm)
    requires Initial(r) && Paced(ticks, interval) && interval > 0 && ticks != []
    ensures Ticks(r, ticks).grace == r.grace && Ticks(r, ticks).enabled == r.enabled
    ensures Ticks(r, ticks).active.Keys == r.enabled && Ticks(r, ticks).retired.Keys == r.enabled
    ensures Spaced(RetiredOf(Ticks(r, ticks), alg), interval, ticks[|ticks| - 1].now)
  {
    var n := |ticks| - 1;
    var before := Ticks(r, ticks[..n]);
    if n == 0 {
      TickSpaced(r, ticks[0], interval, ticks[0].now, alg);
    } else {
      assert ticks[..n][n - 1] == ticks[n - 1];
      TicksSpaced(r, ticks[..n], interval, alg);
      TickSpaced(before, ticks[n], interval, ticks[n - 1].now, alg);
    }
    TickFrame(before, ticks[n]);
  }

  lemma TickFrame(r: Ring, tick: Tick)
    requires r.active.Keys == r.enabled && r.retired.Keys == r.enabled
    ensures TickOnce(r, tick).grace == r.grace && TickOnce(r, tick).enabled == r.enabled
    ensures TickOnce(r, tick).active.Keys == r.enabled && TickOnce(r, tick).retired.Keys == r.enabled
  {
    RotateFrame(r, tick.now, tick.gen, ALL_ALGORITHMS);
  }

  lemma {:induction false} SpacedSpan(keys: seq<KeyInfo>, interval: int, last: Time, i: nat)
    requires Spaced(keys, interval, last) && i < |keys|
    ensures keys[0].retiredAt + i * interval <= keys[i].retiredAt
  {
    if i > 0 {
      SpacedSpan(keys, interval, last, i - 1);
      assert i * interval == (i - 1) * interval + interval;
    }
  }

  /** The least whole number of intervals that covers the grace. */
  function Intervals(grace: int, interval: int): nat
    requires interval > 0
  {
    if grace <= 0 then 0 else (grace + interval - 1) / interval
  }

  lemma Covering(grace: int, interval: int)
    requires interval > 0 && grace > 0
    ensures grace <= Intervals(grace, interval) * interval
  {
  }

  lemma CountCovered(k: nat, grace: int, interval: int)
    requires interval > 0 && k > 0 && (k - 1) * interval < grace
    ensures k <= Intervals(grace, interval)
  {
    assert (k - 1) * interval >= 0;
    Covering(grace, interval);
    Outweighs(Intervals(grace, interval), k - 1, interval);
  }

  lemma Outweighs(a: int, b: int, c: int)
    requires c > 0 && a * c > b * c
    ensures a > b
  {
  }

  lemma SpanCount(keys: seq<KeyInfo>, interval: int, now: Time, grace: int)
    requires Spaced(keys, interval, now) && interval > 0 && IsDuration(grace)
    requires keys != [] && InGrace(keys[0], now, grace)
    ensures |keys| <= Intervals(grace, interval)
  {
    SpacedSpan(keys, interval, now, |keys| - 1);
    CountCovered(|keys|, grace, interval);
  }

  /**
   The retired-key bound: when ticks are at least `interval` apart, then after any tick whose
   rotation succeeded each algorithm keeps at most as many retired keys as there are
   intervals in the grace period, rounded up; none without a grace period.
   */
  lemma RetiredBounded(r: Ring, ticks: seq<Tick>, interval: int, alg: Algorithm)
    requires Initial(r) && IsDuration(r.grace) && Paced(ticks, interval) && interval > 0 && ticks != []
    requires RotateAt(Ticks(r, ticks[..|ticks| - 1]), ticks[|ticks| - 1].now, ticks[|ticks| - 1].gen).1
    ensures |RetiredOf(Ticks(r, ticks), alg)| <= Intervals(r.grace, interval)
  {
    var keys, now := RetiredOf(Ticks(r, ticks), alg), ticks[|ticks| - 1].now;
    TicksSpaced(r, ticks, interval, alg);
    if keys != [] {
      LastTickPruned(r, ticks, interval, alg, keys[0]);
      SpanCount(keys, interval, now, r.grace);
    }
  }

  lemma LastTickPruned(r: Ring, ticks: seq<Tick>, interval: int, alg: Algorithm, k: KeyInfo)
    requires Initial(r) && Paced(ticks, interval) && interval > 0 && ticks != []
    requires RotateAt(Ticks(r, ticks[..|ticks| - 1]), ticks[|ticks| - 1].now, ticks[|ticks| - 1].gen).1
    requires k in RetiredOf(Ticks(r, ticks), alg)
    ensures InGrace(k, ticks[|ticks| - 1].now, r.grace)
  {
    var n := |ticks| - 1;
    var before := Ticks(r, ticks[..n]);
    if n > 0 { TicksSpaced(r, ticks[..n], interval, alg); }
    RotateFrame(before, ticks[n].now, ticks[n].gen, ALL_ALGORITHMS);
    var s := RotateAt(before, ticks[n].now, ticks[n].gen).0;
    LiveExactly(RetiredOf(s, alg), ticks[n].now, s.grace, k);
  }

  // ----- Ticks that fail -----

  /** Some enabled algorithm fails to generate. */
  predicate Fails(r: Ring, tick: Tick) {
    !(r.enabled <= tick.gen.Keys)
  }

  ghost function ReachedCount(r: Ring, ticks: seq<Tick>, alg: Algorithm): nat {
    if ticks == [] then 0
    else
      var n := |ticks| - 1;
      ReachedCount(r, ticks[..n], alg) + (if Reached(r, ticks[n].gen, alg) then 1 else 0)
  }

  /** What one tick does to one algorithm. */
  lemma TickOne(r: Ring, tick: Tick, alg: Algorithm)
    requires r.active.Keys == r.enabled && r.retired.Keys == r.enabled
    ensures RotateAt(r, tick.now, tick.gen).1 <==> !Fails(r, tick)
    ensures Fails(r, tick) ==>
              |RetiredOf(TickOnce(r, tick), alg)| == |RetiredOf(r, alg)| + if Reached(r, tick.gen, alg) then 1 else 0
  {
    Succeeds(r, tick);
    ReachedInOrder(r, tick.gen, alg);
    RotateFromExactly(r, tick.now, tick.gen, ALL_ALGORITHMS, alg);
  }

  lemma Succeeds(r: Ring, tick: Tick)
    requires r.active.Keys == r.enabled
    ensures RotateAt(r, tick.now, tick.gen).1 <==> !Fails(r, tick)
  {
    RotateFromExactly(r, tick.now, tick.gen, ALL_ALGORITHMS, RS256);
    forall b | b in r.enabled && RotateAt(r, tick.now, tick.gen).1 ensures b in tick.gen {
      Listed(b);
      RotateFromExactly(r, tick.now, tick.gen, ALL_ALGORITHMS, b);
      ReachedInOrder(r, tick.gen, b);
    }
  }

  lemma {:induction false} TicksFrame(r: Ring, ticks: seq<Tick>)
    requires r.active.Keys == r.enabled && r.retired.Keys == r.enabled
    ensures var s := Ticks(r, ticks);
            s.grace == r.grace && s.enabled == r.enabled && s.active.Keys == r.enabled && s.retired.Keys == r.enabled
  {
    if ticks != [] {
      var n := |ticks| - 1;
      TicksFrame(r, ticks[..n]);
      TickFrame(Ticks(r, ticks[..n]), ticks[n]);
    }
  }

  /**
   While every rotation fails nothing is pruned: each algorithm has retired exactly one key
   for every tick that reached it before the failure.
   */
  lemma {:induction false} FailedTicksPileUp(r: Ring, ticks: seq<Tick>, alg: Algorithm)
    requires Initial(r) && forall i :: 0 <= i < |ticks| ==> Fails(r, ticks[i])
    ensures |RetiredOf(Ticks(r, ticks), alg)| == ReachedCount(r, ticks, alg)
  {
    if ticks != [] {
      var n := |ticks| - 1;
      FailedTicksPileUp(r, ticks[..n], alg);
      TicksFrame(r, ticks[..n]);
      TickOne(Ticks(r, ticks[..n]), ticks[n], alg);
    }
  }

  /** No enabled algorithm is rotated after this one. */
  ghost predicate RotatesLast(r: Ring, alg: Algorithm) {
    forall b :: b in r.enabled ==> Order(b) <= Order(alg)
  }

  /** The last algorithm to rotate is only reached by ticks that succeed, and those prune. */
  lemma {:induction false} LastIsBounded(r: Ring, ticks: seq<Tick>, interval: int, alg: Algorithm)
    requires Initial(r) && IsDuration(r.grace) && Paced(ticks, interval) && interval > 0
    requires alg !in r.enabled || RotatesLast(r, alg)
    ensures |RetiredOf(Ticks(r, ticks), alg)| <= Intervals(r.grace, interval)
  {
    if ticks != [] {
      var n := |ticks| - 1;
      var before := Ticks(r, ticks[..n]);
      TicksFrame(r, ticks[..n]);
      TickOne(before, ticks[n], alg);
      if Fails(before, ticks[n]) {
        LastIsBounded(r, ticks[..n], interval, alg);
      } else {
        RetiredBounded(r, ticks, interval, alg);
      }
    }
  }

  /** Key generation as assumed: non-empty kids, none in the ring, none used twice. */
  ghost predicate FreshTicks(r: Ring, ticks: seq<Tick>) {
    && (forall i, a :: 0 <= i < |ticks| && a in ticks[i].gen ==>
          ticks[i].gen[a].kid != "" && !HasKid(r, ticks[i].gen[a].kid))
    && (forall i, j, a, b :: 0 <= i < |ticks| && 0 <= j < |ticks| && SameKid(ticks[i], a, ticks[j], b) ==>
          i == j && a == b)
  }

  predicate SameKid(t: Tick, a: Algorithm, u: Tick, b: Algorithm) {
    a in t.gen && b in u.gen && t.gen[a].kid == u.gen[b].kid
  }

  function ActiveKid(r: Ring, alg: Algorithm): string {
    if alg in r.active then r.active[alg].kid else ""
  }

  /** Longer than every active kid. */
  function Prefix(r: Ring): string {
    ActiveKid(r, RS256) + ActiveKid(r, ES256) + ActiveKid(r, EdDSA) + "-"
  }

  function FreshKid(r: Ring, i: nat, alg: Algorithm): string {
    Prefix(r) + Dec(3 * i + Order(alg))
  }

  lemma FreshKidIsFresh(r: Ring, i: nat, alg: Algorithm)
    requires Initial(r)
    ensures FreshKid(r, i, alg) != "" && !HasKid(r, FreshKid(r, i, alg))
  {
    forall p | Occupied(r, p) ensures |KeyAt(r, p).kid| < |FreshKid(r, i, alg)| {
      match p.alg
      case RS256 =>
      case ES256 =>
      case EdDSA =>
    }
  }

  lemma FreshKidsDiffer(r: Ring, i: nat, a: Algorithm, j: nat, b: Algorithm)
    requires FreshKid(r, i, a) == FreshKid(r, j, b)
    ensures i == j && a == b
  {
    assert FreshKid(r, i, a)[|Prefix(r)|..] == Dec(3 * i + Order(a));
    assert FreshKid(r, j, b)[|Prefix(r)|..] == Dec(3 * j + Order(b));
    EvalDec(3 * i + Order(a));
    EvalDec(3 * j + Order(b));
    Listed(a);
    Listed(b);
  }

  /** The `i`-th tick, in which every algorithm but `broken` generates. */
  function FailingTick(r: Ring, i: nat, interval: int, broken: Algorithm): Tick {
    Tick(i * interval, map alg: Algorithm | alg != broken :: Generated(FreshKid(r, i, alg), i, 0))
  }

  function FailingTicks(r: Ring, n: nat, interval: int, broken: Algorithm): seq<Tick> {
    seq(n, i requires 0 <= i < n => FailingTick(r, i, interval, broken))
  }

  lemma FailingTicksPace(r: Ring, n: nat, interval: int, broken: Algorithm)
    requires Initial(r)
    ensures Paced(FailingTicks(r, n, interval, broken), interval) && FreshTicks(r, FailingTicks(r, n, interval, broken))
  {
    var ticks := FailingTicks(r, n, interval, broken);
    forall i, j | 0 <= i < j == i + 1 < |ticks| ensures ticks[i].now + interval <= ticks[j].now {
      assert (i + 1) * interval == i * interval + interval;
    }
    forall i, a | 0 <= i < |ticks| && a in ticks[i].gen
      ensures ticks[i].gen[a].kid != "" && !HasKid(r, ticks[i].gen[a].kid)
    {
      FreshKidIsFresh(r, i, a);
    }
    forall i, j, a, b | 0 <= i < |ticks| && 0 <= j < |ticks| && SameKid(ticks[i], a, ticks[j], b)
      ensures i == j && a == b
    {
      FreshKidsDiffer(r, i, a, j, b);
    }
  }

  lemma {:induction false} EachReaches(r: Ring, n: nat, interval: int, broken: Algorithm, alg: Algorithm)
    requires alg in r.enabled && Order(alg) < Order(broken)
    ensures ReachedCount(r, FailingTicks(r, n, interval, broken), alg) == n
  {
    if n > 0 {
      var ticks := FailingTicks(r, n, interval, broken);
      assert ticks[..n - 1] == FailingTicks(r, n - 1, interval, broken);
      EachReaches(r, n - 1, interval, broken, alg);
      assert Reached(r, ticks[n - 1].gen, alg);
    }
  }

  /** As many retired keys as one likes, from an algorithm before one that keeps failing. */
  lemma PilingTicks(r: Ring, n: nat, interval: int, alg: Algorithm, broken: Algorithm) returns (ticks: seq<Tick>)
    requires Initial(r) && alg in r.enabled && broken in r.enabled && Order(alg) < Order(broken)
    ensures Paced(ticks, interval) && FreshTicks(r, ticks) && |RetiredOf(Ticks(r, ticks), alg)| == n
  {
    ticks := FailingTicks(r, n, interval, broken);
    FailingTicksPace(r, n, interval, broken);
    EachReaches(r, n, interval, broken, alg);
    forall i | 0 <= i < |ticks| ensures Fails(r, ticks[i]) {
      assert broken !in ticks[i].gen;
    }
    FailedTicksPileUp(r, ticks, alg);
  }

  /** The bound on one algorithm's retired keys, after any paced ticks, failed or not. */
  ghost predicate StaysBounded(r: Ring, interval: int, alg: Algorithm)
    requires interval > 0
  {
    forall ticks :: Paced(ticks, interval) && FreshTicks(r, ticks) ==>
                      |RetiredOf(Ticks(r, ticks), alg)| <= Intervals(r.grace, interval)
  }

  /**
   The bound survives failing ticks for exactly the algorithms that are not enabled or rotate
   last; for any other, one later algorithm that keeps failing breaks it.
   */
  lemma BoundSurvivesExactly(r: Ring, interval: int, alg: Algorithm)
    requires Initial(r) && IsDuration(r.grace) && interval > 0
    ensures StaysBounded(r, interval, alg) <==> alg !in r.enabled || RotatesLast(r, alg)
  {
    if alg !in r.enabled || RotatesLast(r, alg) {
      forall ticks | Paced(ticks, interval) && FreshTicks(r, ticks)
        ensures |RetiredOf(Ticks(r, ticks), alg)| <= Intervals(r.grace, interval)
      {
        LastIsBounded(r, ticks, interval, alg);
      }
    } else {
      var broken :| broken in r.enabled && Order(broken) > Order(alg);
      var ticks := PilingTicks(r, Intervals(r.grace, interval) + 1, interval, alg, broken);
    }
  }
}
