/**
 The refill condition is necessary: without it, draining a bucket, waiting out the idle time
 and draining again is decided differently once the entry has been evicted.
 */
module LimiterConverse {
  import opened Base
  import opened Limiting
  import opened LimiterLaws

  const CLIENT := "client"

  /** When an entry last seen at time zero is first old enough to evict. */
  const LATER: int := 600_000_000_001

  function Arrivals(at: Time, lo: nat, hi: nat): seq<Event>
    decreases hi - lo
  {
    if lo >= hi then [] else [Arrive(at, lo, CLIENT)] + Arrivals(at, lo + 1, hi)
  }

  function Decides(at: Time, lo: nat, hi: nat): seq<Event>
    decreases hi - lo
  {
    if lo >= hi then [] else [Decide(at, lo)] + Decides(at, lo + 1, hi)
  }

  /** The requests `lo` up to `hi` wait with limiter `id` since `since`, and no later ones exist. */
  ghost predicate Queued(s: State, id: nat, since: Time, lo: nat, hi: nat) {
    && (forall r: nat :: lo <= r < hi ==> r in s.pending && s.pending[r] == Waiting(CLIENT, id, since))
    && (forall r: nat :: r >= hi ==> r !in s.pending)
  }

  /** All further requests get the limiter `id`. */
  lemma {:induction false} ManyArrive(p: Params, evicting: bool, s: State, id: nat, at: Time, from: nat, lo: nat,
                                      hi: nat, delay: int)
    requires CLIENT in s.visitors && s.visitors[CLIENT] == id && s.now <= at && from <= lo <= hi
    requires Queued(s, id, at, from, lo) && CLIENT in s.lastSeen && (lo > from ==> s.lastSeen[CLIENT] == at)
    ensures Decisions(p, evicting, s, Arrivals(at, lo, hi)) == []
    ensures !evicting ==> WellTimed(p, s, Arrivals(at, lo, hi), delay)
    ensures var t := After(p, evicting, s, Arrivals(at, lo, hi));
            && Queued(t, id, at, from, hi) && t.visitors == s.visitors && t.buckets == s.buckets
            && t.now == (if lo < hi then at else s.now)
            && t.lastSeen == (if lo < hi then s.lastSeen[CLIENT := at] else s.lastSeen)
    decreases hi - lo
  {
    if lo < hi {
      var t := Arrived(p, s, at, lo, CLIENT);
      assert Arrivals(at, lo, hi)[1..] == Arrivals(at, lo + 1, hi);
      ManyArrive(p, evicting, t, id, at, from, lo + 1, hi, delay);
    }
  }

  /** A bucket with enough tokens admits them all and loses as many. */
  lemma {:induction false} ManyDecide(p: Params, evicting: bool, s: State, id: nat, since: Time, at: Time, lo: nat,
                                      hi: nat, delay: int)
    requires lo <= hi && Queued(s, id, since, lo, hi) && id < |s.buckets| && s.now <= at && at - since <= delay
    requires (hi - lo) as real <= Level(p, s.buckets[id], at) <= p.burst as real
    ensures Admitted(Decisions(p, evicting, s, Decides(at, lo, hi)), CLIENT) == hi - lo
    ensures !evicting ==> WellTimed(p, s, Decides(at, lo, hi), delay)
    ensures var t := After(p, evicting, s, Decides(at, lo, hi));
            && t.visitors == s.visitors && t.lastSeen == s.lastSeen && |t.buckets| == |s.buckets|
            && (lo < hi ==> t.now == at && t.buckets[id] == Bucket(Level(p, s.buckets[id], at) - (hi - lo) as real, at))
            && (forall r: nat :: r >= hi ==> r !in t.pending)
    decreases hi - lo
  {
    if lo < hi {
      var (t, ok) := Decided(p, s, at, lo);
      assert Decides(at, lo, hi)[1..] == Decides(at, lo + 1, hi);
      assert Level(p, t.buckets[id], at) == Level(p, s.buckets[id], at) - 1.0;
      ManyDecide(p, evicting, t, id, since, at, lo + 1, hi, delay);
      AdmittedFirst(Some((CLIENT, true)), Decisions(p, evicting, t, Decides(at, lo + 1, hi)), CLIENT);
    }
  }

  lemma {:induction false} DecidesTimed(p: Params, s: State, id: nat, since: Time, at: Time, lo: nat, hi: nat,
                                        delay: int)
    requires lo <= hi && Queued(s, id, since, lo, hi) && id < |s.buckets| && s.now <= at && at - since <= delay
    ensures WellTimed(p, s, Decides(at, lo, hi), delay)
    decreases hi - lo
  {
    if lo < hi {
      var t := Decided(p, s, at, lo).0;
      assert Decides(at, lo, hi)[1..] == Decides(at, lo + 1, hi);
      DecidesTimed(p, t, id, since, at, lo + 1, hi, delay);
    }
  }

  lemma {:induction false} AdmittedAppend(a: seq<(string, bool)>, b: seq<(string, bool)>)
    ensures Admitted(a + b, CLIENT) == Admitted(a, CLIENT) + Admitted(b, CLIENT)
  {
    if a == [] {
      assert a + b == b;
    } else {
      assert (a + b)[1..] == a[1..] + b;
      AdmittedAppend(a[1..], b);
    }
  }

  /** `count` requests of one client arrive together and decide together. */
  function Wave(arriving: Time, deciding: Time, first: nat, count: nat): seq<Event> {
    Arrivals(arriving, first, first + count) + Decides(deciding, first, first + count)
  }

  /** No request numbered `first` or later exists yet. */
  ghost predicate Unused(s: State, first: nat) {
    forall r: nat :: r >= first ==> r !in s.pending
  }

  /** The first request of a client without an entry creates its limiter; the others share it. */
  lemma NewArrivals(p: Params, evicting: bool, s: State, at: Time, first: nat, hi: nat, delay: int)
    requires CLIENT !in s.visitors && Unused(s, first) && s.now <= at && first < hi
    ensures Decisions(p, evicting, s, Arrivals(at, first, hi)) == []
    ensures !evicting ==> WellTimed(p, s, Arrivals(at, first, hi), delay)
    ensures var u := After(p, evicting, s, Arrivals(at, first, hi));
            && Queued(u, |s.buckets|, at, first, hi) && u.now == at
            && u.visitors == s.visitors[CLIENT := |s.buckets|] && u.lastSeen == s.lastSeen[CLIENT := at]
            && u.buckets == s.buckets + [NewBucket(p, at)]
  {
    var t := Arrived(p, s, at, first, CLIENT);
    assert Arrivals(at, first, hi)[1..] == Arrivals(at, first + 1, hi);
    ManyArrive(p, evicting, t, |s.buckets|, at, first, first + 1, hi, delay);
    assert t.lastSeen[CLIENT := at] == t.lastSeen;
  }

  /** For a client without an entry, a wave of the whole burst is admitted and leaves the bucket empty. */
  lemma NewClientWave(p: Params, evicting: bool, s: State, arriving: Time, deciding: Time, first: nat, delay: int)
    requires Sane(p, delay) && CLIENT !in s.visitors && Unused(s, first)
    requires s.now <= arriving <= deciding <= arriving + delay
    ensures Admitted(Decisions(p, evicting, s, Wave(arriving, deciding, first, p.burst)), CLIENT) == p.burst
    ensures !evicting ==> WellTimed(p, s, Wave(arriving, deciding, first, p.burst), delay)
    ensures var t := After(p, evicting, s, Wave(arriving, deciding, first, p.burst));
            && t.visitors == s.visitors[CLIENT := |s.buckets|] && t.lastSeen == s.lastSeen[CLIENT := arriving]
            && |t.buckets| == |s.buckets| + 1 && t.buckets[|s.buckets|] == Bucket(0.0, deciding)
            && t.now == deciding && Unused(t, first + p.burst)
  {
    var id, hi := |s.buckets|, first + p.burst;
    var comes, asks := Arrivals(arriving, first, hi), Decides(deciding, first, hi);
    NewArrivals(p, evicting, s, arriving, first, hi, delay);
    var u := After(p, evicting, s, comes);
    GainMonotone(p, 0, deciding - arriving);
    ManyDecide(p, evicting, u, id, arriving, deciding, first, hi, delay);
    Split(p, evicting, s, comes, asks);
    assert [] + Decisions(p, evicting, u, asks) == Decisions(p, evicting, u, asks);
    WellTimedSplit(p, s, comes, asks, delay);
  }

  /** For a client with an entry, a wave at one instant is well-timed. */
  lemma KnownClientWave(p: Params, s: State, at: Time, first: nat, delay: int)
    requires Sane(p, delay) && CLIENT in s.visitors && CLIENT in s.lastSeen && s.visitors[CLIENT] < |s.buckets|
    requires Unused(s, first) && s.now <= at
    ensures WellTimed(p, s, Wave(at, at, first, p.burst), delay)
  {
    var hi := first + p.burst;
    ManyArrive(p, false, s, s.visitors[CLIENT], at, first, first, hi, delay);
    var u := After(p, false, s, Arrivals(at, first, hi));
    DecidesTimed(p, u, s.visitors[CLIENT], at, at, first, hi, delay);
    WellTimedSplit(p, s, Arrivals(at, first, hi), Decides(at, first, hi), delay);
  }

  /** Drain the bucket, wait until just past the idle time, clean, drain again. */
  function Drain(p: Params, delay: nat): seq<Event> {
    Wave(0, delay, 0, p.burst) + ([Clean(LATER, map[])] + Wave(LATER, LATER, p.burst, p.burst))
  }

  lemma {:induction false} RunFits(p: Params, s: State, events: seq<Event>, delay: int)
    requires Sane(p, delay) && Fits(p, s, delay) && WellTimed(p, s, events, delay)
    ensures Fits(p, After(p, false, s, events), delay)
    decreases |events|
  {
    if events != [] {
      StepFits(p, false, s, events[0], delay);
      RunFits(p, Apply(p, false, s, events[0]).0, events[1..], delay);
    }
  }

  /** With eviction, both waves are admitted whole. */
  lemma DrainedTwice(p: Params, delay: nat)
    requires Sane(p, delay)
    ensures Admitted(Decisions(p, true, Start(0), Drain(p, delay)), CLIENT) == 2 * p.burst
  {
    var first, second := Wave(0, delay, 0, p.burst), Wave(LATER, LATER, p.burst, p.burst);
    NewClientWave(p, true, Start(0), 0, delay, 0, delay);
    var t := After(p, true, Start(0), first);
    var u := Cleaned(t, LATER, map[]);
    assert CLIENT !in Recent(t.lastSeen, map[], LATER);
    NewClientWave(p, true, u, LATER, LATER, p.burst, delay);
    Split(p, true, Start(0), first, [Clean(LATER, map[])] + second);
    AdmittedAppend(Decisions(p, true, Start(0), first), Decisions(p, true, t, [Clean(LATER, map[])] + second));
    assert ([Clean(LATER, map[])] + second)[1..] == second;
    assert [] + Decisions(p, true, u, second) == Decisions(p, true, u, second);
  }

  lemma WaveAt(at: Time, first: nat, count: nat)
    ensures forall i :: 0 <= i < |Wave(at, at, first, count)| ==> Wave(at, at, first, count)[i].at == at
  {
    ArrivalsAt(at, first, first + count);
    DecidesAt(at, first, first + count);
  }

  lemma {:induction false} ArrivalsAt(at: Time, lo: nat, hi: nat)
    ensures forall e :: e in Arrivals(at, lo, hi) ==> e.at == at
    decreases hi - lo
  {
    if lo < hi { ArrivalsAt(at, lo + 1, hi); }
  }

  lemma {:induction false} DecidesAt(at: Time, lo: nat, hi: nat)
    ensures forall e :: e in Decides(at, lo, hi) ==> e.at == at
    decreases hi - lo
  {
    if lo < hi { DecidesAt(at, lo + 1, hi); }
  }

  /** From an emptied bucket that has not refilled, not the whole wave is admitted. */
  lemma SecondWaveShort(p: Params, u: State, delay: nat)
    requires Sane(p, delay) && !Refills(p, delay) && Fits(p, u, delay) && u.now == LATER && CLIENT in u.visitors
    requires BucketOf(u, CLIENT) == Bucket(0.0, delay)
    requires WellTimed(p, u, Wave(LATER, LATER, p.burst, p.burst), delay)
    ensures Admitted(Decisions(p, false, u, Wave(LATER, LATER, p.burst, p.burst)), CLIENT) < p.burst
  {
    var second := Wave(LATER, LATER, p.burst, p.burst);
    WaveAt(LATER, p.burst, p.burst);
    RunCredit(p, u, second, delay, CLIENT, LATER);
    CreditShort(p, u, delay);
  }

  lemma CreditShort(p: Params, u: State, delay: nat)
    requires Sane(p, delay) && !Refills(p, delay) && Shape(p, u) && u.now == LATER && CLIENT in u.visitors
    requires BucketOf(u, CLIENT) == Bucket(0.0, delay)
    ensures Credit(p, u, CLIENT) + Gain(p, LATER - u.now) < p.burst as real
  {
    RefillsGain(p, delay);
    assert Credit(p, u, CLIENT) <= Gain(p, LATER - delay);
  }

  /** Without eviction, the second wave is cut short when the bucket has not refilled. */
  lemma DrainedOnce(p: Params, delay: nat)
    requires Sane(p, delay) && !Refills(p, delay)
    ensures WellTimed(p, Start(0), Drain(p, delay), delay)
    ensures Admitted(Decisions(p, false, Start(0), Drain(p, delay)), CLIENT) < 2 * p.burst
  {
    var first, second := Wave(0, delay, 0, p.burst), Wave(LATER, LATER, p.burst, p.burst);
    NewClientWave(p, false, Start(0), 0, delay, 0, delay);
    var t := After(p, false, Start(0), first);
    var u := t.(now := LATER);
    RunFits(p, Start(0), first, delay);
    OpenFits(p, t, LATER, delay);
    KnownClientWave(p, u, LATER, p.burst, delay);
    SecondWaveShort(p, u, delay);
    AfterCleaning(p, t, second, delay);
    WellTimedSplit(p, Start(0), first, [Clean(LATER, map[])] + second, delay);
    Split(p, false, Start(0), first, [Clean(LATER, map[])] + second);
    AdmittedAppend(Decisions(p, false, Start(0), first), Decisions(p, false, t, [Clean(LATER, map[])] + second));
  }

  /** Without eviction, cleaning only lets time pass. */
  lemma AfterCleaning(p: Params, t: State, second: seq<Event>, delay: nat)
    requires t.now <= LATER
    ensures Decisions(p, false, t, [Clean(LATER, map[])] + second) == Decisions(p, false, t.(now := LATER), second)
    ensures WellTimed(p, t, [Clean(LATER, map[])] + second, delay) <==> WellTimed(p, t.(now := LATER), second, delay)
  {
    var rest := [Clean(LATER, map[])] + second;
    assert rest[1..] == second && rest[0] == Clean(LATER, map[]);
    assert [] + Decisions(p, false, t.(now := LATER), second) == Decisions(p, false, t.(now := LATER), second);
  }

  /** Eviction is unobservable exactly when a bucket is sure to have refilled. */
  lemma UnobservableExactly(p: Params, delay: nat)
    requires Sane(p, delay)
    ensures Unobservable(p, delay) <==> Refills(p, delay)
  {
    if Refills(p, delay) {
      RefillsSuffices(p, delay);
    } else {
      DrainedTwice(p, delay);
      DrainedOnce(p, delay);
    }
  }

  // ----- The admission bound -----

  /** A past, then the events of a window of this length; one client is counted. */
  datatype Window = Window(past: seq<Event>, events: seq<Event>, ip: string, opens: Time, length: nat)

  predicate InWindow(w: Window) {
    forall i :: 0 <= i < |w.events| ==> w.opens <= w.events[i].at <= w.opens + w.length
  }

  /** The client is admitted at most the burst and `rps` times the seconds of the window. */
  predicate AdmitsAtMost(p: Params, start: Time, w: Window) {
    Admitted(Decisions(p, true, After(p, true, Start(start), w.past), w.events), w.ip) as real
    <= p.burst as real + p.rps * (w.length as real) / 1_000_000_000.0
  }

  ghost predicate Bounded(p: Params, delay: nat) {
    forall start: Time, w: Window ::
      WellTimed(p, Start(start), w.past + w.events, delay) && InWindow(w) ==> AdmitsAtMost(p, start, w)
  }

  /** Two bursts in a window that opens when the first wave is decided. */
  function TwoBursts(p: Params, delay: nat): Window
    requires delay <= IDLE
  {
    Window(Arrivals(0, 0, p.burst),
           Decides(delay, 0, p.burst) + ([Clean(LATER, map[])] + Wave(LATER, LATER, p.burst, p.burst)),
           CLIENT, delay, IDLE + 1 - delay)
  }

  lemma TwoBurstsInWindow(p: Params, delay: nat)
    requires delay <= IDLE
    ensures InWindow(TwoBursts(p, delay))
  {
    var w, asks := TwoBursts(p, delay), Decides(delay, 0, p.burst);
    DecidesAt(delay, 0, p.burst);
    WaveAt(LATER, p.burst, p.burst);
    forall i | 0 <= i < |w.events| ensures w.opens <= w.events[i].at <= w.opens + w.length {
      if i < |asks| {
        assert w.events[i] in asks;
      } else if i > |asks| {
        assert w.events[i] == Wave(LATER, LATER, p.burst, p.burst)[i - |asks| - 1];
      }
    }
  }

  lemma TwoBurstsAdmitted(p: Params, delay: nat)
    requires Sane(p, delay)
    ensures var w := TwoBursts(p, delay);
            && w.past + w.events == Drain(p, delay)
            && Admitted(Decisions(p, true, After(p, true, Start(0), w.past), w.events), CLIENT) == 2 * p.burst
  {
    var w := TwoBursts(p, delay);
    assert w.past + w.events == Drain(p, delay);
    NewArrivals(p, true, Start(0), 0, 0, p.burst, delay);
    Split(p, true, Start(0), w.past, w.events);
    var decided := Decisions(p, true, After(p, true, Start(0), w.past), w.events);
    assert [] + decided == decided;
    DrainedTwice(p, delay);
  }

  lemma RefillsBounds(p: Params, delay: nat)
    requires Sane(p, delay) && Refills(p, delay)
    ensures Bounded(p, delay)
  {
    forall start: Time, w: Window | WellTimed(p, Start(start), w.past + w.events, delay) && InWindow(w)
      ensures AdmitsAtMost(p, start, w)
    {
      AdmissionBound(p, delay, start, w.past, w.events, w.ip, w.opens, w.length);
    }
  }

  /** In the window of two bursts more is admitted than flows in. */
  lemma TwoBurstsExceed(p: Params, delay: nat)
    requires Sane(p, delay) && !Refills(p, delay)
    ensures !AdmitsAtMost(p, 0, TwoBursts(p, delay))
  {
    TwoBurstsAdmitted(p, delay);
  }

  /** The admission bound holds in every window of every trace exactly when a bucket is sure to have refilled. */
  lemma BoundedExactly(p: Params, delay: nat)
    requires Sane(p, delay)
    ensures Bounded(p, delay) <==> Refills(p, delay)
  {
    if Refills(p, delay) {
      RefillsBounds(p, delay);
    } else {
      TwoBurstsInWindow(p, delay);
      TwoBurstsAdmitted(p, delay);
      DrainedOnce(p, delay);
      TwoBurstsExceed(p, delay);
    }
  }
}
