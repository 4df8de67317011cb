/**
 Evicting idle clients changes no decision, and bounds admission, exactly when a bucket is
 sure to refill in the idle time that eviction waits for, less the time a request may take
 between getting its limiter and asking it.
 */
module LimiterLaws {
  import opened Base
  import opened Limiting

  /** At `rps` tokens a second, ten minutes and a nanosecond less `delay` bring in the whole burst. */
  predicate Refills(p: Params, delay: int) {
    p.rps * ((10 * 60 * SECOND + 1 - delay) as real) / 1_000_000_000.0 >= p.burst as real
  }

  /** A bucket untouched since `delay` after its client was last seen is full when evicted. */
  lemma RefillsGain(p: Params, delay: int)
    ensures Refills(p, delay) <==> Gain(p, IDLE + 1 - delay) >= p.burst as real
  {
    GainRead(p, IDLE + 1 - delay);
  }

  predicate Sane(p: Params, delay: int) {
    p.rps > 0.0 && p.burst > 0 && 0 <= delay <= IDLE
  }

  // ----- Buckets -----

  lemma GainMonotone(p: Params, a: int, b: int)
    requires p.rps > 0.0 && a <= b
    ensures Gain(p, a) <= Gain(p, b)
  {
    var rate := p.rps / 1_000_000_000.0;
    assert rate * (b as real) - rate * (a as real) == rate * ((b - a) as real);
  }

  lemma GainAdds(p: Params, a: int, b: int)
    ensures Gain(p, a + b) == Gain(p, a) + Gain(p, b)
  {
  }

  ghost predicate BucketFits(p: Params, b: Bucket) {
    0.0 <= b.tokens <= p.burst as real
  }

  predicate Full(p: Params, b: Bucket, now: Time) {
    Level(p, b, now) == p.burst as real
  }

  /** Two buckets that no decision from `now` on can tell apart. */
  predicate Alike(p: Params, a: Bucket, b: Bucket, now: Time) {
    a == b || (Full(p, a, now) && Full(p, b, now))
  }

  lemma LevelGrows(p: Params, b: Bucket, s: Time, t: Time)
    requires p.rps > 0.0 && BucketFits(p, b) && s <= t
    ensures 0.0 <= Level(p, b, s) <= Level(p, b, t) <= Level(p, b, s) + Gain(p, t - s)
  {
    GainMonotone(p, 0, t - s);
    if s > b.last {
      GainAdds(p, s - b.last, t - s);
      GainMonotone(p, 0, s - b.last);
      assert (s - b.last) + (t - s) == t - b.last;
    } else if t > b.last {
      GainMonotone(p, 0, t - b.last);
      GainMonotone(p, t - b.last, t - s);
    }
  }

  lemma AlikeLater(p: Params, a: Bucket, b: Bucket, s: Time, t: Time)
    requires p.rps > 0.0 && BucketFits(p, a) && BucketFits(p, b) && s <= t && Alike(p, a, b, s)
    ensures Alike(p, a, b, t) && Level(p, a, t) == Level(p, b, t)
  {
    LevelGrows(p, a, s, t);
    LevelGrows(p, b, s, t);
  }

  lemma TakeFits(p: Params, b: Bucket, now: Time)
    requires p.rps > 0.0 && BucketFits(p, b)
    ensures BucketFits(p, Take(p, b, now).0)
  {
  }

  // ----- The invariant of a run -----

  /** Both tables have the same clients and each client its own limiter. */
  ghost predicate Shape(p: Params, s: State) {
    && s.lastSeen.Keys == s.visitors.Keys
    && (forall ip :: ip in s.visitors ==> s.visitors[ip] < |s.buckets|)
    && (forall a, b :: a in s.visitors && b in s.visitors && s.visitors[a] == s.visitors[b] ==> a == b)
    && (forall req :: req in s.pending ==> s.pending[req].id < |s.buckets|)
    && (forall i :: 0 <= i < |s.buckets| ==> BucketFits(p, s.buckets[i]))
  }

  ghost predicate Seen(s: State, ip: string, delay: int)
    requires ip in s.visitors && ip in s.lastSeen && s.visitors[ip] < |s.buckets|
  {
    s.lastSeen[ip] <= s.now && s.buckets[s.visitors[ip]].last <= s.lastSeen[ip] + delay
  }

  /** A request that may still decide holds its client's current limiter. */
  ghost predicate Holds(s: State, w: Waiting, delay: int) {
    s.now - w.since <= delay ==>
      w.ip in s.visitors && s.visitors[w.ip] == w.id && w.ip in s.lastSeen && w.since <= s.lastSeen[w.ip]
  }

  ghost predicate Fits(p: Params, s: State, delay: int) {
    && Shape(p, s)
    && (forall ip :: ip in s.visitors ==> Seen(s, ip, delay))
    && (forall req :: req in s.pending ==> Holds(s, s.pending[req], delay))
  }

  lemma ArriveShape(p: Params, s: State, at: Time, req: nat, ip: string)
    requires Shape(p, s)
    ensures Shape(p, Arrived(p, s, at, req, ip))
  {
    var t := Arrived(p, s, at, req, ip);
    forall i | 0 <= i < |t.buckets| ensures BucketFits(p, t.buckets[i]) {
      if i < |s.buckets| { assert t.buckets[i] == s.buckets[i]; }
    }
  }

  lemma ArriveSeen(p: Params, s: State, at: Time, req: nat, ip: string, delay: int, other: string)
    requires Shape(p, s) && s.now <= at && delay >= 0 && other in Arrived(p, s, at, req, ip).visitors
    requires other in s.visitors ==> Seen(s, other, delay)
    ensures var t := Arrived(p, s, at, req, ip);
            t.visitors[other] < |t.buckets| && other in t.lastSeen && Seen(t, other, delay)
  {
  }

  lemma ArriveFits(p: Params, evicting: bool, s: State, e: Event, delay: int)
    requires Sane(p, delay) && Fits(p, s, delay) && Allowed(s, e, delay) && e.Arrive?
    ensures Fits(p, Apply(p, evicting, s, e).0, delay)
  {
    var t := Arrived(p, s, e.at, e.req, e.ip);
    ArriveShape(p, s, e.at, e.req, e.ip);
    forall req | req in t.pending ensures Holds(t, t.pending[req], delay) {
      if req != e.req { assert Holds(s, s.pending[req], delay); }
    }
    forall ip | ip in t.visitors ensures Seen(t, ip, delay) {
      if ip in s.visitors { assert Seen(s, ip, delay); }
      ArriveSeen(p, s, e.at, e.req, e.ip, delay, ip);
    }
  }

  lemma DecideFits(p: Params, evicting: bool, s: State, e: Event, delay: int)
    requires Sane(p, delay) && Fits(p, s, delay) && Allowed(s, e, delay) && e.Decide?
    ensures Fits(p, Apply(p, evicting, s, e).0, delay)
  {
    var w := s.pending[e.req];
    var t := Decided(p, s, e.at, e.req).0;
    assert Holds(s, w, delay);
    TakeFits(p, s.buckets[w.id], e.at);
    forall ip | ip in t.visitors ensures Seen(t, ip, delay) {
      assert Seen(s, ip, delay);
    }
    forall req | req in t.pending ensures Holds(t, t.pending[req], delay) {
      assert Holds(s, s.pending[req], delay);
    }
  }

  lemma CleanFits(p: Params, evicting: bool, s: State, e: Event, delay: int)
    requires Sane(p, delay) && Fits(p, s, delay) && Allowed(s, e, delay) && e.Clean?
    ensures Fits(p, Apply(p, evicting, s, e).0, delay)
  {
    var t := Apply(p, evicting, s, e).0;
    forall ip | ip in t.visitors ensures Seen(t, ip, delay) {
      assert Seen(s, ip, delay);
    }
    forall req | req in t.pending ensures Holds(t, t.pending[req], delay) {
      assert Holds(s, s.pending[req], delay);
    }
  }

  /** The key sets of `visitors` and `lastSeen` stay equal, whatever is evicted when. */
  lemma StepFits(p: Params, evicting: bool, s: State, e: Event, delay: int)
    requires Sane(p, delay) && Fits(p, s, delay) && Allowed(s, e, delay)
    ensures Fits(p, Apply(p, evicting, s, e).0, delay)
  {
    match e
    case Arrive(_, _, _) => ArriveFits(p, evicting, s, e, delay);
    case Decide(_, _) => DecideFits(p, evicting, s, e, delay);
    case Clean(_, _) => CleanFits(p, evicting, s, e, delay);
  }

  // ----- Eviction is unobservable -----

  ghost predicate SameWaiting(a: State, b: State) {
    && a.pending.Keys == b.pending.Keys
    && forall req :: req in a.pending ==>
         a.pending[req].ip == b.pending[req].ip && a.pending[req].since == b.pending[req].since
  }

  function BucketOf(s: State, ip: string): Bucket
    requires ip in s.visitors && s.visitors[ip] < |s.buckets|
  {
    s.buckets[s.visitors[ip]]
  }

  /**
   The evicting table `e` against the one that keeps everything, `n`: a client both have is
   in the same position, and a client only `n` has is back to a full bucket.
   */
  ghost predicate Shadows(p: Params, e: State, n: State)
    requires Shape(p, e) && Shape(p, n)
  {
    && e.now == n.now && SameWaiting(e, n)
    && (forall ip :: ip in e.visitors ==> ip in n.visitors && Alike(p, BucketOf(e, ip), BucketOf(n, ip), n.now))
    && (forall ip :: ip in n.visitors && ip !in e.visitors ==> Full(p, BucketOf(n, ip), n.now))
  }

  lemma ArriveShadows(p: Params, e: State, n: State, ev: Event, delay: int)
    requires Sane(p, delay) && Fits(p, e, delay) && Fits(p, n, delay) && Shadows(p, e, n)
    requires ev.Arrive? && Allowed(n, ev, delay)
    ensures Shape(p, Apply(p, true, e, ev).0) && Shape(p, Apply(p, false, n, ev).0)
    ensures Shadows(p, Apply(p, true, e, ev).0, Apply(p, false, n, ev).0)
  {
    var e', n' := Arrived(p, e, ev.at, ev.req, ev.ip), Arrived(p, n, ev.at, ev.req, ev.ip);
    ArriveShape(p, e, ev.at, ev.req, ev.ip);
    ArriveShape(p, n, ev.at, ev.req, ev.ip);
    ArriveWaiting(p, e, n, ev);
    forall ip | ip in e'.visitors ensures ip in n'.visitors && Alike(p, BucketOf(e', ip), BucketOf(n', ip), ev.at) {
      ArriveAlike(p, e, n, ev, ip);
    }
    forall ip | ip in n'.visitors && ip !in e'.visitors ensures Full(p, BucketOf(n', ip), ev.at) {
      ArriveAlike(p, e, n, ev, ip);
    }
  }

  lemma ArriveWaiting(p: Params, e: State, n: State, ev: Event)
    requires SameWaiting(e, n) && ev.Arrive?
    ensures SameWaiting(Arrived(p, e, ev.at, ev.req, ev.ip), Arrived(p, n, ev.at, ev.req, ev.ip))
  {
  }

  lemma ArriveAlike(p: Params, e: State, n: State, ev: Event, ip: string)
    requires p.rps > 0.0 && Shape(p, e) && Shape(p, n) && Shadows(p, e, n) && ev.Arrive? && n.now <= ev.at
    ensures var e', n' := Arrived(p, e, ev.at, ev.req, ev.ip), Arrived(p, n, ev.at, ev.req, ev.ip);
            && (ip in e'.visitors ==> e'.visitors[ip] < |e'.buckets|)
            && (ip in n'.visitors ==> n'.visitors[ip] < |n'.buckets|)
            && (ip in e'.visitors ==> ip in n'.visitors && Alike(p, BucketOf(e', ip), BucketOf(n', ip), ev.at))
            && (ip in n'.visitors && ip !in e'.visitors ==> Full(p, BucketOf(n', ip), ev.at))
  {
    if ip in e.visitors {
      AlikeLater(p, BucketOf(e, ip), BucketOf(n, ip), n.now, ev.at);
    } else if ip in n.visitors {
      LevelGrows(p, BucketOf(n, ip), n.now, ev.at);
    }
  }

  lemma DecideShadows(p: Params, e: State, n: State, ev: Event, delay: int)
    requires Sane(p, delay) && Fits(p, e, delay) && Fits(p, n, delay) && Shadows(p, e, n)
    requires ev.Decide? && Allowed(n, ev, delay)
    ensures Shape(p, Apply(p, true, e, ev).0) && Shape(p, Apply(p, false, n, ev).0)
    ensures Shadows(p, Apply(p, true, e, ev).0, Apply(p, false, n, ev).0)
    ensures Apply(p, true, e, ev).1 == Apply(p, false, n, ev).1
  {
    DecideFits(p, true, e, ev, delay);
    DecideFits(p, false, n, ev, delay);
    var e', n' := Decided(p, e, ev.at, ev.req).0, Decided(p, n, ev.at, ev.req).0;
    var mine := e.pending[ev.req].ip;
    assert Holds(e, e.pending[ev.req], delay) && Holds(n, n.pending[ev.req], delay);
    AlikeLater(p, BucketOf(e, mine), BucketOf(n, mine), n.now, ev.at);
    forall ip | ip in e'.visitors ensures ip in n'.visitors && Alike(p, BucketOf(e', ip), BucketOf(n', ip), ev.at) {
      if ip == mine {
        TakeAlike(p, BucketOf(e, mine), BucketOf(n, mine), ev.at);
      } else {
        AlikeLater(p, BucketOf(e, ip), BucketOf(n, ip), n.now, ev.at);
      }
    }
    forall ip | ip in n'.visitors && ip !in e'.visitors ensures Full(p, BucketOf(n', ip), ev.at) {
      LevelGrows(p, BucketOf(n, ip), n.now, ev.at);
    }
  }

  lemma TakeAlike(p: Params, a: Bucket, b: Bucket, now: Time)
    requires Alike(p, a, b, now) && Level(p, a, now) == Level(p, b, now)
    ensures Take(p, a, now).1 == Take(p, b, now).1 && Alike(p, Take(p, a, now).0, Take(p, b, now).0, now)
  {
  }

  /** An entry old enough to be evicted had refilled when the pass reached it, and stays full. */
  lemma EvictedIsFull(p: Params, s: State, ip: string, ev: Event, delay: int)
    requires Sane(p, delay) && Refills(p, delay) && Fits(p, s, delay) && ev.Clean? && Allowed(s, ev, delay)
    requires ip in s.visitors && ip !in Recent(s.lastSeen, ev.readings, ev.at)
    ensures Full(p, BucketOf(s, ip), ev.at)
  {
    var b, reached := BucketOf(s, ip), Reading(ev.readings, ip, ev.at);
    assert Seen(s, ip, delay);
    RefillsGain(p, delay);
    GainMonotone(p, IDLE + 1 - delay, reached - b.last);
    assert Full(p, b, reached);
    LevelGrows(p, b, reached, ev.at);
  }

  lemma CleanShadows(p: Params, e: State, n: State, ev: Event, delay: int)
    requires Sane(p, delay) && Refills(p, delay) && Fits(p, e, delay) && Fits(p, n, delay) && Shadows(p, e, n)
    requires ev.Clean? && Allowed(n, ev, delay)
    ensures Shape(p, Apply(p, true, e, ev).0) && Shape(p, Apply(p, false, n, ev).0)
    ensures Shadows(p, Apply(p, true, e, ev).0, Apply(p, false, n, ev).0)
  {
    CleanFits(p, true, e, ev, delay);
    CleanFits(p, false, n, ev, delay);
    var e', n' := Cleaned(e, ev.at, ev.readings), n.(now := ev.at);
    forall ip | ip in e'.visitors ensures ip in n'.visitors && Alike(p, BucketOf(e', ip), BucketOf(n', ip), ev.at) {
      AlikeLater(p, BucketOf(e, ip), BucketOf(n, ip), n.now, ev.at);
    }
    forall ip | ip in n'.visitors && ip !in e'.visitors ensures Full(p, BucketOf(n', ip), ev.at) {
      if ip in e.visitors {
        EvictedIsFull(p, e, ip, ev, delay);
        AlikeLater(p, BucketOf(e, ip), BucketOf(n, ip), n.now, ev.at);
      } else {
        LevelGrows(p, BucketOf(n, ip), n.now, ev.at);
      }
    }
  }

  lemma StepShadows(p: Params, e: State, n: State, ev: Event, delay: int)
    requires Sane(p, delay) && Refills(p, delay) && Fits(p, e, delay) && Fits(p, n, delay) && Shadows(p, e, n)
    requires Allowed(n, ev, delay)
    ensures Fits(p, Apply(p, true, e, ev).0, delay) && Fits(p, Apply(p, false, n, ev).0, delay)
    ensures Shadows(p, Apply(p, true, e, ev).0, Apply(p, false, n, ev).0)
    ensures Apply(p, true, e, ev).1 == Apply(p, false, n, ev).1
  {
    StepFits(p, true, e, ev, delay);
    StepFits(p, false, n, ev, delay);
    match ev
    case Arrive(_, _, _) => ArriveShadows(p, e, n, ev, delay);
    case Decide(_, _) => DecideShadows(p, e, n, ev, delay);
    case Clean(_, _) => CleanShadows(p, e, n, ev, delay);
  }

  lemma {:induction false} SameDecisions(p: Params, e: State, n: State, events: seq<Event>, delay: int)
    requires Sane(p, delay) && Refills(p, delay) && Fits(p, e, delay) && Fits(p, n, delay) && Shadows(p, e, n)
    requires WellTimed(p, n, events, delay)
    ensures Decisions(p, true, e, events) == Decisions(p, false, n, events)
    decreases |events|
  {
    if events != [] {
      StepShadows(p, e, n, events[0], delay);
      SameDecisions(p, Apply(p, true, e, events[0]).0, Apply(p, false, n, events[0]).0, events[1..], delay);
    }
  }

  /** Every well-timed trace is decided the same with and without eviction. */
  ghost predicate Unobservable(p: Params, delay: int) {
    forall start, events :: WellTimed(p, Start(start), events, delay) ==>
                              Decisions(p, true, Start(start), events) == Decisions(p, false, Start(start), events)
  }

  lemma RefillsSuffices(p: Params, delay: int)
    requires Sane(p, delay) && Refills(p, delay)
    ensures Unobservable(p, delay)
  {
    forall start, events | WellTimed(p, Start(start), events, delay)
      ensures Decisions(p, true, Start(start), events) == Decisions(p, false, Start(start), events)
    {
      SameDecisions(p, Start(start), Start(start), events, delay);
    }
  }

  // ----- Admission -----

  /** How often `ip` is admitted. */
  function Admitted(decisions: seq<(string, bool)>, ip: string): nat {
    if decisions == [] then 0
    else (if decisions[0] == (ip, true) then 1 else 0) + Admitted(decisions[1..], ip)
  }

  function Count(decision: Option<(string, bool)>, ip: string): nat {
    if decision == Some((ip, true)) then 1 else 0
  }

  lemma AdmittedFirst(decision: Option<(string, bool)>, rest: seq<(string, bool)>, ip: string)
    ensures Admitted(Listed(decision) + rest, ip) == Count(decision, ip) + Admitted(rest, ip)
  {
    if decision.None? {
      assert Listed(decision) + rest == rest;
    } else {
      assert (Listed(decision) + rest)[1..] == rest;
    }
  }

  /** The tokens `ip` can draw on; a client not seen yet starts full. */
  ghost function Credit(p: Params, s: State, ip: string): real
    requires Shape(p, s)
  {
    if ip in s.visitors then Level(p, BucketOf(s, ip), s.now) else p.burst as real
  }

  lemma DecideCredit(p: Params, s: State, e: Event, delay: int, ip: string)
    requires Sane(p, delay) && Fits(p, s, delay) && Allowed(s, e, delay) && e.Decide?
    ensures var (t, ok) := Decided(p, s, e.at, e.req);
            && Shape(p, t)
            && Credit(p, t, ip) + (Count(Some((s.pending[e.req].ip, ok)), ip) as real)
               <= Credit(p, s, ip) + Gain(p, e.at - s.now)
  {
    DecideFits(p, false, s, e, delay);
    GainMonotone(p, 0, e.at - s.now);
    assert Holds(s, s.pending[e.req], delay);
    if ip in s.visitors { LevelGrows(p, BucketOf(s, ip), s.now, e.at); }
  }

  lemma ArriveCredit(p: Params, s: State, at: Time, req: nat, arriving: string, ip: string)
    requires p.rps > 0.0 && Shape(p, s) && s.now <= at
    ensures Shape(p, Arrived(p, s, at, req, arriving))
    ensures Credit(p, Arrived(p, s, at, req, arriving), ip) <= Credit(p, s, ip) + Gain(p, at - s.now)
  {
    var t := Arrived(p, s, at, req, arriving);
    ArriveShape(p, s, at, req, arriving);
    GainMonotone(p, 0, at - s.now);
    if ip in s.visitors {
      assert BucketOf(t, ip) == BucketOf(s, ip);
      LevelGrows(p, BucketOf(s, ip), s.now, at);
    }
  }

  lemma WaitCredit(p: Params, s: State, at: Time, ip: string)
    requires p.rps > 0.0 && Shape(p, s) && s.now <= at
    ensures Shape(p, s.(now := at)) && Credit(p, s.(now := at), ip) <= Credit(p, s, ip) + Gain(p, at - s.now)
  {
    GainMonotone(p, 0, at - s.now);
    if ip in s.visitors { LevelGrows(p, BucketOf(s, ip), s.now, at); }
  }

  lemma StepCredit(p: Params, s: State, e: Event, delay: int, ip: string)
    requires Sane(p, delay) && Fits(p, s, delay) && Allowed(s, e, delay)
    ensures Shape(p, Apply(p, false, s, e).0)
    ensures Credit(p, Apply(p, false, s, e).0, ip) + (Count(Apply(p, false, s, e).1, ip) as real)
            <= Credit(p, s, ip) + Gain(p, e.at - s.now)
  {
    match e
    case Decide(_, _) => DecideCredit(p, s, e, delay, ip);
    case Arrive(at, req, arriving) => ArriveCredit(p, s, at, req, arriving, ip);
    case Clean(at, _) => WaitCredit(p, s, at, ip);
  }

  lemma CreditPositive(p: Params, s: State, ip: string)
    requires p.rps > 0.0 && Shape(p, s)
    ensures Credit(p, s, ip) >= 0.0
  {
    if ip in s.visitors { LevelGrows(p, BucketOf(s, ip), s.now, s.now); }
  }

  /** A step's cost and the cost of the rest add up. */
  lemma CreditAdds(p: Params, s: State, t: State, decision: Option<(string, bool)>, rest: seq<(string, bool)>,
                   ip: string, end: Time)
    requires Shape(p, s) && Shape(p, t)
    requires Credit(p, t, ip) + (Count(decision, ip) as real) <= Credit(p, s, ip) + Gain(p, t.now - s.now)
    requires Admitted(rest, ip) as real <= Credit(p, t, ip) + Gain(p, end - t.now)
    ensures Admitted(Listed(decision) + rest, ip) as real <= Credit(p, s, ip) + Gain(p, end - s.now)
  {
    AdmittedFirst(decision, rest, ip);
    Accumulate(p, Count(decision, ip), Admitted(rest, ip), Credit(p, s, ip), Credit(p, t, ip), s.now, t.now, end);
  }

  lemma DecidesFirst(p: Params, s: State, events: seq<Event>, t: State, decision: Option<(string, bool)>)
    requires events != [] && Apply(p, false, s, events[0]) == (t, decision)
    ensures Decisions(p, false, s, events) == Listed(decision) + Decisions(p, false, t, events[1..])
  {
  }

  lemma {:induction false} RunCredit(p: Params, s: State, events: seq<Event>, delay: int, ip: string, end: Time)
    requires Sane(p, delay) && Fits(p, s, delay) && WellTimed(p, s, events, delay)
    requires s.now <= end && forall i :: 0 <= i < |events| ==> events[i].at <= end
    ensures Admitted(Decisions(p, false, s, events), ip) as real <= Credit(p, s, ip) + Gain(p, end - s.now)
    decreases |events|
  {
    if events == [] {
      GainMonotone(p, 0, end - s.now);
      CreditPositive(p, s, ip);
    } else {
      var (t, decision) := Apply(p, false, s, events[0]);
      var rest := Decisions(p, false, t, events[1..]);
      StepFits(p, false, s, events[0], delay);
      StepCredit(p, s, events[0], delay, ip);
      RunCredit(p, t, events[1..], delay, ip, end);
      DecidesFirst(p, s, events, t, decision);
      CreditAdds(p, s, t, decision, rest, ip, end);
    }
  }

  lemma Accumulate(p: Params, one: nat, more: nat, before: real, between: real, s: Time, t: Time, end: Time)
    requires between + (one as real) <= before + Gain(p, t - s) && more as real <= between + Gain(p, end - t)
    ensures (one + more) as real <= before + Gain(p, end - s)
  {
    GainAdds(p, t - s, end - t);
    assert (t - s) + (end - t) == end - s;
  }

  // ----- Windows -----

  lemma {:induction false} Split(p: Params, evicting: bool, s: State, a: seq<Event>, b: seq<Event>)
    ensures Decisions(p, evicting, s, a + b) ==
            Decisions(p, evicting, s, a) + Decisions(p, evicting, After(p, evicting, s, a), b)
    ensures After(p, evicting, s, a + b) == After(p, evicting, After(p, evicting, s, a), b)
    decreases |a|
  {
    if a == [] {
      assert a + b == b;
    } else {
      assert (a + b)[1..] == a[1..] + b;
      Split(p, evicting, Apply(p, evicting, s, a[0]).0, a[1..], b);
    }
  }

  lemma {:induction false} WellTimedSplit(p: Params, s: State, a: seq<Event>, b: seq<Event>, delay: int)
    ensures WellTimed(p, s, a + b, delay) <==>
            WellTimed(p, s, a, delay) && WellTimed(p, After(p, false, s, a), b, delay)
    decreases |a|
  {
    if a == [] {
      assert a + b == b;
    } else {
      assert (a + b)[1..] == a[1..] + b && (a + b)[0] == a[0];
      WellTimedSplit(p, Apply(p, false, s, a[0]).0, a[1..], b, delay);
    }
  }

  lemma {:induction false} RunShadows(p: Params, e: State, n: State, events: seq<Event>, delay: int)
    requires Sane(p, delay) && Refills(p, delay) && Fits(p, e, delay) && Fits(p, n, delay) && Shadows(p, e, n)
    requires WellTimed(p, n, events, delay)
    ensures Fits(p, After(p, true, e, events), delay) && Fits(p, After(p, false, n, events), delay)
    ensures Shadows(p, After(p, true, e, events), After(p, false, n, events))
    decreases |events|
  {
    if events != [] {
      StepShadows(p, e, n, events[0], delay);
      RunShadows(p, Apply(p, true, e, events[0]).0, Apply(p, false, n, events[0]).0, events[1..], delay);
    }
  }

  lemma CreditAtMostBurst(p: Params, s: State, ip: string)
    requires Shape(p, s)
    ensures Credit(p, s, ip) <= p.burst as real
  {
  }

  /** The first event of a window, without what a cleaning pass did before the window trimmed. */
  function Opening(e: Event): Event {
    if e.Clean? then Clean(e.at, map[]) else e
  }

  /** Without eviction nothing depends on the state's clock, so a run may start when a window opens. */
  lemma OpensAt(p: Params, s: State, opens: Time, events: seq<Event>, delay: int)
    requires events != [] && opens <= events[0].at && WellTimed(p, s, events, delay)
    ensures var trimmed := [Opening(events[0])] + events[1..];
            && Decisions(p, false, s.(now := opens), trimmed) == Decisions(p, false, s, events)
            && WellTimed(p, s.(now := opens), trimmed, delay)
  {
    var trimmed := [Opening(events[0])] + events[1..];
    assert Apply(p, false, s.(now := opens), trimmed[0]) == Apply(p, false, s, events[0]);
    assert trimmed[1..] == events[1..];
  }

  lemma OpenFits(p: Params, s: State, opens: Time, delay: int)
    requires Fits(p, s, delay) && s.now <= opens
    ensures Fits(p, s.(now := opens), delay)
  {
    var t := s.(now := opens);
    forall ip | ip in t.visitors ensures Seen(t, ip, delay) {
      assert Seen(s, ip, delay);
    }
    forall req | req in t.pending ensures Holds(t, t.pending[req], delay) {
      assert Holds(s, s.pending[req], delay);
    }
  }

  /** A run credited from the opening of a window on, or from the state's clock if that is later. */
  lemma OpenedCredit(p: Params, s: State, from: Time, events: seq<Event>, delay: int, ip: string, end: Time)
    requires Sane(p, delay) && Fits(p, s, delay) && WellTimed(p, s, events, delay)
    requires events != [] && s.now <= from <= events[0].at
    requires forall i :: 0 <= i < |events| ==> events[i].at <= end
    ensures Admitted(Decisions(p, false, s, events), ip) as real <= p.burst as real + Gain(p, end - from)
  {
    OpensAt(p, s, from, events, delay);
    OpenFits(p, s, from, delay);
    var trimmed := [Opening(events[0])] + events[1..];
    forall i | 0 <= i < |trimmed| ensures trimmed[i].at <= end {
      assert trimmed[i].at == events[i].at;
    }
    RunCredit(p, s.(now := from), trimmed, delay, ip, end);
    CreditAtMostBurst(p, s.(now := from), ip);
  }

  lemma WindowCredit(p: Params, s: State, events: seq<Event>, delay: int, ip: string, opens: Time, length: nat)
    requires Sane(p, delay) && Fits(p, s, delay) && WellTimed(p, s, events, delay)
    requires forall i :: 0 <= i < |events| ==> opens <= events[i].at <= opens + length
    ensures Admitted(Decisions(p, false, s, events), ip) as real <= p.burst as real + Gain(p, length)
  {
    GainMonotone(p, 0, length);
    if events != [] {
      var from := if s.now <= opens then opens else s.now;
      OpenedCredit(p, s, from, events, delay, ip, opens + length);
      GainMonotone(p, opens + length - from, length);
    }
  }

  /**
   The admission bound: after any well-timed past with any evictions, no client is admitted
   more often in a window than the burst and `rps` times the seconds of the window.
   */
  lemma AdmissionBound(p: Params, delay: int, start: Time, past: seq<Event>, window: seq<Event>, ip: string,
                       opens: Time, length: nat)
    requires Sane(p, delay) && Refills(p, delay) && WellTimed(p, Start(start), past + window, delay)
    requires forall i :: 0 <= i < |window| ==> opens <= window[i].at <= opens + length
    ensures Admitted(Decisions(p, true, After(p, true, Start(start), past), window), ip) as real
            <= p.burst as real + p.rps * (length as real) / 1_000_000_000.0
  {
    GainRead(p, length);
    WellTimedSplit(p, Start(start), past, window, delay);
    RunShadows(p, Start(start), Start(start), past, delay);
    var e, n := After(p, true, Start(start), past), After(p, false, Start(start), past);
    SameDecisions(p, e, n, window, delay);
    WindowCredit(p, n, window, delay, ip, opens, length);
  }

  /** The key sets of the two tables are equal after any events in any order and at any times. */
  lemma {:induction false} SameClients(p: Params, evicting: bool, s: State, events: seq<Event>)
    requires s.lastSeen.Keys == s.visitors.Keys
    ensures After(p, evicting, s, events).lastSeen.Keys == After(p, evicting, s, events).visitors.Keys
    decreases |events|
  {
    if events != [] {
      SameClients(p, evicting, Apply(p, evicting, s, events[0]).0, events[1..]);
    }
  }
}
