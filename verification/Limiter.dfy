/**
 The per-client rate limiter (internal/server/server.go): a table of token buckets whose
 idle entries are evicted. A bucket follows the documented meaning of a rate limiter that
 starts full, over exact real arithmetic.
 */
module Limiting {
  import opened Base

  datatype Params = Params(rps: real, burst: nat)

  /** Tokens held when last updated. */
  datatype Bucket = Bucket(tokens: real, last: Time)

  /** An entry idle for longer than this is evicted. */
  const IDLE: int := 600_000_000_000

  /** The tokens that flow in during `d` nanoseconds. */
  function Gain(p: Params, d: int): real {
    p.rps / 1_000_000_000.0 * (d as real)
  }

  /** Tokens flow in at `rps` a second. */
  lemma GainRead(p: Params, d: int)
    ensures Gain(p, d) == p.rps * (d as real) / 1_000_000_000.0
  {
    ProductOverBillion(p.rps, d as real);
  }

  lemma ProductOverBillion(x: real, y: real)
    ensures x / 1_000_000_000.0 * y == x * y / 1_000_000_000.0
  {
  }

  /** The tokens available at the time `now`. */
  function Level(p: Params, b: Bucket, now: Time): real {
    var filled := b.tokens + (if now > b.last then Gain(p, now - b.last) else 0.0);
    if filled > p.burst as real then p.burst as real else filled
  }

  function NewBucket(p: Params, now: Time): Bucket {
    Bucket(p.burst as real, now)
  }

  /** `Allow`: takes a token if there is one; a refusal changes nothing. */
  function Take(p: Params, b: Bucket, now: Time): (Bucket, bool) {
    if Level(p, b, now) >= 1.0 then (Bucket(Level(p, b, now) - 1.0, now), true) else (b, false)
  }

  /** The clock as a cleaning pass reads it when it reaches a client. */
  function Reading(readings: map<string, Time>, ip: string, at: Time): Time {
    if ip in readings then readings[ip] else at
  }

  /** The clients that a cleaning pass keeps. */
  function Recent(lastSeen: map<string, Time>, readings: map<string, Time>, at: Time): set<string> {
    set ip | ip in lastSeen && Sub(Reading(readings, ip, at), lastSeen[ip]) <= IDLE
  }

  class Limiter {
    const p: Params
    var bucket: Bucket

    constructor (p: Params, now: Time)
      ensures this.p == p && bucket == NewBucket(p, now)
    {
      this.p := p;
      this.bucket := NewBucket(p, now);
    }

    /** Refills at `rps` tokens a second up to the burst, and takes a whole token if there is one. */
    method Allow(now: Time) returns (ok: bool)
      modifies this
      ensures (bucket, ok) == Take(p, old(bucket), now)
      ensures var since := if now > old(bucket.last) then now - old(bucket.last) else 0;
              var filled := old(bucket.tokens) + p.rps * (since as real) / 1_000_000_000.0;
              var available := if filled <= p.burst as real then filled else p.burst as real;
              && (ok <==> available >= 1.0)
              && bucket == if ok then Bucket(available - 1.0, now) else old(bucket)
    {
      GainRead(p, if now > bucket.last then now - bucket.last else 0);
      var level := Level(p, bucket, now);
      ok := level >= 1.0;
      if ok {
        bucket := Bucket(level - 1.0, now);
      }
    }
  }

  class Visitors {
    const p: Params
    var visitors: map<string, Limiter>
    var lastSeen: map<string, Time>

    ghost predicate Valid()
      reads this
    {
      visitors.Keys == lastSeen.Keys && forall ip :: ip in visitors ==> visitors[ip].p == p
    }

    constructor (p: Params)
      ensures Valid() && visitors == map[] && this.p == p
    {
      this.p := p;
      this.visitors := map[];
      this.lastSeen := map[];
    }

    /** `getVisitorLimiter`: the client's limiter, a new full one if it has none. */
    method Get(ip: string, now: Time) returns (limiter: Limiter)
      requires Valid()
      modifies this
      ensures Valid() && visitors == old(visitors)[ip := limiter] && lastSeen == old(lastSeen)[ip := now]
      ensures ip in old(visitors) ==> limiter == old(visitors)[ip] && limiter.bucket == old(limiter.bucket)
      ensures ip !in old(visitors) ==> fresh(limiter) && limiter.bucket == NewBucket(p, now)
    {
      if ip in visitors {
        limiter := visitors[ip];
      } else {
        limiter := new Limiter(p, now);
        visitors := visitors[ip := limiter];
      }
      lastSeen := lastSeen[ip := now];
    }

    /** One pass of `cleanupVisitors`, over the clients in any order, reading the clock at each. */
    method Cleanup(readings: map<string, Time>, at: Time)
      requires Valid()
      modifies this
      ensures Valid()
      ensures forall ip :: ip in visitors <==>
                ip in old(visitors)
                && Sub(if ip in readings then readings[ip] else at, old(lastSeen)[ip]) <= 10 * 60 * SECOND
      ensures visitors == map ip | ip in old(visitors) && ip in Recent(old(lastSeen), readings, at) :: old(visitors)[ip]
      ensures lastSeen == map ip | ip in old(lastSeen) && ip in Recent(old(lastSeen), readings, at) :: old(lastSeen)[ip]
    {
      ghost var all, seen, recent := visitors, lastSeen, Recent(lastSeen, readings, at);
      var todo := lastSeen.Keys;
      while todo != {}
        invariant todo <= seen.Keys && Valid()
        invariant forall ip :: ip in visitors <==> ip in all && (ip in todo || ip in recent)
        invariant forall ip :: ip in visitors ==> visitors[ip] == all[ip] && lastSeen[ip] == seen[ip]
        decreases todo
      {
        var ip :| ip in todo;
        assert lastSeen[ip] == seen[ip];
        if Sub(Reading(readings, ip, at), lastSeen[ip]) > IDLE {
          visitors := visitors - {ip};
          lastSeen := lastSeen - {ip};
        }
        todo := todo - {ip};
      }
    }
  }

  // ----- Traces -----

  /** A request between getting its limiter and asking it. It holds the limiter it got. */
  datatype Waiting = Waiting(ip: string, id: nat, since: Time)

  /** Limiters are numbered in order of creation; a request may hold one no longer in the table. */
  datatype State = State(
    now: Time,
    visitors: map<string, nat>,
    lastSeen: map<string, Time>,
    buckets: seq<Bucket>,
    pending: map<nat, Waiting>)

  datatype Event =
    | Arrive(at: Time, req: nat, ip: string)
    | Decide(at: Time, req: nat)
    | Clean(at: Time, readings: map<string, Time>)

  function Start(now: Time): State {
    State(now, map[], map[], [], map[])
  }

  function Arrived(p: Params, s: State, at: Time, req: nat, ip: string): State {
    if ip in s.visitors then
      s.(now := at, lastSeen := s.lastSeen[ip := at], pending := s.pending[req := Waiting(ip, s.visitors[ip], at)])
    else
      s.(now := at, visitors := s.visitors[ip := |s.buckets|], lastSeen := s.lastSeen[ip := at],
         buckets := s.buckets + [NewBucket(p, at)], pending := s.pending[req := Waiting(ip, |s.buckets|, at)])
  }

  function Decided(p: Params, s: State, at: Time, req: nat): (State, bool)
    requires req in s.pending && s.pending[req].id < |s.buckets|
  {
    var (b, ok) := Take(p, s.buckets[s.pending[req].id], at);
    (s.(now := at, buckets := s.buckets[s.pending[req].id := b], pending := s.pending - {req}), ok)
  }

  function Cleaned(s: State, at: Time, readings: map<string, Time>): State {
    s.(now := at,
       visitors := map ip | ip in s.visitors && ip in Recent(s.lastSeen, readings, at) :: s.visitors[ip],
       lastSeen := map ip | ip in s.lastSeen && ip in Recent(s.lastSeen, readings, at) :: s.lastSeen[ip])
  }

  /** One event and, for a decision, its client and outcome. Without eviction, cleaning does nothing. */
  function Apply(p: Params, evicting: bool, s: State, e: Event): (State, Option<(string, bool)>) {
    match e
    case Arrive(at, req, ip) => (Arrived(p, s, at, req, ip), None)
    case Decide(at, req) =>
      if req in s.pending && s.pending[req].id < |s.buckets| then
        var (t, ok) := Decided(p, s, at, req);
        (t, Some((s.pending[req].ip, ok)))
      else (s.(now := at), None)
    case Clean(at, readings) => (if evicting then Cleaned(s, at, readings) else s.(now := at), None)
  }

  function After(p: Params, evicting: bool, s: State, events: seq<Event>): State
    decreases |events|
  {
    if events == [] then s else After(p, evicting, Apply(p, evicting, s, events[0]).0, events[1..])
  }

  function Listed(decision: Option<(string, bool)>): seq<(string, bool)> {
    if decision.Some? then [decision.value] else []
  }

  function Decisions(p: Params, evicting: bool, s: State, events: seq<Event>): seq<(string, bool)>
    decreases |events|
  {
    if events == [] then []
    else
      var (t, decision) := Apply(p, evicting, s, events[0]);
      Listed(decision) + Decisions(p, evicting, t, events[1..])
  }

  /**
   Time moves on, also within a cleaning pass; request numbers are new; a request decides
   within `delay` of arriving.
   */
  predicate Allowed(s: State, e: Event, delay: int) {
    && s.now <= e.at
    && match e
       case Arrive(_, req, _) => req !in s.pending
       case Decide(at, req) => req in s.pending && at - s.pending[req].since <= delay
       case Clean(at, readings) => forall ip :: ip in readings ==> s.now <= readings[ip] <= at
  }

  predicate WellTimed(p: Params, s: State, events: seq<Event>, delay: int)
    decreases |events|
  {
    events == [] ||
    (Allowed(s, events[0], delay) && WellTimed(p, Apply(p, false, s, events[0]).0, events[1..], delay))
  }
}
