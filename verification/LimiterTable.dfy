/**
 The limiter table in place against the machine the traces run on: getting a limiter, asking
 it and cleaning up act on the objects as the machine's events act on its state.
 */
module LimiterTable {
  import opened Base
  import opened Limiting

  /** No limiter occurs twice. */
  ghost predicate NoRepeats(made: seq<Limiter>) {
    forall i, j :: 0 <= i < j < |made| ==> made[i] != made[j]
  }

  /**
   The tables and the limiters `made` so far, in order of creation, are in the state `s`: each
   client has the limiter of its number, and each limiter its bucket.
   */
  ghost predicate Represents(table: Visitors, made: seq<Limiter>, s: State)
    reads table, made
  {
    && table.Valid() && table.lastSeen == s.lastSeen && table.visitors.Keys == s.visitors.Keys
    && |made| == |s.buckets| && NoRepeats(made)
    && (forall ip :: ip in s.visitors ==> s.visitors[ip] < |made| && made[s.visitors[ip]] == table.visitors[ip])
    && (forall i :: 0 <= i < |made| ==> made[i].p == table.p && made[i].bucket == s.buckets[i])
    && (forall req :: req in s.pending ==> s.pending[req].id < |made|)
  }

  /** A request gets its limiter: the machine's arrival. */
  method Arrive(table: Visitors, ip: string, now: Time, req: nat, ghost made: seq<Limiter>, ghost s: State)
    returns (limiter: Limiter, ghost all: seq<Limiter>)
    requires Represents(table, made, s)
    modifies table
    ensures made <= all && Represents(table, all, Arrived(table.p, s, now, req, ip))
    ensures limiter == all[Arrived(table.p, s, now, req, ip).pending[req].id]
  {
    if ip in table.visitors {
      limiter := ArriveKnown(table, ip, now, req, made, s);
      all := made;
    } else {
      limiter := ArriveNew(table, ip, now, req, made, s);
      all := made + [limiter];
    }
  }

  method ArriveKnown(table: Visitors, ip: string, now: Time, ghost req: nat, ghost made: seq<Limiter>, ghost s: State)
    returns (limiter: Limiter)
    requires Represents(table, made, s) && ip in table.visitors
    modifies table
    ensures Represents(table, made, Arrived(table.p, s, now, req, ip)) && limiter == made[s.visitors[ip]]
  {
    limiter := table.Get(ip, now);
  }

  method ArriveNew(table: Visitors, ip: string, now: Time, ghost req: nat, ghost made: seq<Limiter>, ghost s: State)
    returns (limiter: Limiter)
    requires Represents(table, made, s) && ip !in table.visitors
    modifies table
    ensures Represents(table, made + [limiter], Arrived(table.p, s, now, req, ip))
  {
    limiter := table.Get(ip, now);
    ghost var all, t := made + [limiter], Arrived(table.p, s, now, req, ip);
    assert limiter !in made;
    forall other | other in t.visitors
      ensures t.visitors[other] < |all| && all[t.visitors[other]] == table.visitors[other]
    {
      if other != ip {
        assert made[s.visitors[other]] == old(table.visitors)[other];
      }
    }
    forall i | 0 <= i < |all| ensures all[i].p == table.p && all[i].bucket == t.buckets[i] {
      if i < |made| {
        assert all[i] == made[i] && made[i].bucket == old(made[i].bucket) == s.buckets[i] == t.buckets[i];
      } else {
        assert i == |made| && all[i] == limiter && limiter == table.visitors[ip];
        assert limiter.bucket == NewBucket(table.p, now) == t.buckets[i];
      }
    }
  }

  /** The request asks the limiter it got: the machine's decision. */
  method Ask(table: Visitors, limiter: Limiter, now: Time, ghost req: nat, ghost made: seq<Limiter>, ghost s: State)
    returns (ok: bool)
    requires Represents(table, made, s) && req in s.pending && limiter == made[s.pending[req].id]
    modifies limiter
    ensures Represents(table, made, Decided(table.p, s, now, req).0) && ok == Decided(table.p, s, now, req).1
  {
    ok := limiter.Allow(now);
  }

  /** A pass over the table: the machine's cleaning. */
  method Clean(table: Visitors, readings: map<string, Time>, at: Time, ghost made: seq<Limiter>, ghost s: State)
    requires Represents(table, made, s)
    modifies table
    ensures Represents(table, made, Cleaned(s, at, readings))
  {
    table.Cleanup(readings, at);
  }
}
