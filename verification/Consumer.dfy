/**
 Issuer and consumer composed: a consumer that goes through the cache gets the right key for
 every unexpired token, however its refreshes interleave, and never a key that has been gone
 for longer than the refresh interval and the fetch latency together.
 */
module Consumers {
  import opened Base
  import opened RingModel
  import opened RingLaws
  import opened Minting
  import opened MintLaws
  import opened Protocol
  import opened Retention
  import opened Caching

  /** What the cache answers at the time `now`; None sends the consumer to the issuer. */
  function Hit(s: Setup, c: Cache, kid: string, now: Time): Option<PublicKey> {
    match c
    case Empty => None
    case Filled(f, stored) => Fresh(ServedKeys(f.ring), stored, s.refresh, kid, now)
  }

  /** What a completed fetch answers. */
  function Answer(f: Fetch, kid: string): Option<PublicKey> {
    KeyIn(ServedKeys(f.ring), kid)
  }

  // ----- The right key -----

  /** Under the retention condition an unexpired token's key is published, and it is the one that signed. */
  lemma UnexpiredIsPublished(s: Setup, tr: seq<World>, i: nat, h: Held)
    requires GraceCovers(s, s.lag + s.lead) && Run(s, tr) && i < |tr| && h in tr[i].issued
    requires tr[i].clock < ClaimedExp(h.mint.draft)
    ensures WhereIs(tr[i].ring, h.key.kid).Published? && WhereIs(tr[i].ring, h.key.kid).key.pub == h.key.pub
  {
    RunInv(s, tr, i);
    assert HeldFits(s, tr[i], h) && Retained(s, tr[i], h);
    ClaimedLifetime(h.mint.draft, s.cfg, h.mint.req, s.dates);
  }

  lemma MadeStays(s: Setup, tr: seq<World>, i: nat, j: nat, kid: string)
    requires Run(s, tr) && i < |tr| && j < |tr| && kid in tr[i].made && kid in tr[j].made
    ensures tr[i].made[kid] == tr[j].made[kid]
  {
    if i <= j { RunOnward(s, tr, i, j); } else { RunOnward(s, tr, j, i); }
  }

  lemma CachedFits(s: Setup, tr: seq<World>, i: nat)
    requires Run(s, tr) && i < |tr| && tr[i].cache.Filled?
    ensures RingFits(tr[i].made, tr[i].cache.from.ring)
    ensures tr[i].cache.from in tr[i].fetching
    ensures tr[i].cache.from.at <= tr[i].cache.stored <= tr[i].cache.from.at + s.latency
  {
    RunInv(s, tr, i);
    assert FetchFits(tr[i], tr[i].cache.from);
    CachedInOrder(s, tr, i);
  }

  lemma {:induction false} CachedInOrder(s: Setup, tr: seq<World>, i: nat)
    requires Run(s, tr) && i < |tr| && tr[i].cache.Filled?
    ensures tr[i].cache.from.at <= tr[i].cache.stored
  {
    if i > 0 {
      if tr[i - 1].cache.Filled? { CachedInOrder(s, tr, i - 1); }
      RunInv(s, tr, i - 1);
      assert Moves(s, tr[i - 1], tr[i]);
      var step :| Next(s, tr[i - 1], step, tr[i]);
      if step.FetchEnd? { assert FetchFits(tr[i - 1], step.fetch); }
    }
  }

  /** A cache hit for a token's kid is the key that signed it, at whatever time it is read and used. */
  lemma HitIsRight(s: Setup, tr: seq<World>, i: nat, k: nat, h: Held, now: Time)
    requires Run(s, tr) && i < |tr| && k < |tr| && h in tr[k].issued
    ensures Hit(s, tr[i].cache, h.key.kid, now) in {None, Some(h.key.pub)}
  {
    var kid := h.key.kid;
    if Hit(s, tr[i].cache, kid, now).Some? {
      CachedFits(s, tr, i);
      ServedExactly(tr[i].cache.from.ring, kid);
      RunInv(s, tr, k);
      assert HeldFits(s, tr[k], h);
      MadeStays(s, tr, i, k, kid);
    }
  }

  /**
   While the stored key set is younger than the refresh interval, the cache answers every kid
   that was published when it was fetched: the consumer does not go back to the issuer.
   */
  lemma HitWhileFresh(s: Setup, tr: seq<World>, i: nat, kid: string, now: Time)
    requires Run(s, tr) && i < |tr| && tr[i].cache.Filled? && IsDuration(s.refresh)
    requires tr[i].cache.stored <= now < tr[i].cache.stored + s.refresh
    ensures var ring := tr[i].cache.from.ring;
            Hit(s, tr[i].cache, kid, now) ==
            if WhereIs(ring, kid).Published? then Some(WhereIs(ring, kid).key.pub) else None
  {
    CachedFits(s, tr, i);
    ServedExactly(tr[i].cache.from.ring, kid);
  }

  /**
   No spurious rejection: a consumer that holds an issued token at state `i`, reads the cache
   then and decides at the time of state `k`, and, on a miss, fetches at state `b`, obtains the
   signing key, whatever is in the cache and whichever refresh was stored last.
   */
  lemma ConsumerFindsKey(s: Setup, tr: seq<World>, i: nat, k: nat, b: nat, h: Held)
    requires GraceCovers(s, s.lag + s.lead) && Run(s, tr) && i <= k <= b < |tr| && h in tr[i].issued
    requires tr[b].clock < ClaimedExp(h.mint.draft)
    ensures var hit := Hit(s, tr[i].cache, h.key.kid, tr[k].clock);
            (if hit.Some? then hit else Answer(Fetch(tr[b].ring, tr[b].clock), h.key.kid)) == Some(h.key.pub)
  {
    HitIsRight(s, tr, i, i, h, tr[k].clock);
    RunOnward(s, tr, i, b);
    UnexpiredIsPublished(s, tr, b, h);
    RunRing(s, tr, b);
    ServedExactly(tr[b].ring, h.key.kid);
  }

  // ----- Staleness -----

  /** Every fetch is an answer the issuer gave at some state of the run. */
  lemma {:induction false} FetchedFrom(s: Setup, tr: seq<World>, n: nat, f: Fetch) returns (i: nat)
    requires Run(s, tr) && n < |tr| && f in tr[n].fetching
    ensures i <= n && f == Fetch(tr[i].ring, tr[i].clock)
  {
    if n == 0 {
      assert false;
    } else if f in tr[n - 1].fetching {
      i := FetchedFrom(s, tr, n - 1, f);
    } else {
      assert Moves(s, tr[n - 1], tr[n]);
      i := n - 1;
    }
  }

  /**
   Bounded staleness: a key the cache answers at the time of state `k` was published, as that
   key, at some state later than that time less refresh interval and latency.
   */
  lemma HitWasPublished(s: Setup, tr: seq<World>, n: nat, k: nat, kid: string) returns (i: nat)
    requires Run(s, tr) && n <= k < |tr| && IsDuration(s.refresh)
    requires Hit(s, tr[n].cache, kid, tr[k].clock).Some?
    ensures i <= n && tr[i].clock > tr[k].clock - s.refresh - s.latency
    ensures WhereIs(tr[i].ring, kid).Published?
    ensures Some(WhereIs(tr[i].ring, kid).key.pub) == Hit(s, tr[n].cache, kid, tr[k].clock)
  {
    var c := tr[n].cache;
    CachedFits(s, tr, n);
    i := FetchedFrom(s, tr, n, c.from);
    ServedExactly(c.from.ring, kid);
    RunInv(s, tr, n);
    RunOnward(s, tr, n, k);
  }

  /** A key gone from the ring at state `j` is not answered at or after that time plus refresh and latency. */
  lemma GoneIsForgotten(s: Setup, tr: seq<World>, j: nat, n: nat, k: nat, kid: string)
    requires Run(s, tr) && j < |tr| && n <= k < |tr| && IsDuration(s.refresh)
    requires kid in tr[j].made && WhereIs(tr[j].ring, kid).Absent?
    requires tr[k].clock >= tr[j].clock + s.refresh + s.latency
    ensures Hit(s, tr[n].cache, kid, tr[k].clock).None?
  {
    if Hit(s, tr[n].cache, kid, tr[k].clock).Some? {
      var i := HitWasPublished(s, tr, n, k, kid);
      if j <= i {
        RunOnward(s, tr, j, i);
      } else {
        RunOnward(s, tr, i, j);
      }
      assert false;
    }
  }

  /**
   The same for a key answered by a fetch when it is stored, at the time of state `k`: it was
   published no earlier than that time less the latency.
   */
  lemma AnswerWasPublished(s: Setup, tr: seq<World>, k: nat, f: Fetch, kid: string) returns (i: nat)
    requires Run(s, tr) && k < |tr| && f in tr[k].fetching && tr[k].clock - f.at <= s.latency
    requires Answer(f, kid).Some?
    ensures i <= k && tr[i].clock >= tr[k].clock - s.latency
    ensures WhereIs(tr[i].ring, kid).Published? && Some(WhereIs(tr[i].ring, kid).key.pub) == Answer(f, kid)
  {
    i := FetchedFrom(s, tr, k, f);
    RunRing(s, tr, i);
    ServedExactly(f.ring, kid);
  }

  /** A key gone at state `j` is not in a fetch stored more than the latency later. */
  lemma GoneIsNotFetched(s: Setup, tr: seq<World>, j: nat, k: nat, f: Fetch, kid: string)
    requires Run(s, tr) && j < |tr| && k < |tr| && f in tr[k].fetching && tr[k].clock - f.at <= s.latency
    requires kid in tr[j].made && WhereIs(tr[j].ring, kid).Absent?
    requires tr[k].clock > tr[j].clock + s.latency
    ensures Answer(f, kid).None?
  {
    if Answer(f, kid).Some? {
      var i := AnswerWasPublished(s, tr, k, f, kid);
      if j <= i {
        RunOnward(s, tr, j, i);
      } else {
        RunOnward(s, tr, i, j);
      }
      assert false;
    }
  }
}
