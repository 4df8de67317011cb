/**
 The OAuth endpoint's tokens over whole runs: what the endpoint grants falls under the
 retention promise (internal/server/server.go, README.md).
 */
module Grants {
  import opened Base
  import opened RingModel
  import opened Jwt
  import opened Minting
  import opened MintLaws
  import opened OAuth
  import opened Protocol
  import opened Retention

  /** The token was minted from claims as `BuildClaims` makes them for this lifetime. */
  ghost predicate Granted(h: Held, ttl: Option<nat>) {
    forall now, dates :: Mintable(h.mint.req.claims, ttl, now, dates)
  }

  /** A granted token is a standard one, and expires exactly its lifetime after its start. */
  lemma GrantedDraft(s: Setup, clock: Time, h: Held, ttl: Option<nat>)
    requires MintFits(s, clock, h.mint) && Granted(h, ttl)
    ensures Standard(h.mint.req) && h.mint.draft.exp == h.mint.draft.now + Lifetime(s.cfg, ttl)
  {
    assert Mintable(h.mint.req.claims, ttl, h.mint.draft.now, s.dates);
  }

  lemma GrantedDue(s: Setup, tr: seq<World>, i: nat, h: Held, ttl: Option<nat>)
    requires Run(s, tr) && i < |tr| && h in tr[i].issued && Granted(h, ttl)
    requires tr[i].clock < SecFloor(h.mint.draft.now + Lifetime(s.cfg, ttl))
    requires Last(tr).clock <= tr[i].clock + s.delay
    ensures Due(s, tr, i, h)
  {
    RunInv(s, tr, i);
    assert HeldFits(s, tr[i], h);
    GrantedDraft(s, tr[i].clock, h, ttl);
  }

  /**
   Under the retention condition every granted token verifies until its own expiry, the whole
   seconds of its start plus its lifetime, in every run: across rotations, prunes and other
   mints between signing, the verifier's clock read at state `i`, and the lookup at the end.
   */
  lemma GrantKept(s: Setup, tr: seq<World>, i: nat, h: Held, ttl: Option<nat>)
    requires GraceSuffices(s) && Run(s, tr) && i < |tr| && h in tr[i].issued && Granted(h, ttl)
    requires tr[i].clock < SecFloor(h.mint.draft.now + Lifetime(s.cfg, ttl))
    requires Last(tr).clock <= tr[i].clock + s.delay
    ensures Verifies(s, Last(tr), tr[i].clock, h)
  {
    GrantedDue(s, tr, i, h, ttl);
    PromiseKept(s, tr, i, h);
  }
}
