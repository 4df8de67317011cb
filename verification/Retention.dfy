/**
 The retention promise: "keep the grace period at least as long as the maximum lifetime, so
 that tokens minted just before a rotation stay verifiable until they expire" (README.md).
 It is proved over every run, together with exactly when it holds.
 */
module Retention {
  import opened Base
  import opened RingModel
  import opened RingLaws
  import opened Jwt
  import opened Checks
  import opened VerdictLaws
  import opened KeySources
  import opened TimeValues
  import opened Minting
  import opened MintLaws
  import opened Protocol
  import Views

  /** A verifier's question about the token: the clock was read as `now`, the key is looked up in `w`. */
  ghost function Question(s: Setup, w: World, now: Time, h: Held): Input {
    Input(SignedToken(h.mint.draft, h.key), RingSource(w.ring), s.cfg.issuer, [], [], 0, now)
  }

  ghost predicate Verifies(s: Setup, w: World, now: Time, h: Held) {
    FoundValid(Question(s, w, now, h))
  }

  lemma AlgorithmAccepted(r: Ring, alg: Algorithm)
    requires alg in r.enabled
    ensures AlgName(alg) in RingSource(r).algs
  {
    Listed(alg);
    EnabledNamed(r, ALL_ALGORITHMS, AlgName(alg));
  }

  lemma PublishedVerifies(s: Setup, w: World, now: Time, h: Held)
    requires RingFits(w.made, w.ring) && w.ring.enabled == s.enabled && HeldFits(s, w, h) && Standard(h.mint.req)
    requires WhereIs(w.ring, h.key.kid).Published? && h.mint.draft.now <= now
    ensures Verifies(s, w, now, h) <==> ClaimedExp(h.mint.draft) == 0 || now < ClaimedExp(h.mint.draft)
  {
    RingSourceLooksUp(w.ring, h.key.kid);
    AlgorithmAccepted(w.ring, h.mint.draft.alg);
    assert AsksAbout(Question(s, w, now, h), h.mint.draft, h.key, s.cfg);
    MintedAccepted(Question(s, w, now, h), h.mint.draft, h.key, s.cfg, h.mint.req, s.dates);
  }

  lemma AbsentFails(s: Setup, w: World, now: Time, h: Held)
    requires Sound(w.ring) && WhereIs(w.ring, h.key.kid).Absent?
    ensures !Verifies(s, w, now, h)
  {
    RingSourceLooksUp(w.ring, h.key.kid);
    Consistent(Question(s, w, now, h));
    assert !Passes(Question(s, w, now, h), KidKnown);
  }

  /** A standard token verifies exactly when its key is published and the time read is right. */
  lemma VerifiesExactly(s: Setup, w: World, now: Time, h: Held)
    requires Inv(s, w) && h in w.held && Standard(h.mint.req) && h.mint.draft.now <= now
    ensures Verifies(s, w, now, h) <==>
            WhereIs(w.ring, h.key.kid).Published? && (ClaimedExp(h.mint.draft) == 0 || now < ClaimedExp(h.mint.draft))
  {
    if WhereIs(w.ring, h.key.kid).Published? {
      PublishedVerifies(s, w, now, h);
    } else {
      AbsentFails(s, w, now, h);
    }
  }

  lemma IssuedFits(s: Setup, w: World, h: Held)
    requires Inv(s, w) && h in w.issued
    ensures h in w.held && HeldFits(s, w, h) && Retained(s, w, h) && h.mint.draft.now <= w.clock
  {
  }

  /** A token issued by state `i` is still known at the end of the run, and its start has come. */
  lemma StillHeld(s: Setup, tr: seq<World>, i: nat, h: Held)
    requires Run(s, tr) && i < |tr| && h in tr[i].issued
    ensures Inv(s, Last(tr)) && h in Last(tr).held && HeldFits(s, Last(tr), h) && Retained(s, Last(tr), h)
    ensures h.mint.draft.now <= tr[i].clock <= Last(tr).clock
  {
    RunInv(s, tr, i);
    IssuedFits(s, tr[i], h);
    RunOnward(s, tr, i, |tr| - 1);
    RunInv(s, tr, |tr| - 1);
    IssuedFits(s, Last(tr), h);
  }

  /**
   The unconditional part: a verifier reads the clock at state `i` and looks up the key at the
   end of the run. A standard token verifies if it was unexpired at the clock read and its
   grace, counted from `lag` before its start, has not passed by `lead` after the lookup,
   whatever rotations, prunes and other mints happen in between.
   */
  lemma VerifiesWithinGrace(s: Setup, tr: seq<World>, i: nat, h: Held)
    requires Run(s, tr) && i < |tr| && h in tr[i].issued && Standard(h.mint.req) && s.grace >= 0
    requires tr[i].clock < ClaimedExp(h.mint.draft)
    requires Last(tr).clock + s.lead < h.mint.draft.now - s.lag + s.grace
    ensures Verifies(s, Last(tr), tr[i].clock, h)
  {
    StillHeld(s, tr, i, h);
    VerifiesExactly(s, Last(tr), tr[i].clock, h);
  }

  // ----- The promise -----

  /**
   A standard token, issued and unexpired when the clock was read at state `i`, is looked up
   at the end of the run, no later than the verifier's delay allows.
   */
  predicate Due(s: Setup, tr: seq<World>, i: nat, h: Held) {
    && i < |tr| && h in tr[i].issued && Standard(h.mint.req) && tr[i].clock < ClaimedExp(h.mint.draft)
    && Last(tr).clock <= tr[i].clock + s.delay
  }

  /** Every issued standard token verifies at every time before its expiry, in every run. */
  ghost predicate Promise(s: Setup) {
    forall tr: seq<World>, i: nat, h: Held :: Run(s, tr) && Due(s, tr, i, h) ==> Verifies(s, Last(tr), tr[i].clock, h)
  }

  /** A cap is in force, and the grace covers its whole seconds and `slack` on top. */
  predicate GraceCovers(s: Setup, slack: nat) {
    0 < s.cfg.maxTTL < MAX_DURATION && (SecFloor(s.cfg.maxTTL) == 0 || s.grace >= SecFloor(s.cfg.maxTTL) + slack)
  }

  /** The slack needed: the lag of rotation times, the lead of prune times and the delay of verifiers. */
  predicate GraceSuffices(s: Setup) {
    GraceCovers(s, s.lag + s.lead + s.delay)
  }

  lemma PromiseKept(s: Setup, tr: seq<World>, i: nat, h: Held)
    requires GraceSuffices(s) && Run(s, tr) && Due(s, tr, i, h)
    ensures Verifies(s, Last(tr), tr[i].clock, h)
  {
    StillHeld(s, tr, i, h);
    ClaimedLifetime(h.mint.draft, s.cfg, h.mint.req, s.dates);
    VerifiesWithinGrace(s, tr, i, h);
  }

  // ----- Breaking it -----

  /** A lifetime in whole seconds that the cap allows and the grace does not cover. */
  ghost predicate Uncovered(s: Setup, life: int) {
    && life > 0 && life % SECOND == 0 && s.grace < life + s.lag + s.lead + s.delay
    && !CapExceeded(s.cfg, life, 0)
  }

  lemma SomeUncovered(s: Setup) returns (life: int)
    requires !GraceSuffices(s) && IsDuration(s.grace) && IsDuration(s.cfg.maxTTL)
    ensures Uncovered(s, life)
  {
    if 0 < s.cfg.maxTTL < MAX_DURATION {
      life := SecFloor(s.cfg.maxTTL);
    } else {
      var above := if s.grace > 0 then s.grace else 0;
      life := SecFloor(above) + SECOND;
    }
  }

  function FirstKeys(): Generation {
    map[RS256 := Generated("a", 0, 0), ES256 := Generated("b", 0, 0), EdDSA := Generated("c", 0, 0)]
  }

  function SecondKeys(): Generation {
    map[RS256 := Generated("d", 1, 0), ES256 := Generated("e", 1, 0), EdDSA := Generated("f", 1, 0)]
  }

  lemma FreshlyMade(kid: string)
    requires kid in KidsOf(FirstKeys())
    ensures kid in {"a", "b", "c"}
  {
    var alg :| alg in FirstKeys() && FirstKeys()[alg].kid == kid;
    match alg
    case RS256 =>
    case ES256 =>
    case EdDSA =>
  }

  lemma EveryAlgorithm(alg: Algorithm)
    ensures alg in FirstKeys() && alg in SecondKeys()
    ensures FirstKeys()[alg].kid == ["a", "b", "c"][Order(alg)] && SecondKeys()[alg].kid == ["d", "e", "f"][Order(alg)]
  {
    match alg
    case RS256 =>
    case ES256 =>
    case EdDSA =>
  }

  lemma AlgorithmsGenerate()
    ensures FreshKids(FirstKeys(), {}) && FreshKids(SecondKeys(), KidsOf(FirstKeys()))
    ensures forall alg: Algorithm :: alg in FirstKeys() && alg in SecondKeys()
  {
    forall alg: Algorithm
      ensures alg in FirstKeys() && alg in SecondKeys()
      ensures SecondKeys()[alg].kid !in KidsOf(FirstKeys()) && SecondKeys()[alg].kid != "" && FirstKeys()[alg].kid != ""
    {
      EveryAlgorithm(alg);
      if SecondKeys()[alg].kid in KidsOf(FirstKeys()) { FreshlyMade(SecondKeys()[alg].kid); }
    }
    forall a: Algorithm, b: Algorithm
      ensures FirstKeys()[a].kid == FirstKeys()[b].kid ==> a == b
      ensures SecondKeys()[a].kid == SecondKeys()[b].kid ==> a == b
    {
      EveryAlgorithm(a);
      EveryAlgorithm(b);
    }
  }

  /** At time zero, a request for a token of this life. */
  function Asked(life: int, alg: Algorithm): Request {
    Request(map["exp" := Num((life / SECOND) as real)], AlgName(alg))
  }

  ghost function DraftOf(s: Setup, life: int, alg: Algorithm): Draft
    requires RequestFits(Asked(life, alg), 0, s.dates)
  {
    Draft(alg, DraftClaims(s.cfg, Asked(life, alg), 0, s.dates), life, 0)
  }

  lemma AskedDraft(s: Setup, life: int, alg: Algorithm)
    requires Uncovered(s, life)
    ensures RequestFits(Asked(life, alg), 0, s.dates) && Standard(Asked(life, alg))
    ensures BeginsAs(Ok(DraftOf(s, life, alg)), s.cfg, Asked(life, alg), 0, s.dates)
  {
    assert ((life / SECOND) as real).Floor == life / SECOND;
    assert ParseTimeValue(Num((life / SECOND) as real), 0, s.dates) == Some(life);
    assert ExpOf(s.cfg, Asked(life, alg), 0, s.dates) == life;
  }

  lemma RotatedAway(r: Ring, alg: Algorithm, now: Time, gen: Generation, used: set<string>)
    requires Sound(r) && alg in r.enabled && FreshKids(gen, used) && (forall kid :: HasKid(r, kid) ==> kid in used)
    requires forall a: Algorithm :: a in gen
    ensures WhereIs(RotateAt(r, now, gen).0, r.active[alg].kid) == Published(Retired, r.active[alg].(retiredAt := now))
  {
    var t := RotateAt(r, now, gen).0;
    RotateExactly(r, now, gen);
    RotateKid(r, now, gen, used, r.active[alg].kid);
    assert Reached(r, gen, alg);
    WhereIsAt(t, Kept(alg, |RetiredOf(r, alg)|));
  }

  lemma Longer(s: Setup, tr: seq<World>, step: Step, v: World)
    requires Run(s, tr) && Next(s, Last(tr), step, v)
    ensures Run(s, tr + [v]) && Last(tr + [v]) == v
  {
    var longer := tr + [v];
    assert longer[0] == tr[0];
    forall i, j | 0 <= i < j == i + 1 < |longer| ensures Moves(s, longer[i], longer[j]) {
      if j < |tr| { assert Moves(s, tr[i], tr[j]); }
    }
  }

  lemma FirstWorld(s: Setup) returns (w: World)
    requires s.enabled != {}
    ensures Run(s, [w]) && w.clock == 0 && w.made == Named(FirstKeys()) && w.ring.enabled == s.enabled && Sound(w.ring)
    ensures w.begun == {} && w.held == {}
  {
    AlgorithmsGenerate();
    NewRingSound(s.grace, s.enabled, FirstKeys());
    w := World(0, NewRing(s.grace, s.enabled, FirstKeys()).value, Named(FirstKeys()), {}, {}, {}, {}, Empty);
    assert Init(s, [w][0], FirstKeys());
  }

  lemma MintRun(s: Setup, life: int, alg: Algorithm) returns (tr: seq<World>, h: Held)
    requires Uncovered(s, life) && alg in s.enabled
    ensures Run(s, tr) && Last(tr).clock == 0 && h in Last(tr).issued
    ensures Standard(h.mint.req) && ClaimedExp(h.mint.draft) == life
    ensures Last(tr).made == Named(FirstKeys()) && alg in Last(tr).ring.active && h.key == Last(tr).ring.active[alg]
  {
    var w := FirstWorld(s);
    AskedDraft(s, life, alg);
    var m := Mint(Asked(life, alg), DraftOf(s, life, alg));
    h := Held(m, w.ring.active[alg]);
    var w1 := w.(begun := w.begun + {m});
    Longer(s, [w], MintBegin(m), w1);
    var w2 := w1.(held := w1.held + {h});
    Longer(s, [w] + [w1], MintSigner(m), w2);
    var w3 := w2.(issued := w2.issued + {h});
    Longer(s, [w] + [w1] + [w2], MintSign(h), w3);
    tr := [w] + [w1] + [w2] + [w3];
  }

  /** A rotation in which every key generates, at a time given. */
  lemma RotatedWorld(s: Setup, w: World, alg: Algorithm, at: Time, gen: Generation) returns (v: World)
    requires RingFits(w.made, w.ring) && alg in w.ring.active && w.clock - s.lag <= at
    requires FreshKids(gen, w.made.Keys) && forall a: Algorithm :: a in gen
    ensures Rotates(s, w, at, gen, v)
    ensures WhereIs(v.ring, w.ring.active[alg].kid) == Published(Retired, w.ring.active[alg].(retiredAt := at))
  {
    v := w.(ring := RotateAt(w.ring, at, gen).0, made := w.made + Named(gen));
    RingKids(w.made, w.ring);
    RotatedAway(w.ring, alg, at, gen, w.made.Keys);
  }

  lemma RotatedRun(s: Setup, tr: seq<World>, alg: Algorithm, at: Time, gen: Generation) returns (v: World)
    requires Run(s, tr) && alg in Last(tr).ring.active && Last(tr).clock - s.lag <= at
    requires FreshKids(gen, Last(tr).made.Keys) && forall a: Algorithm :: a in gen
    ensures Run(s, tr + [v]) && Rotates(s, Last(tr), at, gen, v)
    ensures var key := Last(tr).ring.active[alg]; WhereIs(v.ring, key.kid) == Published(Retired, key.(retiredAt := at))
  {
    RunRing(s, tr, |tr| - 1);
    v := RotatedWorld(s, Last(tr), alg, at, gen);
    Longer(s, tr, Rotate(at, gen), v);
  }

  lemma PrunedRun(s: Setup, tr: seq<World>, late: Time, at: Time, kid: string) returns (longer: seq<World>)
    requires Run(s, tr) && Last(tr).clock <= late && at <= late + s.lead
    requires WhereIs(Last(tr).ring, kid).Published? && WhereIs(Last(tr).ring, kid).status == Retired
    requires !InGrace(WhereIs(Last(tr).ring, kid).key, at, s.grace)
    ensures Run(s, longer) && tr <= longer && Last(longer).clock == late
    ensures Last(longer).held == Last(tr).held && Last(longer).issued == Last(tr).issued
    ensures WhereIs(Last(longer).ring, kid) == Absent
  {
    RunRing(s, tr, |tr| - 1);
    var w := Last(tr);
    var v := w.(clock := late);
    Longer(s, tr, Tick(late), v);
    var u := v.(ring := PruneAt(v.ring, at));
    Longer(s, tr + [v], Prune(at), u);
    longer := tr + [v] + [u];
    PruneKid(v.ring, at, kid);
  }

  /**
   Mint, rotate, read the clock just before the expiry, wait for the grace to pass, prune, look
   up: a token unexpired at the clock read does not verify.
   */
  lemma BreakingRun(s: Setup, life: int) returns (tr: seq<World>, i: nat, h: Held)
    requires Uncovered(s, life) && IsDuration(s.grace) && s.enabled != {}
    ensures Run(s, tr) && Due(s, tr, i, h) && !Verifies(s, Last(tr), tr[i].clock, h)
  {
    var alg :| alg in s.enabled;
    var minted;
    minted, h := MintRun(s, life, alg);
    AlgorithmsGenerate();
    assert Last(minted).made.Keys == KidsOf(FirstKeys());
    var rotated := RotatedRun(s, minted, alg, 0 - s.lag, SecondKeys());
    var before := minted + [rotated];
    assert Last(before) == rotated;
    var read := rotated.(clock := life - 1);
    Longer(s, before, Tick(life - 1), read);
    i := |before|;
    var passed := s.grace - s.lag - s.lead;
    var late := if passed <= life - 1 then life - 1 else passed;
    tr := PrunedRun(s, before + [read], late, late + s.lead, h.key.kid);
    assert tr[i] == read;
    StillHeld(s, tr, i, h);
    VerifiesExactly(s, Last(tr), tr[i].clock, h);
  }

  /**
   The promise holds over all runs exactly when a cap below the largest duration is in force
   and the grace covers the cap's whole seconds plus the lag of rotation times, the lead of
   prune times and the delay between a verifier's clock read and its lookup.
   */
  lemma PromiseExactly(s: Setup)
    requires IsDuration(s.grace) && IsDuration(s.cfg.maxTTL) && s.enabled != {}
    ensures Promise(s) <==> GraceSuffices(s)
  {
    if GraceSuffices(s) {
      forall tr: seq<World>, i: nat, h: Held | Run(s, tr) && Due(s, tr, i, h)
        ensures Verifies(s, Last(tr), tr[i].clock, h)
      {
        PromiseKept(s, tr, i, h);
      }
    } else {
      var life := SomeUncovered(s);
      var tr, i, h := BreakingRun(s, life);
    }
  }

  /** The documented rule is right when nothing lags, leads or waits and the cap is in whole seconds. */
  lemma DocumentedRule(s: Setup)
    requires IsDuration(s.grace) && s.enabled != {} && s.lag == 0 && s.lead == 0 && s.delay == 0
    requires 0 < s.cfg.maxTTL < MAX_DURATION && s.cfg.maxTTL % SECOND == 0
    ensures Promise(s) <==> s.grace >= s.cfg.maxTTL
  {
    PromiseExactly(s);
  }
}
