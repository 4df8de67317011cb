/**
 Issuer and consumer as one state machine: the clock, the issuer's ring, mints between
 reading the clock, picking a signer and signing, and a consumer that caches the published
 keys. Every step is atomic; anything may happen between two steps.

 Mints and fetches in progress are never removed, so each can be continued any number of
 times; this covers concurrent identical ones and abandoned ones. A failed fetch changes
 nothing and is no step.
 */
module Protocol {
  import opened Base
  import opened RingModel
  import opened RingLaws
  import opened Jwt
  import opened TimeValues
  import opened Minting
  import opened MintLaws
  import Views

  /**
   `lag` bounds how far a time given to `RotateAt` may lie behind the clock, `lead` how far a
   time given to `PruneAt` may run ahead of it, `delay` how long a verifier may take from
   reading the clock to looking up the key, `latency` how long a fetched key set may take from
   the issuer's answer until it is stored.
   */
  datatype Setup = Setup(
    cfg: Config,
    dates: DateParser,
    grace: int,
    enabled: set<Algorithm>,
    lag: nat,
    lead: nat,
    delay: nat,
    refresh: int,
    latency: nat)

  datatype Mint = Mint(req: Request, draft: Draft)

  /** A mint with the signer it got, before signing or after. */
  datatype Held = Held(mint: Mint, key: KeyInfo)

  /** A key set answered by the issuer at the time `at`, on its way to the consumer. */
  datatype Fetch = Fetch(ring: Ring, at: Time)

  datatype Cache = Empty | Filled(from: Fetch, stored: Time)

  /** `made` remembers every key ever generated, by kid. */
  datatype World = World(
    clock: Time,
    ring: Ring,
    made: map<string, PublicKey>,
    begun: set<Mint>,
    held: set<Held>,
    issued: set<Held>,
    fetching: set<Fetch>,
    cache: Cache)

  datatype Step =
    | Tick(to: Time)
    | MintBegin(mint: Mint)
    | MintSigner(mint: Mint)
    | MintSign(held: Held)
    | Rotate(at: Time, gen: Generation)
    | Prune(at: Time)
    | FetchBegin
    | FetchEnd(fetch: Fetch)

  function KidsOf(gen: Generation): set<string> {
    set alg | alg in gen :: gen[alg].kid
  }

  ghost function KeyNamed(gen: Generation, kid: string): PublicKey
    requires kid in KidsOf(gen)
  {
    var alg :| alg in gen && gen[alg].kid == kid;
    PublicKey(alg, gen[alg].material)
  }

  ghost function Named(gen: Generation): map<string, PublicKey> {
    map kid | kid in KidsOf(gen) :: KeyNamed(gen, kid)
  }

  ghost predicate Init(s: Setup, w: World, gen: Generation) {
    && FreshKids(gen, {}) && NewRing(s.grace, s.enabled, gen) == Some(w.ring) && w.made == Named(gen)
    && w.begun == {} && w.held == {} && w.issued == {} && w.fetching == {} && w.cache == Empty
  }

  ghost predicate Rotates(s: Setup, w: World, at: Time, gen: Generation, v: World) {
    && w.clock - s.lag <= at && FreshKids(gen, w.made.Keys)
    && v == w.(ring := RotateAt(w.ring, at, gen).0, made := w.made + Named(gen))
  }

  ghost predicate Begins(s: Setup, w: World, m: Mint, v: World) {
    BeginsAs(Ok(m.draft), s.cfg, m.req, SecFloor(w.clock), s.dates) && v == w.(begun := w.begun + {m})
  }

  ghost predicate GetsSigner(w: World, m: Mint, v: World) {
    && m in w.begun && Signer(w.ring, m.draft.alg).Ok?
    && v == w.(held := w.held + {Held(m, Signer(w.ring, m.draft.alg).value)})
  }

  ghost predicate Next(s: Setup, w: World, step: Step, v: World) {
    match step
    case Tick(to) => w.clock <= to && v == w.(clock := to)
    case MintBegin(m) => Begins(s, w, m, v)
    case MintSigner(m) => GetsSigner(w, m, v)
    case MintSign(h) => h in w.held && v == w.(issued := w.issued + {h})
    case Rotate(at, gen) => Rotates(s, w, at, gen, v)
    case Prune(at) => at <= w.clock + s.lead && v == w.(ring := PruneAt(w.ring, at))
    case FetchBegin => v == w.(fetching := w.fetching + {Fetch(w.ring, w.clock)})
    case FetchEnd(f) => f in w.fetching && w.clock - f.at <= s.latency && v == w.(cache := Filled(f, w.clock))
  }

  ghost predicate Moves(s: Setup, w: World, v: World) {
    exists step :: Next(s, w, step, v)
  }

  ghost predicate Run(s: Setup, tr: seq<World>) {
    && |tr| > 0 && (exists gen :: Init(s, tr[0], gen))
    && forall i, j :: 0 <= i < j == i + 1 < |tr| ==> Moves(s, tr[i], tr[j])
  }

  function Last(tr: seq<World>): World
    requires |tr| > 0
  {
    tr[|tr| - 1]
  }

  // ----- The invariant -----

  /** Every published kid names the key that was generated under it. */
  ghost predicate RingFits(made: map<string, PublicKey>, r: Ring) {
    && Sound(r)
    && forall kid :: WhereIs(r, kid).Published? ==> kid in made && made[kid] == WhereIs(r, kid).key.pub
  }

  ghost predicate MintFits(s: Setup, clock: Time, m: Mint) {
    DraftedFrom(m.draft, s.cfg, m.req, s.dates) && m.draft.now <= clock
  }

  ghost predicate HeldFits(s: Setup, w: World, h: Held) {
    && MintFits(s, w.clock, h.mint)
    && h.key.kid in w.made && w.made[h.key.kid] == h.key.pub && h.key.kid != ""
    && h.key.pub.alg == h.mint.draft.alg && h.mint.draft.alg in s.enabled
  }

  /**
   The key that signs or signed a token is active, or retired no earlier than `lag` before
   the token's start, or it has outlived its grace.
   */
  ghost predicate Retained(s: Setup, w: World, h: Held) {
    match WhereIs(w.ring, h.key.kid)
    case Published(Retired, key) => h.mint.draft.now - s.lag <= key.retiredAt
    case Published(_, _) => true
    case Absent => s.grace >= 0 ==> h.mint.draft.now - s.lag + s.grace <= w.clock + s.lead
  }

  ghost predicate FetchFits(w: World, f: Fetch) {
    RingFits(w.made, f.ring) && f.at <= w.clock
  }

  ghost predicate Inv(s: Setup, w: World) {
    && RingFits(w.made, w.ring) && w.ring.grace == s.grace && w.ring.enabled == s.enabled
    && (forall m :: m in w.begun ==> MintFits(s, w.clock, m))
    && (forall h :: h in w.held ==> HeldFits(s, w, h) && Retained(s, w, h))
    && (forall h :: h in w.issued ==> h in w.held)
    && (forall f :: f in w.fetching ==> FetchFits(w, f))
    && (w.cache.Filled? ==> w.cache.from in w.fetching && w.cache.stored <= w.clock
                            && w.cache.stored - w.cache.from.at <= s.latency)
  }

  // ----- Generated keys -----

  lemma NamedExactly(gen: Generation, used: set<string>, alg: Algorithm)
    requires FreshKids(gen, used) && alg in gen
    ensures gen[alg].kid in Named(gen) && Named(gen)[gen[alg].kid] == PublicKey(alg, gen[alg].material)
    ensures Named(gen).Keys !! used
  {
  }

  lemma FitsGrows(made: map<string, PublicKey>, more: map<string, PublicKey>, r: Ring)
    requires RingFits(made, r) && more.Keys !! made.Keys
    ensures RingFits(made + more, r)
  {
  }

  // ----- Steps keep the invariant -----

  lemma InitInv(s: Setup, w: World, gen: Generation)
    requires Init(s, w, gen)
    ensures Inv(s, w)
  {
    NewRingSound(s.grace, s.enabled, gen);
    forall kid | WhereIs(w.ring, kid).Published?
      ensures kid in w.made && w.made[kid] == WhereIs(w.ring, kid).key.pub
    {
      var p := PlaceOf(w.ring, kid);
      FillKeys(Ring(s.grace, s.enabled, map[], map alg | alg in s.enabled :: []), gen, ALL_ALGORITHMS, p.alg);
      NamedExactly(gen, {}, p.alg);
    }
  }

  lemma {:induction false} FillKeys(r: Ring, gen: Generation, algs: seq<Algorithm>, alg: Algorithm)
    requires Fill(r, gen, algs).Some? && alg in Fill(r, gen, algs).value.active
    ensures (alg in r.active && Fill(r, gen, algs).value.active[alg] == r.active[alg])
            || (alg in gen && Fill(r, gen, algs).value.active[alg] == NewKey(alg, gen[alg]))
    decreases |algs|
  {
    if algs == [] {
    } else if algs[0] !in r.enabled {
      FillKeys(r, gen, algs[1..], alg);
    } else {
      FillKeys(r.(active := r.active[algs[0] := NewKey(algs[0], gen[algs[0]])]), gen, algs[1..], alg);
    }
  }

  lemma MintInv(s: Setup, w: World, step: Step, v: World)
    requires Inv(s, w) && Next(s, w, step, v) && (step.MintBegin? || step.MintSigner? || step.MintSign?)
    ensures Inv(s, v)
  {
    if step.MintSigner? {
      var m, key := step.mint, Signer(w.ring, step.mint.draft.alg).value;
      var p := Signing(m.draft.alg);
      assert KeyFits(w.ring, p);
      WhereIsAt(w.ring, p);
    }
    forall h | h in v.held ensures HeldFits(s, v, h) && Retained(s, v, h) {
      if h in w.held { assert HeldFits(s, w, h) && Retained(s, w, h); }
    }
  }

  lemma TickOrFetchInv(s: Setup, w: World, step: Step, v: World)
    requires Inv(s, w) && Next(s, w, step, v) && (step.Tick? || step.FetchBegin? || step.FetchEnd?)
    ensures Inv(s, v)
  {
    forall h | h in v.held ensures HeldFits(s, v, h) && Retained(s, v, h) {
      assert HeldFits(s, w, h) && Retained(s, w, h);
    }
    forall f | f in v.fetching ensures FetchFits(v, f) {
      if f in w.fetching { assert FetchFits(w, f); }
    }
  }

  lemma RotateRetains(s: Setup, w: World, at: Time, gen: Generation, v: World, h: Held)
    requires Inv(s, w) && Next(s, w, Rotate(at, gen), v) && h in w.held
    ensures HeldFits(s, v, h) && Retained(s, v, h)
  {
    var kid := h.key.kid;
    assert HeldFits(s, w, h) && Retained(s, w, h);
    RingKids(w.made, w.ring);
    RotateKid(w.ring, at, gen, w.made.Keys, kid);
    NamedDisjoint(gen, w.made.Keys);
  }

  lemma NamedDisjoint(gen: Generation, used: set<string>)
    requires FreshKids(gen, used)
    ensures Named(gen).Keys !! used
  {
  }

  lemma RingKids(made: map<string, PublicKey>, r: Ring)
    requires RingFits(made, r)
    ensures forall kid :: HasKid(r, kid) ==> kid in made.Keys
  {
    forall kid | HasKid(r, kid) ensures kid in made.Keys {
      assert WhereIs(r, kid).Published?;
    }
  }

  lemma RotateFits(s: Setup, w: World, at: Time, gen: Generation, v: World)
    requires Inv(s, w) && Next(s, w, Rotate(at, gen), v)
    ensures RingFits(v.made, v.ring) && v.ring.grace == s.grace && v.ring.enabled == s.enabled
  {
    RingKids(w.made, w.ring);
    RotateKid(w.ring, at, gen, w.made.Keys, "");
    NamedDisjoint(gen, w.made.Keys);
    forall kid | WhereIs(v.ring, kid).Published?
      ensures kid in v.made && v.made[kid] == WhereIs(v.ring, kid).key.pub
    {
      RotateKid(w.ring, at, gen, w.made.Keys, kid);
      if WhereIs(w.ring, kid).Absent? {
        var alg :| alg in gen && gen[alg].kid == kid &&
                   WhereIs(v.ring, kid) == Published(Active, NewKey(alg, gen[alg]));
        NamedExactly(gen, w.made.Keys, alg);
      }
    }
  }

  lemma RotateInv(s: Setup, w: World, at: Time, gen: Generation, v: World)
    requires Inv(s, w) && Next(s, w, Rotate(at, gen), v)
    ensures Inv(s, v)
  {
    RotateFits(s, w, at, gen, v);
    NamedDisjoint(gen, w.made.Keys);
    forall h | h in v.held ensures HeldFits(s, v, h) && Retained(s, v, h) {
      RotateRetains(s, w, at, gen, v, h);
    }
    forall f | f in v.fetching ensures FetchFits(v, f) {
      assert FetchFits(w, f);
      FitsGrows(w.made, Named(gen), f.ring);
    }
  }

  lemma PruneInv(s: Setup, w: World, at: Time, v: World)
    requires Inv(s, w) && Next(s, w, Prune(at), v)
    ensures Inv(s, v)
  {
    PruneSound(w.ring, at);
    forall kid ensures WhereIs(v.ring, kid).Published? ==> WhereIs(w.ring, kid) == WhereIs(v.ring, kid) {
      PruneKid(w.ring, at, kid);
    }
    forall h | h in v.held ensures HeldFits(s, v, h) && Retained(s, v, h) {
      assert HeldFits(s, w, h) && Retained(s, w, h);
      PruneKid(w.ring, at, h.key.kid);
    }
    forall f | f in v.fetching ensures FetchFits(v, f) {
      assert FetchFits(w, f);
    }
  }

  lemma StepInv(s: Setup, w: World, v: World)
    requires Inv(s, w) && Moves(s, w, v)
    ensures Inv(s, v)
  {
    var step :| Next(s, w, step, v);
    match step
    case Rotate(at, gen) => RotateInv(s, w, at, gen, v);
    case Prune(at) => PruneInv(s, w, at, v);
    case Tick(_) => TickOrFetchInv(s, w, step, v);
    case FetchBegin => TickOrFetchInv(s, w, step, v);
    case FetchEnd(_) => TickOrFetchInv(s, w, step, v);
    case _ => MintInv(s, w, step, v);
  }

  // ----- Whole runs -----

  /**
   In every state of every run the ring is sound (one active key per enabled algorithm,
   distinct kids, no published key wiped) and every signer still in use is retained.
   */
  lemma {:induction false} RunInv(s: Setup, tr: seq<World>, i: nat)
    requires Run(s, tr) && i < |tr|
    ensures Inv(s, tr[i])
  {
    if i == 0 {
      var gen :| Init(s, tr[0], gen);
      InitInv(s, tr[0], gen);
    } else {
      RunInv(s, tr, i - 1);
      assert Moves(s, tr[i - 1], tr[i]);
      StepInv(s, tr[i - 1], tr[i]);
    }
  }

  lemma RunRing(s: Setup, tr: seq<World>, i: nat)
    requires Run(s, tr) && i < |tr|
    ensures RingFits(tr[i].made, tr[i].ring) && tr[i].ring.grace == s.grace && tr[i].ring.enabled == s.enabled
  {
    RunInv(s, tr, i);
  }

  function StatusRank(at: Whereabouts): nat {
    match at
    case Absent => 2
    case Published(status, _) => if status == Active then 0 else 1
  }

  /** What one step leaves alone: time, history and each kid's one-way life. */
  ghost predicate Onward(w: World, v: World) {
    && w.clock <= v.clock && w.issued <= v.issued
    && (forall kid :: kid in w.made ==> kid in v.made && v.made[kid] == w.made[kid])
    && (forall kid :: kid in w.made ==> StatusRank(WhereIs(w.ring, kid)) <= StatusRank(WhereIs(v.ring, kid)))
  }

  lemma StepOnward(s: Setup, w: World, v: World)
    requires RingFits(w.made, w.ring) && Moves(s, w, v)
    ensures Onward(w, v)
  {
    var step :| Next(s, w, step, v);
    if step.Rotate? {
      NamedDisjoint(step.gen, w.made.Keys);
      RingKids(w.made, w.ring);
    }
    forall kid | kid in w.made ensures StatusRank(WhereIs(w.ring, kid)) <= StatusRank(WhereIs(v.ring, kid)) {
      if step.Rotate? {
        RotateKid(w.ring, step.at, step.gen, w.made.Keys, kid);
      } else if step.Prune? {
        PruneKid(w.ring, step.at, kid);
      }
    }
  }

  lemma TraceOnward(s: Setup, tr: seq<World>, i: nat)
    requires Run(s, tr) && i + 1 < |tr|
    ensures Onward(tr[i], tr[i + 1])
  {
    RunRing(s, tr, i);
    assert Moves(s, tr[i], tr[i + 1]);
    StepOnward(s, tr[i], tr[i + 1]);
  }

  lemma OnwardSelf(w: World)
    ensures Onward(w, w)
  {
  }

  lemma OnwardOnward(u: World, v: World, w: World)
    requires Onward(u, v) && Onward(v, w)
    ensures Onward(u, w)
  {
    forall kid | kid in u.made ensures StatusRank(WhereIs(u.ring, kid)) <= StatusRank(WhereIs(w.ring, kid)) {
      assert kid in v.made;
    }
  }

  /**
   Over every run a kid only moves from active to retired to gone; the clock, the issued
   tokens and the generated keys only grow.
   */
  lemma {:induction false} RunOnward(s: Setup, tr: seq<World>, i: nat, j: nat)
    requires Run(s, tr) && i <= j < |tr|
    ensures Onward(tr[i], tr[j])
    decreases j - i
  {
    if i == j {
      OnwardSelf(tr[i]);
    } else {
      RunOnward(s, tr, i + 1, j);
      TraceOnward(s, tr, i);
      OnwardOnward(tr[i], tr[i + 1], tr[j]);
    }
  }

  // ----- The retired flag -----

  lemma StepStamped(s: Setup, w: World, v: World)
    requires Sound(w.ring) && Views.Stamped(w.ring) && Moves(s, w, v) && w.clock - s.lag > ZERO_TIME
    ensures Views.Stamped(v.ring)
  {
    var step :| Next(s, w, step, v);
    match step
    case Rotate(at, gen) => Views.RotateStamped(w.ring, at, gen);
    case Prune(at) => Views.PruneStamped(w.ring, at);
    case _ =>
  }

  lemma TraceStamped(s: Setup, tr: seq<World>, i: nat)
    requires Run(s, tr) && i + 1 < |tr| && Views.Stamped(tr[i].ring) && tr[i].clock - s.lag > ZERO_TIME
    ensures Views.Stamped(tr[i + 1].ring)
  {
    RunRing(s, tr, i);
    assert Moves(s, tr[i], tr[i + 1]);
    StepStamped(s, tr[i], tr[i + 1]);
  }

  lemma FirstStamped(s: Setup, tr: seq<World>)
    requires Run(s, tr)
    ensures Views.Stamped(tr[0].ring)
  {
    var gen :| Init(s, tr[0], gen);
    NewRingSound(s.grace, s.enabled, gen);
  }

  lemma RunStamped(s: Setup, tr: seq<World>, i: nat)
    requires Run(s, tr) && i < |tr| && forall j :: 0 <= j < |tr| ==> tr[j].clock - s.lag > ZERO_TIME
    ensures Views.Stamped(tr[i].ring)
  {
    FirstStamped(s, tr);
    var k := 0;
    while k < i
      invariant k <= i && Views.Stamped(tr[k].ring)
    {
      TraceStamped(s, tr, k);
      k := k + 1;
    }
  }

  /**
   Over every run whose clock stays more than the lag after the zero time, the retired flag of
   every listed key agrees with its lookup status in every state.
   */
  lemma RunFlagsAgree(s: Setup, tr: seq<World>, i: nat)
    requires Run(s, tr) && i < |tr| && forall j :: 0 <= j < |tr| ==> tr[j].clock - s.lag > ZERO_TIME
    ensures forall e :: e in Views.Keys(tr[i].ring) ==> Views.FlagAgrees(tr[i].ring, e)
  {
    RunStamped(s, tr, i);
    RunRing(s, tr, i);
    Views.RetiredFlagAgrees(tr[i].ring);
  }
}
