/**
 Properties of verdicts: the precedence of reasons, how claims are labelled, when a kid
 status is given, the accepting interval, and independence of the key source.
 */
module VerdictLaws {
  import opened Base
  import opened RingModel
  import opened Jwt
  import opened Checks

  // ----- Precedence -----

  /**
   The reason the documentation gives for a failed check. A segment that does not decode is
   malformed, the signature's included; the other operational failures have no reason.
   */
  function DocumentedReason(c: Check): Option<Reason> {
    match c
    case Structure => Some(MalformedToken)
    case Registered => Some(BadAlg)
    case Shapes => Some(MalformedToken)
    case AlgSource => None
    case Accepted => Some(BadAlg)
    case KidNamed => Some(BadKid)
    case KidSource => None
    case LookupWorks => None
    case KidKnown => Some(BadKid)
    case SignatureReadable => Some(MalformedToken)
    case SignatureGood => Some(BadSignature)
    case Unexpired => Some(Expired)
    case Started => Some(NotYetValid)
    case Issued => Some(NotYetValid)
    case IssuerMatches => Some(BadIssuer)
    case AudienceMatches => Some(BadAudience)
  }

  function ReasonRank(r: Reason): nat {
    match r
    case MalformedToken => 0
    case BadAlg => 1
    case BadKid => 2
    case BadSignature => 3
    case Expired => 4
    case NotYetValid => 5
    case BadIssuer => 6
    case BadAudience => 7
  }

  lemma RankIsPosition(r: Reason)
    ensures ReasonRank(r) < |REASONS| && REASONS[ReasonRank(r)] == r
  {
  }

  lemma PositionIsRank(i: nat)
    requires i < |REASONS|
    ensures ReasonRank(REASONS[i]) == i
  {
  }

  /** The token has a defect of this kind, whether or not it is the one reported. */
  ghost predicate FailsWith(q: Input, r: Reason) {
    exists c :: !Passes(q, c) && DocumentedReason(c) == Some(r)
  }

  /** The outcome is a verdict whose reason is the first, in the documented order, that the token has. */
  ghost predicate InDocumentedOrder(q: Input) {
    && Reference(q).Judged?
    && exists i :: 0 <= i < |REASONS| && Reference(q).verdict.reason == Some(REASONS[i]) && FailsWith(q, REASONS[i]) &&
                   forall j :: 0 <= j < i ==> !FailsWith(q, REASONS[j])
  }

  lemma TheFirstFailing(q: Input) returns (c: Check)
    requires !AllPass(q)
    ensures FirstFailing(q, c) && (CheckRank(c) > CheckRank(KidKnown) ==> KeyKnown(q)) && Reference(q) == Report(q, c)
  {
    var failing :| !Passes(q, failing);
    LeastFailing(q, failing);
    c :| FirstFailing(q, c);
    ReferenceIs(q, c);
  }

  /** The outcome for `q` is a valid verdict. */
  ghost predicate FoundValid(q: Input) {
    Reference(q).Judged? && Reference(q).verdict.valid
  }

  lemma Consistent(q: Input)
    ensures AllPass(q) <==> FoundValid(q)
  {
    if !AllPass(q) {
      var c := TheFirstFailing(q);
    }
  }

  /** Where the order of the checks departs from the order of the reasons. */
  predicate OutOfOrder(c: Check, d: Check) {
    (c == Registered && d == Shapes) || (c in {Registered, Accepted, KidNamed, KidKnown} && d == SignatureReadable)
  }

  lemma RanksAgree(c: Check, d: Check)
    requires CheckRank(c) <= CheckRank(d) && DocumentedReason(c).Some? && DocumentedReason(d).Some?
    ensures ReasonRank(DocumentedReason(c).value) <= ReasonRank(DocumentedReason(d).value) <==> !OutOfOrder(c, d)
  {
  }

  /** The check `c` is the first to fail, and a verdict reports the reason `r` for it. */
  ghost predicate Reports(q: Input, c: Check, r: Reason) {
    && FirstFailing(q, c) && DocumentedReason(c) == Some(r)
    && Reference(q).Judged? && Reference(q).verdict.reason == Some(r)
  }

  lemma InOrder(q: Input, c: Check, r: Reason)
    requires Reports(q, c, r) && forall d :: !Passes(q, d) ==> !OutOfOrder(c, d)
    ensures InDocumentedOrder(q)
  {
    RankIsPosition(r);
    assert FailsWith(q, r);
    forall j | 0 <= j < ReasonRank(r) ensures !FailsWith(q, REASONS[j]) {
      PositionIsRank(j);
      if d :| !Passes(q, d) && DocumentedReason(d) == Some(REASONS[j]) {
        RanksAgree(c, d);
      }
    }
  }

  lemma NotInOrder(q: Input, c: Check, r: Reason, d: Check)
    requires Reports(q, c, r) && !Passes(q, d) && OutOfOrder(c, d)
    ensures !InDocumentedOrder(q)
  {
    var better := DocumentedReason(d).value;
    RanksAgree(c, d);
    RankIsPosition(better);
    assert FailsWith(q, better);
    OnePosition(r);
  }

  lemma OnePosition(r: Reason)
    ensures forall i :: 0 <= i < |REASONS| && REASONS[i] == r ==> i == ReasonRank(r)
  {
    forall i | 0 <= i < |REASONS| && REASONS[i] == r ensures i == ReasonRank(r) {
      PositionIsRank(i);
    }
  }

  /**
   A failing token gets a verdict with its first reason in the documented order exactly when:
   its signature segment decodes and its `alg` is registered or its claim shapes fit; or the
   segment does not decode but ill-shaped claims under a registered `alg` are reported anyway.
   */
  lemma PrecedenceExactly(q: Input)
    requires !AllPass(q) && (q.keys.Source? || Reference(q).Judged?)
    ensures InDocumentedOrder(q) <==>
              if Passes(q, SignatureReadable) then Passes(q, Registered) || Passes(q, Shapes)
              else Passes(q, Registered) && !Passes(q, Shapes)
    ensures Reference(q).Judged? ==>
              Reference(q).verdict.reason.Some? && FailsWith(q, Reference(q).verdict.reason.value)
  {
    var c := TheFirstFailing(q);
    if c != SignatureReadable {
      var r := DocumentedReason(c).value;
      assert Reports(q, c, r) && FailsWith(q, r);
      if d :| !Passes(q, d) && OutOfOrder(c, d) {
        NotInOrder(q, c, r, d);
      } else {
        InOrder(q, c, r);
      }
    }
  }

  /** An unregistered `alg` hides an ill-shaped claim set, against the documented order. */
  lemma PrecedenceCounterexample()
    ensures var token := Compact(map["alg" := Str("XS256")], map["exp" := Str("soon")], Meaningless);
            var q := Input(token, Source(map[], ["RS256"]), "", [], [], 0, 0);
            && Reference(q).Judged? && Reference(q).verdict.reason == Some(BadAlg) && FailsWith(q, MalformedToken)
  {
    var token := Compact(map["alg" := Str("XS256")], map["exp" := Str("soon")], Meaningless);
    var q := Input(token, Source(map[], ["RS256"]), "", [], [], 0, 0);
    assert !Passes(q, Registered) && Passes(q, Structure) && !Passes(q, Shapes);
    ReferenceIs(q, Registered);
  }

  /** An undecodable signature segment is hidden by any algorithm or key failure. */
  lemma HiddenSegment()
    ensures var token := Compact(map["alg" := Str("HS256")], map[], Undecodable);
            var q := Input(token, Source(map[], ["RS256"]), "", [], [], 0, 0);
            && Passes(q, Registered) && Passes(q, Shapes) && FailsWith(q, MalformedToken)
            && Reference(q).Judged? && Reference(q).verdict.reason == Some(BadAlg)
  {
    var token := Compact(map["alg" := Str("HS256")], map[], Undecodable);
    var q := Input(token, Source(map[], ["RS256"]), "", [], [], 0, 0);
    assert !Passes(q, SignatureReadable) && !Passes(q, Accepted);
    assert FirstFailing(q, Accepted);
    ReferenceIs(q, Accepted);
  }

  /** Against a table of keys, the one operational failure is an undecodable signature segment. */
  lemma OperationalExactly(q: Input)
    requires q.keys.Source?
    ensures Reference(q).Failed? <==> FirstFailing(q, SignatureReadable)
    ensures Reference(q).Failed? ==> q.token.Compact? && q.token.signature == Undecodable && KeyKnown(q)
  {
    if !AllPass(q) {
      var c := TheFirstFailing(q);
      if FirstFailing(q, SignatureReadable) {
        ReferenceIs(q, SignatureReadable);
        assert Passes(q, KidKnown);
      }
    }
  }

  /** A key of the live kind, published under "k". */
  function OneKey(): KeySource {
    Source(map["k" := (PublicKey(RS256, 0), Active)], ["RS256"])
  }

  /** A signed-looking token that names that key. */
  function Naming(alg: string, claims: Fields, signature: Signature): Token {
    Compact(map["alg" := Str(alg), "kid" := Str("k")], claims, signature)
  }

  /** An undecodable signature on an otherwise acceptable token is no verdict at all. */
  lemma UndecodableFails()
    ensures var q := Input(Naming("RS256", map[], Undecodable), OneKey(), "", [], [], 0, 0);
            Reference(q) == Failed(SignaturePassFailed)
  {
    var q := Input(Naming("RS256", map[], Undecodable), OneKey(), "", [], [], 0, 0);
    assert AlgOf(q) == "RS256" && KidOf(q) == "k" && KeyKnown(q);
    assert FirstFailing(q, SignatureReadable);
    ReferenceIs(q, SignatureReadable);
  }

  // ----- Labelling -----

  /** The signature has been verified: every check up to and including it passes. */
  ghost predicate SignatureVerified(q: Input) {
    PassedBelow(q, CheckRank(Unexpired))
  }

  /**
   Claims appear as authenticated exactly when the signature verified, as unverified
   exactly for algorithm, key and signature failures, and never as both.
   */
  lemma LabelsExactly(q: Input)
    requires Reference(q).Judged?
    ensures var v := Reference(q).verdict;
            && (v.claims.Some? <==> SignatureVerified(q))
            && (v.unverified.Some? <==> v.reason in {Some(BadAlg), Some(BadKid), Some(BadSignature)})
            && (v.claims.Some? ==> v.unverified.None? && v.claims.value == ClaimsOf(q.token))
            && (v.unverified.Some? ==> v.unverified.value == ClaimsOf(q.token))
            && (v.reason == Some(MalformedToken) ==> v.header.None? && v.claims.None? && v.unverified.None?)
  {
    Consistent(q);
    if !AllPass(q) {
      var c := TheFirstFailing(q);
      if CheckRank(c) < CheckRank(Unexpired) {
        assert !SignatureVerified(q);
      }
    }
  }

  /**
   A kid status accompanies the verdict exactly when the chain got as far as looking the
   kid up; an algorithm failure carries none even when the header names a kid.
   */
  lemma StatusExactly(q: Input)
    requires Reference(q).Judged?
    ensures Reference(q).verdict.status.Some? <==> PassedBelow(q, CheckRank(KidKnown))
    ensures Reference(q).verdict.status.Some? ==>
              Reference(q).verdict.status.value == if KeyKnown(q) then q.keys.keys[KidOf(q)].1 else Unknown
  {
    Consistent(q);
    if AllPass(q) {
      assert Passes(q, KidKnown);
    } else {
      var c := TheFirstFailing(q);
      if CheckRank(c) < CheckRank(KidKnown) {
        assert !PassedBelow(q, CheckRank(KidKnown));
      } else if c != KidKnown {
        assert Passes(q, KidKnown);
      }
    }
  }

  /**
   The documentation promises a kid status whenever the header carries a kid. It is missing
   exactly from the algorithm and malformed verdicts.
   */
  lemma StatusMissingExactly(q: Input)
    requires Reference(q).Judged? && q.token.Compact? && KidOf(q) != ""
    ensures Reference(q).verdict.status.None? <==> Reference(q).verdict.reason in {Some(BadAlg), Some(MalformedToken)}
  {
    StatusExactly(q);
    Consistent(q);
    if !AllPass(q) {
      var c := TheFirstFailing(q);
      assert Passes(q, KidNamed) && Passes(q, Structure);
    }
  }

  /** A known kid goes without status under an unaccepted alg and under ill-shaped claims. */
  lemma KnownKidWithoutStatus()
    ensures var q := Input(Naming("ES256", map[], Meaningless), OneKey(), "", [], [], 0, 0);
            && KeyKnown(q) && Reference(q).Judged?
            && Reference(q).verdict.reason == Some(BadAlg) && Reference(q).verdict.status.None?
    ensures var q := Input(Naming("RS256", map["exp" := Str("soon")], Meaningless), OneKey(), "", [], [], 0, 0);
            && KeyKnown(q) && Reference(q).Judged?
            && Reference(q).verdict.reason == Some(MalformedToken) && Reference(q).verdict.status.None?
  {
    var q := Input(Naming("ES256", map[], Meaningless), OneKey(), "", [], [], 0, 0);
    assert AlgOf(q) == "ES256" && FirstFailing(q, Accepted);
    ReferenceIs(q, Accepted);
    var p := Input(Naming("RS256", map["exp" := Str("soon")], Meaningless), OneKey(), "", [], [], 0, 0);
    assert AlgOf(p) == "RS256" && !Passes(p, Shapes) && FirstFailing(p, Shapes);
    ReferenceIs(p, Shapes);
  }

  // ----- Signatures -----

  /**
   No verdict with authenticated claims, valid or not, is given unless the key published
   under the token's kid signed exactly this header and these claims.
   */
  lemma OnlyGenuine(q: Input)
    requires Reference(q).Judged? && Reference(q).verdict.claims.Some?
    ensures KeyKnown(q) && q.token.Compact?
    ensures q.token.signature == Over(Signed(q.keys.keys[KidOf(q)].0, q.token.header, q.token.claims))
    ensures AlgOf(q) in AcceptedAlgs(q) && MethodTakes(AlgOf(q), q.keys.keys[KidOf(q)].0.alg)
  {
    LabelsExactly(q);
    assert Passes(q, Structure) && Passes(q, KidKnown) && Passes(q, SignatureGood) && Passes(q, Accepted);
  }

  /** A bad signature is never reported as a time, issuer or audience failure. */
  lemma BadSignatureIsNotLate(q: Input)
    requires !Passes(q, SignatureGood)
    ensures Reference(q).Judged? ==>
              Reference(q).verdict.reason in {Some(MalformedToken), Some(BadAlg), Some(BadKid), Some(BadSignature)}
  {
    var c := TheFirstFailing(q);
    assert CheckRank(c) <= CheckRank(SignatureGood);
  }

  // ----- Time -----

  function ValidFrom(claims: Fields, leeway: int): Option<Time> {
    match (TimeClaim(claims, "nbf"), TimeClaim(claims, "iat"))
    case (Some(n), Some(i)) => Some((if n < i then i else n) - leeway)
    case (Some(n), None) => Some(n - leeway)
    case (None, Some(i)) => Some(i - leeway)
    case (None, None) => None
  }

  function ValidUntil(claims: Fields, leeway: int): Option<Time> {
    match TimeClaim(claims, "exp")
    case Some(e) => Some(e + leeway)
    case None => None
  }

  ghost predicate Within(now: Time, from: Option<Time>, until: Option<Time>) {
    (from.Some? ==> from.value <= now) && (until.Some? ==> now < until.value)
  }

  ghost predicate Timely(c: Check) {
    c == Unexpired || c == Started || c == Issued
  }

  /** Whether the token is acceptable apart from the time. */
  ghost predicate TimelessPass(q: Input) {
    forall c :: !Timely(c) ==> Passes(q, c)
  }

  ghost predicate Accepts(q: Input, now: Time, leeway: int) {
    FoundValid(q.(now := now, leeway := leeway))
  }

  /** The accepting times of a token form one interval, fixed by its claims and the leeway. */
  lemma AcceptingInterval(q: Input, now: Time, leeway: int)
    ensures Accepts(q, now, leeway) <==>
              TimelessPass(q) &&
              Within(now, ValidFrom(ClaimsOf(q.token), leeway), ValidUntil(ClaimsOf(q.token), leeway))
  {
    var t := q.(now := now, leeway := leeway);
    Consistent(t);
    assert forall c :: !Timely(c) ==> (Passes(t, c) <==> Passes(q, c)) by {
      assert KeyKnown(t) == KeyKnown(q) && AcceptedAlgs(t) == AcceptedAlgs(q) && (AudienceFits(t) <==> AudienceFits(q));
    }
    assert Passes(t, Unexpired) && Passes(t, Started) && Passes(t, Issued) <==>
           Within(now, ValidFrom(ClaimsOf(q.token), leeway), ValidUntil(ClaimsOf(q.token), leeway));
  }

  /** More leeway never rejects what less leeway accepts. */
  lemma LeewayWidens(q: Input, now: Time, less: int, more: int)
    requires less <= more && Accepts(q, now, less)
    ensures Accepts(q, now, more)
  {
    AcceptingInterval(q, now, less);
    AcceptingInterval(q, now, more);
  }

  // ----- Key sources -----

  function WithoutStatus(out: Outcome): Outcome {
    match out
    case Judged(v) =>
      Judged(v.(status := if v.status.Some? && v.status.value != Unknown then Some(Active) else v.status))
    case Failed(e) => Failed(e)
  }

  /** Two tables that publish the same keys under the same kids and accept the same algorithms. */
  ghost predicate SameKeys(a: KeySource, b: KeySource) {
    && a.Source? && b.Source? && a.keys.Keys == b.keys.Keys
    && (forall kid :: kid in a.keys ==> a.keys[kid].0 == b.keys[kid].0)
    && (forall kid :: kid in a.keys ==> a.keys[kid].1 != Unknown && b.keys[kid].1 != Unknown)
    && (forall alg :: alg in a.algs <==> alg in b.algs)
  }

  lemma SamePasses(q: Input, a: KeySource, b: KeySource, c: Check)
    requires SameKeys(a, b)
    ensures Passes(q.(keys := a), c) <==> Passes(q.(keys := b), c)
  {
    var qa, qb := q.(keys := a), q.(keys := b);
    assert KeyKnown(qa) == KeyKnown(qb) && (AudienceFits(qa) <==> AudienceFits(qb));
  }

  lemma SameReport(q: Input, a: KeySource, b: KeySource, c: Check)
    requires SameKeys(a, b)
    requires CheckRank(c) > CheckRank(KidKnown) ==> KeyKnown(q.(keys := a)) && KeyKnown(q.(keys := b))
    ensures WithoutStatus(Report(q.(keys := a), c)) == WithoutStatus(Report(q.(keys := b), c))
  {
  }

  /** Equal tables give equal outcomes, up to active versus retired. */
  lemma SourceParity(q: Input, a: KeySource, b: KeySource)
    requires SameKeys(a, b)
    ensures WithoutStatus(Reference(q.(keys := a))) == WithoutStatus(Reference(q.(keys := b)))
  {
    var qa, qb := q.(keys := a), q.(keys := b);
    forall c ensures Passes(qa, c) <==> Passes(qb, c) {
      SamePasses(q, a, b, c);
    }
    if AllPass(qa) {
      assert Passes(qa, KidKnown) && Passes(qb, KidKnown);
    } else {
      var c := TheFirstFailing(qa);
      assert FirstFailing(qb, c);
      ReferenceIs(qb, c);
      SameReport(q, a, b, c);
    }
  }
}
