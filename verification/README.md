# Token issuer verification

A Dafny model of a JWT issuer for tests and of the parties around it: the key ring with its
rotation and pruning, the token factory, the verification classifier, the OAuth and
introspection endpoints, the per-client rate limiter, a consumer that caches the published
keys, and the release guard. `dafny verify dfyconfig.toml` checks the whole project.

Time is an integer number of nanoseconds since the epoch. A Go `time.Duration` has 64 bits,
and `time.Time.Sub` saturates; both are modelled (`Base`). A signature is a record of which
key signed which header and claims, so it verifies under exactly that key. Key generation
either fails or yields a key under a new kid. The mutexes make the ring's methods, the
cache's two critical sections and the limiter's operations atomic; whatever lies between two
such sections may interleave with anything else.

## How the parts fit

- `RingModel` is the ring as a value; `RingLaws` proves what rotation and pruning do to each
  kid. `KeySlice` and `KeyRings` are the same ring as objects and arrays, updated in place,
  and proved to compute those functions; `RingCreation` and `RingReads` build it and read it.
- `Views` is the sorted key list and everything served from it; `KeySources` the two key
  tables a verifier can use.
- `Jwt`, `Checks` and `Verifier` are the tokens, the ranked checks and the classifier that
  reports the first failing one; `VerdictMeaning` reads the same outcomes off the input, and
  `VerdictLaws` holds the properties of verdicts.
- `Text`, `Durations` and `TimeValues` are decimal text, duration text and the time claims of a
  request; `Minting`, `MintLaws`, `OAuth` and `TokenEndpoint` the factory and the endpoints.
- `Protocol` joins clock, ring, mints and consumer in one state machine; `Retention`, `Grants`
  and `Consumers` are the safety theorems over its runs; `Caching` is the consumer's cache.
- `TickBound` bounds how many retired keys pile up; `Limiting`, `LimiterTable`, `LimiterLaws`
  and `LimiterConverse` are the rate limiter; `ReleaseGuard` stands alone.

## Findings

- The documented rule "grace period at least the maximum lifetime" is exact only when a
  rotation is not stamped with an older time, no prune is given a time ahead of the clock, a
  verifier looks up the key at the instant it reads the clock, a cap is in force and the cap
  is in whole seconds. The lag of a rotation's time (the ticker's value may be old when the
  lock is finally taken), the lead of a prune's time (the embedding API lets its caller choose
  it, and jumping ahead is its documented use) and the delay between a verifier's clock read
  and its lookup are needed on top, all three added. A cap of
  zero, a negative cap, and a cap of the largest duration (where the lifetime computation
  saturates) keep nothing (`Retention.PromiseExactly`, `Retention.DocumentedRule`).
- The documented order of reasons puts malformed first. An unregistered `alg` hides ill-shaped
  claims, and any algorithm or key failure hides a signature segment that does not decode
  (`VerdictLaws.PrecedenceCounterexample`, `VerdictLaws.HiddenSegment`; exactly when in
  `VerdictLaws.PrecedenceExactly`).
- Where no algorithm, key or shape failure hides it, an undecodable signature segment is an
  operational error, although the documentation promises a malformed verdict
  (`VerdictLaws.OperationalExactly`, with an input in `VerdictLaws.UndecodableFails`).
- The documentation promises a kid status whenever the header carries a kid. Algorithm failures
  and ill-shaped claims have none, even for a known kid: a status is given exactly when every
  check before the key lookup passes (`VerdictLaws.StatusExactly`; the verdicts without one in
  `VerdictLaws.StatusMissingExactly`, inputs in `VerdictLaws.KnownKidWithoutStatus`).
- Epoch seconds given as text are read as documented, except for "0": that is a duration of
  zero, so it means now (`TimeValues.EpochTextExactly`).
- Eviction is invisible, and the admission bound holds, exactly when a bucket refills in the ten
  idle minutes less the time between getting a limiter and asking it
  (`LimiterConverse.UnobservableExactly`, `LimiterConverse.BoundedExactly`).
- A version of major zero never passes the release guard. For major one the suggested path
  fails again exactly when the path ends in space, which hides the segment, or the text before
  its segment is blank or carries another major (`ReleaseGuard.MigrationExactly`, with inputs in
  `ReleaseGuard.StackedSegment`, `ReleaseGuard.PaddedSegment` and `ReleaseGuard.OnlySegment`).
- A tick whose rotation fails does not prune. Retired keys stay bounded exactly for the
  algorithm that rotates last; any other piles them up without bound while a later one keeps
  failing (`TickBound.BoundSurvivesExactly`).

## Model

| member | source | states |
|---|---|---|
| `KeySlice.RetiredList.Append` | internal/keyring/keyring.go:227 | Appending extends the contents by one key, reuses the backing array when it has room, and keeps the live prefix free of nil and repeats. |
| `KeySlice.RetiredList.Compact` | internal/keyring/keyring.go:241-254 | In place and in the same backing array, exactly the keys whose age is below the grace remain, in order and unchanged; of the others the RSA and Ed25519 keys are wiped and the ECDSA keys are not, and no other field changes; every vacated slot is nil. |
| `KeySlice.Key.Zeroize` | internal/keyring/keyring.go:394-412 | An RSA or Ed25519 key ends up wiped; an ECDSA key and every other field are as before. |
| `KeyRings.Lane.Rotate` | internal/keyring/keyring.go:225-229 | The active key is stamped and appended to the retired ones, and a new key is active. |
| `KeyRings.Lane.Prune` | internal/keyring/keyring.go:241-253 | One algorithm's retired keys are compacted, those out of grace losing an RSA or Ed25519 private half; its active key is untouched. |
| `KeyRings.KeyRing.RotateAt` | internal/keyring/keyring.go:214-232 | The objects end up holding the value of the rotation function, complete or cut short, and success is reported exactly when it is complete; the algorithms go on sharing nothing. |
| `KeyRings.KeyRing.PruneAt` | internal/keyring/keyring.go:238-255 | Visiting the algorithms in any order, the objects end up holding the pruned ring, and every key that left it has no RSA or Ed25519 private half any more. |
| `RingCreation.New` | internal/keyring/keyring.go:103-133 | Creation fails exactly when no algorithm is enabled or one fails to generate, and otherwise yields objects that share nothing and hold the new ring. |
| `RingReads.SignerOf` | internal/keyring/keyring.go:189-200 | The signer is the active key of an enabled algorithm, or the error of the value model. |
| `RingReads.Lookup` | internal/keyring/keyring.go:318-334 | Searching the objects in any order finds the one place of the kid and its status, or nothing when it is nowhere. |
| `RingReads.SortedKeys` | internal/keyring/keyring.go:360-374 | Whatever order the maps are walked in, sorting by kid gives the one canonical list. |
| `RingLaws.NewRingSound` | internal/keyring/keyring.go:103-133 | A new ring is sound and has no retired keys; it exists exactly when an algorithm is enabled and each enabled one generates, and each active key is the one generated. |
| `RingLaws.RotateKid` | internal/keyring/keyring.go:214-232 | Rotation, even when it fails part way, keeps the ring sound; each published kid stays as it is or moves from active to retired at the given time; only newly generated kids appear. |
| `RingLaws.RotateExactly` | internal/keyring/keyring.go:217-231 | Exactly the enabled algorithms reached before the first failed generation are replaced, the others are untouched, and success means all were reached. |
| `RingLaws.LiveExactly` | internal/keyring/keyring.go:243-247 | The kept keys are exactly those whose age is below the grace. |
| `RingLaws.LiveCompose` | internal/keyring/keyring.go:243-247 | Filtering at two times in order equals filtering at the later one. |
| `RingLaws.PruneSound` | internal/keyring/keyring.go:238-255 | Pruning keeps the ring sound. |
| `RingLaws.PruneKid` | internal/keyring/keyring.go:238-255 | Pruning removes exactly the retired kids out of grace and changes no other kid. |
| `RingLaws.PruneCompose` | internal/keyring/keyring.go:238-255 | Pruning at an earlier and then a later (or the same) time equals pruning at the later one. |
| `TickBound.TickRing` | internal/keyring/keyring.go:272-277 | One tick of the rotation loop leaves the objects holding the rotated ring, pruned only if the rotation succeeded. |
| `TickBound.RetiredBounded` | internal/keyring/keyring.go:264-286 | With ticks at least an interval apart, after a successful one each algorithm has at most as many retired keys as intervals cover the grace, and none without grace. |
| `TickBound.FailedTicksPileUp` | internal/keyring/keyring.go:273-276 | While every rotation fails, each algorithm has retired exactly one key for every tick that reached it before the failure. |
| `TickBound.LastIsBounded` | internal/keyring/keyring.go:264-286 | The algorithm that rotates last, or one not enabled, keeps within the bound after any paced ticks, failed or not. |
| `TickBound.BoundSurvivesExactly` | internal/keyring/keyring.go:264-286 | For fresh keys and paced ticks, failed or not, the bound on an algorithm holds in every run if and only if it is not enabled or no enabled algorithm rotates after it. |
| `Views.SortedUnique` | internal/keyring/keyring.go:370-373 | A kid-ordered list is determined by its elements. |
| `Views.LessExactly` | internal/keyring/keyring.go:370-373 | The order of kids is lexicographic: a proper prefix comes first, otherwise the smaller character at the first difference decides. |
| `Views.CanonicalHolds` | internal/keyring/keyring.go:360-374 | The list is ordered by kid and holds exactly the published keys. |
| `Views.OrderIrrelevant` | internal/keyring/keyring.go:360-374 | Any gathering of the published keys sorts to the same list. |
| `Views.ViewsAgree` | internal/keyring/keyring.go:291-374 | `Lookup`, `PublicKeyByKID`, the JWKS and the list expose the same key for a kid, and none exposes a kid the others hide. |
| `Views.KeysExactly` | pkg/tester/tester.go:210-223 | The embedding API lists exactly the published keys, ordered by kid, each with its own algorithm, creation time and retirement time, and flagged retired exactly when the latter is set. |
| `Views.RetiredFlagAgrees` | pkg/tester/tester.go:210-223 | The retired flag agrees with the lookup status on every key exactly when every retired key carries a non-zero time. |
| `Views.RotateStamped` | internal/keyring/keyring.go:225-227 | Rotating at non-zero times keeps every retired key stamped. |
| `Views.PruneStamped` | internal/keyring/keyring.go:238-255 | Pruning keeps every retired key stamped. |
| `Verifier.Verify` | internal/verify/verify.go:116-253 | For every input the early-return chain yields the report of the first failing check; in terms of the token's own fields, the keys, the caller's policy and the clock, it is valid exactly when nothing is wrong and gives each reason and each operational failure exactly when that is the first thing wrong, with the header, claims, alg, kid, status and message that belong to it. |
| `Verifier.AnyAudienceMatches` | internal/verify/verify.go:320-327 | True exactly when an expected audience is among the actual ones. |
| `Verifier.CopyFields` | internal/verify/verify.go:150-153 | Copying a header entry by entry, in any order, gives the same header. |
| `VerdictMeaning.ReferenceClassifies` | internal/verify/verify.go:116-253 | Reporting the first failing check comes to the same as reading the outcome off the input: signature, `exp`, `nbf`, `iat`, issuer and audience for a genuine token, the key for one with an accepted alg, alg and claim kinds for the rest. |
| `VerdictMeaning.ReferenceShows` | internal/verify/verify.go:281-309 | A verdict shows the token's header, its claims under the right label, alg, kid, status and the message of its reason; a malformed token shows nothing. |
| `VerdictLaws.PrecedenceExactly` | internal/verify/verify.go:35-47 | With an undecodable signature segment counted as malformed, a failing token gets a verdict with its first reason in the documented order if and only if: the segment decodes and the alg is registered or the claim shapes fit, or it does not decode and the alg is registered and the shapes do not fit. A reported reason is always one the token has. |
| `VerdictLaws.PrecedenceCounterexample` | internal/verify/verify.go:128-156 | A token with an unregistered alg and an ill-shaped claim is reported as an algorithm failure. |
| `VerdictLaws.HiddenSegment` | internal/verify/verify.go:195-207 | A token with an unaccepted alg and an undecodable signature segment is reported as an algorithm failure, not as malformed. |
| `VerdictLaws.OperationalExactly` | internal/verify/verify.go:195-207 | Against a key table, the one operational failure is an undecodable signature on a token that passes every earlier check. |
| `VerdictLaws.UndecodableFails` | internal/verify/verify.go:195-207 | A token that passes every earlier check with an undecodable signature segment is an operational error. |
| `VerdictLaws.LabelsExactly` | internal/verify/verify.go:72-85 | Claims are given exactly when the signature verified, unverified claims exactly for alg, kid and signature failures, malformed input carries neither. |
| `VerdictLaws.StatusExactly` | internal/verify/verify.go:174-191 | A kid status is given exactly when every check before the lookup passed, and is then the source's answer. |
| `VerdictLaws.StatusMissingExactly` | internal/verify/verify.go:116-191 | For a readable token that names a kid, the status is missing exactly from algorithm and malformed verdicts. |
| `VerdictLaws.KnownKidWithoutStatus` | internal/verify/verify.go:154-172 | A known kid goes without status under an unaccepted alg, and under ill-shaped claims. |
| `VerdictLaws.OnlyGenuine` | internal/verify/verify.go:193-210 | Claims are never called authenticated unless the key published under the kid signed exactly this header and these claims, with an accepted alg. |
| `VerdictLaws.BadSignatureIsNotLate` | internal/verify/verify.go:193-207 | A bad signature is never reported as a time, issuer or audience failure. |
| `VerdictLaws.AcceptingInterval` | internal/verify/verify.go:212-228 | The times at which a token is accepted form one interval fixed by its time claims and the leeway. |
| `VerdictLaws.LeewayWidens` | internal/verify/verify.go:212-216 | What is accepted with less leeway is accepted with more. |
| `VerdictLaws.SourceParity` | internal/verify/verify.go:66-70 | Two key tables with the same keys and algorithms give the same outcome up to active versus retired. |
| `KeySources.ParseJwks` | cmd/jwtoken-tester/cli.go:412-456 | A JWK without key id goes under its thumbprint; the table maps each kid to its last key and lists exactly the keys' algorithms, sorted; parsing fails exactly when no key is usable. |
| `KeySources.AlgorithmsExactly` | cmd/jwtoken-tester/cli.go:458-482 | A JWK that declares an alg is for that one only; any other is for exactly the methods that can verify under its key. |
| `KeySources.LastWins` | cmd/jwtoken-tester/cli.go:420-443 | Every kid of the parsed table is that of a JWK and stands for the key of the last one that has it. |
| `KeySources.NoneLost` | cmd/jwtoken-tester/cli.go:420-443 | Every JWK with a kid is in the parsed table under it. |
| `KeySources.ParseServed` | cmd/jwtoken-tester/cli.go:412-456 | Parsing a sound ring's own JWKS always succeeds and gives the table of that JWKS. |
| `KeySources.ServedKids` | cmd/jwtoken-tester/cli.go:420-443 | The table parsed from a ring's JWKS has exactly the ring's kids and keys. |
| `KeySources.ServedIsEnabled` | cmd/jwtoken-tester/cli.go:458-461 | Every algorithm read off a sound ring's JWKS is enabled. |
| `KeySources.EnabledIsServed` | internal/keyring/keyring.go:382-392 | Every enabled algorithm can be read off a sound ring's JWKS. |
| `KeySources.RingAndJwksAgree` | internal/verify/verify.go:87-111 | Every token gets the same outcome from the live ring and from its parsed JWKS, but for the kid status. |
| `Durations.FormatParses` | internal/server/server.go:697 | Every non-negative duration is read back from its own text. |
| `TimeValues.WrittenReads` | README.md:308-309 | A time claim written as epoch seconds, as a number or as text, as a duration with or without "in " or with a minus, or as a date is read as the documentation says. |
| `TimeValues.SpaceIgnored` | internal/tokenfactory/factory.go:160-165 | Space around a duration, and after "in", makes no difference. |
| `TimeValues.EpochTextExactly` | internal/tokenfactory/factory.go:159-171 | Epoch seconds as text are read as those seconds if and only if they are not zero, which means now. |
| `TimeValues.TowardZero` | internal/tokenfactory/factory.go:153-158 | A JSON number is read as its whole seconds, cut toward zero. |
| `Minting.Begin` | internal/tokenfactory/factory.go:51-118 | For every request: an unknown algorithm is refused, an ill-formed claim is refused by name; otherwise it is refused for its lifetime or the draft has the requested claims as requested (one audience as a list of one, a time as the second it means) and the default claims, no others, and the algorithm named or RS256. |
| `Minting.Complete` | internal/tokenfactory/factory.go:99-118 | The defaults fill exactly the claims the request left out, and the cap is applied last. |
| `Minting.Mint` | internal/tokenfactory/factory.go:51-149 | A response is returned exactly when the algorithm is known, no reserved claim is of the wrong kind, the lifetime is within the cap, the ring has an enabled active key and signing succeeds; it is signed by the active key of the algorithm named, or of RS256, under its kid, claims what was requested as requested plus the defaults, and `expires_in` is the lifetime in seconds, rounded. Otherwise the error is the first of these to fail. |
| `MintLaws.CapExactly` | internal/tokenfactory/factory.go:115-118 | A request is refused for its lifetime exactly when the cap is positive and below the largest duration and the expiry lies beyond it. |
| `MintLaws.ClaimedLifetime` | internal/tokenfactory/factory.go:115-118 | Under a cap, the token's own expiry is at most the cap's whole seconds after its start. |
| `MintLaws.DraftShapes` | internal/tokenfactory/factory.go:70-113 | Every draft has claims of the shapes the classifier wants, and its expiry is read back in whole seconds. |
| `MintLaws.StandardClaims` | internal/tokenfactory/factory.go:99-107 | A request without issuer and times gets the issuer's name and the current second. |
| `MintLaws.MintedAccepted` | internal/verify/verify.go:212-240 | A minted standard token whose key is published is accepted exactly from its start until its expiry, with zero times read as absent. |
| `OAuth.BuildClaims` | internal/server/server.go:685-698 | The claims name the client, its scope, the audience and the lifetime, each only when given, and nothing else; whenever they are minted the factory accepts every one, sets issuer and start itself, and reads the lifetime back as that long from then. |
| `OAuth.CarriedIsMintable` | internal/tokenfactory/factory.go:75-97 | Any claims of that content are accepted by the factory, with the lifetime read back exactly. |
| `OAuth.AcceptedTTL` | internal/server/server.go:598-613 | Whatever the text, an accepted lifetime is non-negative, a duration, and within the cap. |
| `OAuth.AskedTTL` | internal/server/server.go:598-613 | The lifetime selected is the one the text spells, with any space around, and none for blank text; one above the cap is refused. |
| `OAuth.NegativeTTL` | internal/server/server.go:603-606 | A lifetime with a minus is refused. |
| `OAuth.TTLRoundTrip` | internal/tokenfactory/factory.go:159-165 | A lifetime printed by the endpoint is read back by the factory, at any time, as the same lifetime from then. |
| `OAuth.GrantDrafted` | internal/server/server.go:685-700 | From what the client asks for: the token expires exactly that long, or the default, after its start, with `expires_in` within half a second; if that is above the cap, the request is refused, a lifetime asked for when it is read and the default when it is minted. |
| `OAuth.SelectedAlgorithmWorks` | internal/server/server.go:578-596 | Whatever algorithm is selected, a sound ring signs with it and the classifier accepts it. |
| `OAuth.DefaultAlgorithm` | internal/server/server.go:578-596 | Without a name the algorithm is RS256 if enabled, and else the first enabled one in the fixed order. |
| `OAuth.NamedAlgorithm` | internal/server/server.go:580-587 | A named algorithm is selected, with any space around, exactly when it is enabled; any other name is refused. |
| `OAuth.GrantVerifies` | internal/server/server.go:636-700 | From what the client asks for: within the cap, the token is accepted by the live ring at every time from its start until the lifetime asked for, or the default, has passed. |
| `TokenEndpoint.ClientCredentials` | internal/server/server.go:636-722 | From form fields to token: refused for the algorithm, for the lifetime or by signing, and otherwise a token that names the client, scope and audience and nothing else, lasts as long as was asked for, or the default, and is accepted by the issuer all that time. |
| `OAuth.Introspect` | internal/server/server.go:756-779 | The response is an error, the inactive object, or the verified claims with two fields overridden. |
| `OAuth.IntrospectionExactly` | internal/server/server.go:750-779 | Active exactly when the token is authentic, in time without leeway and from the server's issuer; an inactive response reveals nothing of the token; an active one has the signed claims. |
| `Protocol.RunInv` | internal/keyring/keyring.go:214-255 | In every state of every run, whatever times rotations and prunes are given within the lag and the lead, the ring is sound, no published key is wiped, and every key in use by a mint is published or has outlived its grace. |
| `Protocol.RunOnward` | internal/keyring/keyring.go:318-334 | Over every run a kid only moves from active to retired to gone, and time, issued tokens and generated keys only grow. |
| `Protocol.RunFlagsAgree` | pkg/tester/tester.go:210-223 | Over every run whose clock stays more than the lag after the zero time, the retired flag of every listed key agrees with its lookup status in every state. |
| `Retention.VerifiesExactly` | internal/verify/verify.go:182-253 | In every reachable state and for any clock reading, a standard token verifies exactly when its key is published and the reading is before its expiry. |
| `Retention.VerifiesWithinGrace` | internal/verify/verify.go:116-182 | Over every run, with the clock read at one state and the key looked up at a later one, a standard token verifies if it was unexpired at the reading and the grace, counted from the lag before its start, has not passed by the prune lead after the lookup. |
| `Retention.PromiseKept` | README.md:538-539 | Under the retention condition every issued standard token verifies at every clock reading before its expiry, across any interleaving, also with prunes ahead of the clock and between the reading and the lookup. |
| `Retention.BreakingRun` | internal/keyring/keyring.go:238-255 | Whenever some allowed lifetime is not covered, there is a run in which a token unexpired at the clock reading does not verify. |
| `Retention.PromiseExactly` | README.md:538-539 | The promise holds over all runs if and only if a cap below the largest duration is in force and the grace covers its whole seconds plus the lag of rotation times, the lead of prune times and the delay from clock reading to lookup. |
| `Retention.DocumentedRule` | README.md:538-539 | With no lag, no lead, no delay and a cap in whole seconds, the promise holds if and only if the grace is at least the cap. |
| `Grants.GrantKept` | internal/server/server.go:685-700 | Under the retention condition every token the endpoint grants verifies until its own expiry in every run. |
| `Caching.KeyCache.Peek` | docker/demo-service/main.go:47-55 | A cached key is answered exactly when it is present and the cache is younger than the refresh interval. |
| `Caching.KeyCache.Refresh` | docker/demo-service/main.go:61-117 | A failed fetch changes nothing; a good one replaces keys and time and answers from the new keys. |
| `Caching.Build` | docker/demo-service/main.go:90-105 | The loop builds the table in which the last key of a kid wins. |
| `Caching.LastExported` | docker/demo-service/main.go:90-105 | Every kid of the table stands for the key of the last JWK that has it. |
| `Caching.ServedExactly` | docker/demo-service/main.go:90-105 | A consumer takes exactly the published keys, each under its own kid. |
| `Consumers.UnexpiredIsPublished` | internal/keyring/keyring.go:238-255 | With a cap in force whose whole seconds, lag and lead the grace covers, the key of an unexpired token is published in every state, and is the key that signed. |
| `Consumers.HitIsRight` | docker/demo-service/main.go:47-55 | A cache hit for a token's kid is the key that signed it, however stale the cache. |
| `Consumers.HitWhileFresh` | docker/demo-service/main.go:47-55 | Until the refresh interval has passed, the cache answers exactly the kids that were published when it was filled, with their keys. |
| `Consumers.ConsumerFindsKey` | docker/demo-service/main.go:47-117 | Under the same condition a consumer of an unexpired token obtains its key, from the cache or by a fetch, whichever refresh was stored last. |
| `Consumers.HitWasPublished` | docker/demo-service/main.go:53-54 | A cached key answered at a time was published later than that time less refresh interval and latency. |
| `Consumers.GoneIsForgotten` | docker/demo-service/main.go:107-110 | A key gone from the ring is not answered from the cache once refresh interval and latency have passed. |
| `Consumers.AnswerWasPublished` | docker/demo-service/main.go:107-116 | A key answered by a fetch was published, as that key, no longer ago than the latency. |
| `Consumers.GoneIsNotFetched` | docker/demo-service/main.go:107-116 | A key gone from the ring is not answered by a fetch stored more than the latency later. |
| `Limiting.Limiter.Allow` | internal/server/server.go:197-201 | Tokens flow in at the configured rate a second up to the burst; a whole one is taken if there is one, and otherwise nothing changes. |
| `Limiting.Visitors.Get` | internal/server/server.go:139-150 | Returns the client's limiter, a new full one if it has none, records the time, and touches no other entry. |
| `Limiting.Visitors.Cleanup` | internal/server/server.go:160-169 | In any order, and with the clock read anew at each client, both tables keep exactly the entries seen within ten minutes of the reading. |
| `LimiterTable.Arrive` | internal/server/server.go:139-150 | Getting a limiter acts on the objects as an arrival acts on the machine's state, and returns the limiter the request then holds. |
| `LimiterTable.Ask` | internal/server/server.go:197-201 | Asking the limiter a request holds acts as the machine's decision, with the same outcome, even if the limiter has left the table. |
| `LimiterTable.Clean` | internal/server/server.go:152-171 | A cleaning pass acts on the objects as the machine's cleaning. |
| `LimiterLaws.StepFits` | internal/server/server.go:139-171 | Every event keeps the tables' key sets equal, each client on its own limiter, and each request on its client's current one while it may still ask. |
| `LimiterLaws.SameClients` | internal/server/server.go:139-171 | The key sets of the two tables are equal after any events whatsoever. |
| `LimiterLaws.SameDecisions` | internal/server/server.go:139-171 | The evicting table and one that keeps everything decide every well-timed trace alike. |
| `LimiterLaws.AdmissionBound` | internal/server/server.go:191-204 | In any window one client is admitted at most the burst plus the rate times the seconds of the window, over any trace and evictions. |
| `LimiterConverse.UnobservableExactly` | internal/server/server.go:152-171 | Eviction changes no decision in any trace if and only if the rate brings in the burst in ten minutes and a nanosecond less the request delay. |
| `LimiterConverse.BoundedExactly` | internal/server/server.go:139-204 | The admission bound, burst plus rate times seconds, holds in every window of every trace if and only if the rate brings in the burst in ten minutes and a nanosecond less the request delay. |
| `ReleaseGuard.SegmentUnique` | internal/releaseguard/releaseguard.go:17 | A path has at most one final version segment. |
| `ReleaseGuard.MajorOneExactly` | internal/releaseguard/releaseguard.go:21-41 | A path reads as major one exactly when it is not blank and ends in no segment for another major. |
| `ReleaseGuard.SegmentMajor` | internal/releaseguard/releaseguard.go:21-41 | The major of a path is the number of its final segment, refused when it is zero or exceeds an int. |
| `ReleaseGuard.CheckExactly` | internal/releaseguard/releaseguard.go:59-76 | For a path with a segment the check passes exactly when the version's major is its number, and otherwise suggests the same path with the version's segment, or without one below two. |
| `ReleaseGuard.CheckPlain` | internal/releaseguard/releaseguard.go:59-76 | For a path without a segment the check passes exactly for major one, and otherwise suggests the path with the version's segment appended. |
| `ReleaseGuard.TargetHasMajor` | internal/releaseguard/releaseguard.go:115-124 | The path suggested for a major of at least two has that major, whatever the path. |
| `ReleaseGuard.TargetOverwrites` | internal/releaseguard/releaseguard.go:115-124 | A later suggestion replaces an earlier one. |
| `ReleaseGuard.MigrationExactly` | internal/releaseguard/releaseguard.go:57-76 | After a mismatch the suggested path passes if and only if the major is at least two, or is one and the path does not end in space and the text before its segment is not blank and carries no other major. |
| `ReleaseGuard.StackedSegment` | internal/releaseguard/releaseguard.go:115-124 | For major one, a path with two stacked segments gets a suggestion that fails again. |
| `ReleaseGuard.PaddedSegment` | internal/releaseguard/releaseguard.go:115-124 | For major one, trailing space hides the segment and the path is suggested again. |
| `ReleaseGuard.OnlySegment` | internal/releaseguard/releaseguard.go:115-124 | For major one, a path that is only a segment gets the empty path suggested, which is refused. |
| `ReleaseGuard.MajorZeroNeverPasses` | internal/releaseguard/releaseguard.go:35-37 | A version of major zero fails against every path. |
| `ReleaseGuard.VersionReads` | internal/releaseguard/releaseguard.go:45-55 | The major of a version is read back, with or without the leading v and whatever suffix follows, unless it exceeds an int. |
| `ReleaseGuard.NumbersExactly` | internal/releaseguard/releaseguard.go:18 | A version is exactly three numbers with periods between, and then nothing or a dash or plus with a suffix. |
| `ReleaseGuard.NoVersion` | internal/releaseguard/releaseguard.go:45-50 | A text is refused as no version exactly when it has no such form. |

## Left out

- Cryptography, key generation, JWK encoding and thumbprints: kids are assumed fresh, and a
  signature verifies under exactly its own key.
- Wiping covers only the raw private key, as in the code; the private JWK keeps its copy.
- The two Go maps `active` and `retired` have the same keys; the model pairs their entries
  per algorithm.
- KeyRings.KeyRing.RotateAt: the ring's value is passed along as ghost data instead of being
  a field, and the mutex is modelled by atomicity.
- Go's algorithm names are a type of three values; an unknown name is an error before the
  ring is asked.
- Minting.Mint: custom token headers, which the retention promise does not cover, are not
  part of a request here; how the signing library merges them is not in this repository.
- Minting.Begin: RFC 3339 text is read by a parameter, because `time.Parse` is library code;
  epoch seconds outside 64 bits are not wrapped.
- LimiterLaws.SameDecisions: decisions take effect in the order of the clock readings they use.
  `Allow` reads the clock before it takes the limiter's own lock, so two concurrent requests of
  one client may take effect the other way round, which moves the limiter's time back.
- LimiterLaws.AdmissionBound: rests on the same order. A cleaning pass is one event, so no
  decision falls between two of its clock readings, though only the table is locked meanwhile.
- The server replaces non-positive rates and bursts by defaults, so both are positive here.
- Floating point: `expires_in` is rounded on exact seconds, fractions of a duration text are
  exact, and bucket levels are real numbers; the limiter's nanosecond rounding of a wait is
  not modelled.
- Views.Less: compares strings whose characters are single bytes, which covers the
  base64url kids the ring generates.
- Protocol.RunInv: the clock never goes back; an operator changing the system time is not
  modelled.
- The goroutine, ticker and shutdown of `StartRotation` and of the limiter's cleanup: each
  pass is one atomic step, at any time.
- Consumers.ConsumerFindsKey: covers fetches that succeed; a failed one leaves the cache
  alone and the consumer without an answer.
- JWKS entries that cannot be parsed or exported, and JWKs of other curves: a sound ring
  serves none.
- HTTP routing, forms, limits, audit logs, discovery documents, error codes, configuration and
  the remaining command line: single-branch plumbing that would only add easy members.
- `normalizeScope` and the client-id choice: their results are parameters of the grant.
- `ParseModulePath` and reading go.mod: a scan for one line, without an inverse to prove.
- The embedding API beyond `Keys` and `PruneAt`: start, close and error mapping are resource handling.
